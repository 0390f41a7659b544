/** A run that shows why a wake-up can be lost when callbacks retire late. */
module EventRuns {
  import opened IoStates
  import opened IoResults
  import opened EventModel

  ghost predicate Reachable(g: Regime, s: Event) {
    exists run: seq<Action> :: IsRun(g, INIT, run) && Exec(g, INIT, run) == s
  }

  lemma Take(g: Regime, s: Event, a: Action) returns (t: Event)
    requires Reachable(g, s) && Enabled(s, a) && Allowed(g, s, a)
    ensures Reachable(g, t) && t == Next(s, a)
  {
    var run: seq<Action> :| IsRun(g, INIT, run) && Exec(g, INIT, run) == s;
    var more := run + [a];
    t := Next(s, a);
    assert more[..|more| - 1] == run;
    assert IsRun(g, INIT, more) && Exec(g, INIT, more) == t;
  }

  lemma Schedules(s0: Event) returns (s: Event)
    requires Reachable(Proper, s0) && s0.st.Idle? && s0.pc.Out? && !s0.past.ended
    ensures Reachable(Proper, s) && s == s0.(st := Scheduling, pc := Issue, seen := Seen(false, false))
  {
    s := Take(Proper, s0, PollStart);
    s := Take(Proper, s, OwnerStep);
    s := Take(Proper, s, OwnerStep);
  }

  /** A poll of an idle event leaves an operation pending, its waker registered. */
  lemma PendingPoll(s0: Event) returns (s: Event)
    requires Reachable(Proper, s0) && s0.st.Idle? && s0.pc.Out? && !s0.past.ended
    ensures Reachable(Proper, s)
    ensures s == s0.(st := Pending, waker := true, kernel := s0.kernel.(inflight := true),
                     past := s0.past.(ops := s0.past.ops + 1, polls := s0.past.polls + [Blocks]),
                     seen := Seen(false, true))
  {
    s := Schedules(s0);
    s := Take(Proper, s, IssueAsync);
    s := Take(Proper, s, OwnerStep);
    s := Take(Proper, s, OwnerStep);
  }

  lemma Claims(s0: Event) returns (s: Event)
    requires Reachable(Proper, s0) && s0.st.Pending? && s0.kernel == Kernel(false, true, true)
    ensures Reachable(Proper, s)
    ensures s == s0.(st := Callback, kernel := Kernel(true, false, false),
                     past := s0.past.(fires := s0.past.fires + 1), cbs := s0.cbs[s0.past.fires + 1 := Set])
  {
    var k := s0.past.fires + 1;
    s := Take(Proper, s0, Complete);
    s := Take(Proper, s, FireWait);
    s := Take(Proper, s, CbStep(k));
    s := Take(Proper, s, CbStep(k));
    assert s.cbs == s0.cbs[k := Set];
  }

  /** The operation completes: the wait fires, the callback claims, writes and publishes. */
  lemma Completes(s0: Event) returns (s: Event)
    requires Reachable(Proper, s0) && s0.st.Pending? && s0.kernel == Kernel(false, true, true)
    ensures Reachable(Proper, s)
    ensures s == s0.(st := Ready, cell := Written(s0.past.fires + 1, Ok(0)), kernel := Kernel(true, false, false),
                     past := s0.past.(fires := s0.past.fires + 1), cbs := s0.cbs[s0.past.fires + 1 := Wake])
  {
    var k := s0.past.fires + 1;
    s := Claims(s0);
    s := Take(Proper, s, CbStep(k));
    s := Take(Proper, s, CbStep(k));
    assert s.cbs == s0.cbs[k := Wake];
  }

  lemma FinishPoll(s0: Event) returns (s: Event)
    requires Reachable(Proper, s0) && s0.st.Ready? && s0.pc.Out? && !s0.past.ended
    ensures Reachable(Proper, s)
    ensures s == s0.(st := Idle, kernel := s0.kernel.(signalled := false, armed := true),
                     past := s0.past.(polls := s0.past.polls + [Reports(false)]), seen := Seen(false, false))
  {
    s := Take(Proper, s0, PollStart);
    s := Take(Proper, s, OwnerStep);
    s := Take(Proper, s, OwnerStep);
    assert s.pc == Rearm;
    s := Take(Proper, s, OwnerStep);
    s := Take(Proper, s, OwnerStep);
    assert s.pc.StoreIdle?;
    s := Take(Proper, s, OwnerStep);
  }

  /** The second operation is pending while the first one's callback still has its wake. */
  lemma SecondPending() returns (s: Event)
    ensures Reachable(Proper, s) && s.st == Pending && s.pc == Out && s.kernel == Kernel(false, true, true)
    ensures s.past == Past(2, 1, false, [Blocks, Reports(false), Blocks]) && s.cbs == map[1 := Wake] && s.waker
  {
    assert IsRun(Proper, INIT, []) && Exec(Proper, INIT, []) == INIT;
    s := PendingPoll(INIT);
    s := Completes(s);
    s := FinishPoll(s);
    s := PendingPoll(s);
  }

  lemma WakerTaken() returns (s: Event)
    ensures Reachable(Proper, s) && s.st == Pending && s.pc == Out && s.kernel == Kernel(false, true, true)
    ensures s.past == Past(2, 1, false, [Blocks, Reports(false), Blocks]) && s.cbs == map[] && !s.waker
  {
    s := SecondPending();
    s := Take(Proper, s, CbStep(1));
    assert s.cbs == map[];
  }

  /** A poll that has found the operation pending and is about to register. */
  lemma PollsAgain(s0: Event) returns (s: Event)
    requires Reachable(Proper, s0) && s0.st.Pending? && s0.pc.Out? && !s0.past.ended
    ensures Reachable(Proper, s) && s == s0.(pc := Register, seen := Seen(false, false))
  {
    s := Take(Proper, s0, PollStart);
    s := Take(Proper, s, OwnerStep);
    s := Take(Proper, s, OwnerStep);
  }

  /** Its operation completes, callback and all, before that poll registers. */
  lemma CompletesUnheard() returns (s: Event)
    ensures Reachable(Proper, s) && s.st == Ready && s.pc == Register && s.cbs == map[]
    ensures s.seen == Seen(false, false)
  {
    s := WakerTaken();
    s := PollsAgain(s);
    s := Completes(s);
    assert !s.waker && s.cbs == map[2 := Wake];
    s := Take(Proper, s, CbStep(2));
    assert s.cbs == map[];
  }

  /** A late wake takes the next operation's waker. The task it wakes polls once more, and
      if that operation completes inside this poll, nobody tells the task: it is Ready, its
      callback has retired, the last poll returned Pending, and there is no notification. */
  lemma LateWakeLosesWakeup()
    ensures exists s: Event :: Reachable(Proper, s) && s.st.Ready? && s.pc.Out? && s.cbs == map[]
              && s.seen == Seen(false, true)
  {
    var s := CompletesUnheard();
    s := Take(Proper, s, OwnerStep);
  }
}
