/** Runs that show what the conditions of the theorems are for: each lemma names a run of
    the program as it is in which a plainer claim fails. */
module HalfRuns {
  import opened IoStates
  import opened IoResults
  import opened HalfModel
  import opened HalfInvariant
  import opened HalfTheorems
  import opened HalfCell
  import opened HalfCancel

  /** Some run of the regime leads to `s`. */
  ghost predicate Reachable(g: Regime, s: Half) {
    exists run: seq<Action> :: IsRun(g, INIT, run) && Exec(g, INIT, run) == s
  }

  /** Some run of the regime leads to such a state. */
  ghost predicate CanReach(g: Regime, goal: Half -> bool) {
    exists s: Half :: Reachable(g, s) && goal(s)
  }

  lemma Start(g: Regime)
    ensures Reachable(g, INIT)
  {
    assert IsRun(g, INIT, []) && Exec(g, INIT, []) == INIT;
  }

  /** Extends a run by one action. */
  lemma Take(g: Regime, s: Half, a: Action) returns (t: Half)
    requires Reachable(g, s) && Enabled(s, a) && Allowed(g, s, a)
    ensures Reachable(g, t) && t == Next(s, a)
  {
    var run: seq<Action> :| IsRun(g, INIT, run) && Exec(g, INIT, run) == s;
    var more := run + [a];
    t := Next(s, a);
    assert more[..|more| - 1] == run;
    assert IsRun(g, INIT, more) && Exec(g, INIT, more) == t;
  }

  /** A poll of an idle half gets as far as the call that starts an operation. */
  lemma Schedules(g: Regime, s0: Half) returns (s: Half)
    requires Reachable(g, s0) && s0.st.Idle? && s0.pc.Out?
    requires forall k :: k in s0.cbs && Owed(k) ==> k in s0.past.asyncOps || g == Anything
    ensures Reachable(g, s)
    ensures s == s0.(st := Scheduling, pc := Issue, past := s0.past.(gen := s0.past.gen + 1),
                     seen := Seen(false, false, s0.waker, false, false, |s0.cbs| == 0))
  {
    s := Take(g, s0, PollStart);
    s := Take(g, s, OwnerStep);
    s := Take(g, s, OwnerStep);
  }

  /** And leaves the operation pending. */
  lemma PendingPoll(g: Regime, s0: Half) returns (s: Half)
    requires Reachable(g, s0) && s0.st.Idle? && s0.pc.Out?
    requires forall k :: k in s0.cbs && Owed(k) ==> k in s0.past.asyncOps || g == Anything
    ensures Reachable(g, s)
    ensures s.st == Pending && s.pc == Out && s.cell == s0.cell && s.waker == s0.waker
    ensures s.past == s0.past.(gen := s0.past.gen + 1, asyncOps := s0.past.asyncOps + {s0.past.gen + 1})
    ensures s.cbs == s0.cbs[s.past.gen := Cb(Queued, Ok(0))]
    ensures s.seen.lastPending && !s.seen.notified
  {
    s := Schedules(g, s0);
    s := Take(g, s, IssueAsync);
    s := Take(g, s, OwnerStep);
  }

  /** The kernel runs callback `k`, which claims a pending word, up to its write. */
  lemma Claims(g: Regime, s0: Half, k: Key, n: nat) returns (s: Half)
    requires Reachable(g, s0)
    requires s0.st.Pending? && Owed(k) && k in s0.cbs && s0.cbs[k].pc.Queued?
    ensures Reachable(g, s)
    ensures s == s0.(st := Callback, cbs := s0.cbs[k := Cb(Set, Ok(n))], past := s.past)
    ensures s.past == s0.past.(kernel := s0.past.kernel[k := Ok(n)], wins := s.past.wins)
  {
    s := Take(g, s0, Fire(k, 0, n));
    s := Take(g, s, CbStep(k));
    s := Take(g, s, CbStep(k));
    assert s.cbs == s0.cbs[k := Cb(Set, Ok(n))];
  }

  /** A claimed callback writes its result and publishes Ready. */
  lemma Publishes(g: Regime, s0: Half, k: Key) returns (s: Half)
    requires Reachable(g, s0)
    requires k in s0.cbs && s0.cbs[k].pc.Set?
    ensures Reachable(g, s)
    ensures s == s0.(st := Ready, cell := Written(k, s0.cbs[k].res), cbs := s0.cbs[k := s0.cbs[k].(pc := Wake)])
  {
    s := Take(g, s0, CbStep(k));
    s := Take(g, s, CbStep(k));
    assert s.cbs == s0.cbs[k := s0.cbs[k].(pc := Wake)];
  }

  /** A swap can land on Ready, of either kind of cancel: the result is lost for good. */
  lemma SwapCanLandOnReady(wait: bool)
    ensures CanReach(UnderE, (s: Half) => Lost(s) && CancelOf(s, 1) == Once(Swap(wait, Ready)))
  {
    Start(UnderE);
    var s := PendingPoll(UnderE, INIT);
    s := SeesPending(UnderE, s, wait);
    s := Claims(UnderE, s, 1, 5);
    s := Publishes(UnderE, s, 1);
    s := Take(UnderE, s, OwnerStep);
  }

  /** The owner's cancel has loaded Pending and is about to swap. */
  lemma SeesPending(g: Regime, s0: Half, wait: bool) returns (s: Half)
    requires Reachable(g, s0) && s0.st.Pending? && s0.pc.Out?
    requires g != Uncancelled
    ensures Reachable(g, s) && s == s0.(pc := CancelSwap(wait))
  {
    s := Take(g, s0, CancelStart(wait));
    s := Take(g, s, OwnerStep);
  }

  /** The owner cancels a pending word. */
  lemma Cancels(g: Regime, s0: Half, wait: bool) returns (s: Half)
    requires Reachable(g, s0) && s0.st.Pending? && s0.pc.Out? && g != Uncancelled
    ensures Reachable(g, s)
    ensures s == s0.(st := Swapped(wait), pc := CancelCall(wait),
                     past := s0.past.(swaps := s0.past.swaps[s0.past.gen := Swap(wait, Pending)]))
  {
    s := SeesPending(g, s0, wait);
    s := Take(g, s, OwnerStep);
  }

  /** A callback that finds a waiting cancel's word fails two claims and wins the third. */
  lemma ClaimsCancelled(g: Regime, s0: Half, k: Key) returns (s: Half)
    requires Reachable(g, s0) && s0.st.CancelledWait? && Owed(k) && k in s0.cbs && s0.cbs[k].pc.Queued?
    ensures Reachable(g, s)
    ensures s == s0.(st := Callback, cbs := s0.cbs[k := Cb(PublishOnly, Err(995))], past := s.past)
    ensures s.past.gen == s0.past.gen && s.past.log == s0.past.log
  {
    s := Take(g, s0, Fire(k, 995, 0));
    s := Take(g, s, CbStep(k));
    s := Take(g, s, CbStep(k));
    assert s.cbs[k].pc.CasNowait?;
    s := Take(g, s, CbStep(k));
    assert s.cbs[k].pc.CasWait?;
    s := Take(g, s, CbStep(k));
    assert s.cbs == s0.cbs[k := Cb(PublishOnly, Err(995))];
  }

  /** The owner spins; the callback has claimed the cancelled word. */
  lemma WaitsClaimed(s0: Half) returns (s: Half)
    requires Reachable(UnderE, s0)
    requires s0.st.Pending? && s0.pc.Out? && Owed(s0.past.gen)
    requires s0.past.gen in s0.cbs && s0.cbs[s0.past.gen].pc.Queued?
    ensures Reachable(UnderE, s) && s.pc == CancelSpin && s.st == Callback && s.cell == s0.cell
    ensures s.cbs == s0.cbs[s0.past.gen := Cb(PublishOnly, Err(995))]
    ensures s.past.gen == s0.past.gen && s.past.log == s0.past.log
  {
    s := Cancels(UnderE, s0, true);
    s := ClaimsCancelled(UnderE, s, s0.past.gen);
    s := Take(UnderE, s, OwnerStep);
  }

  /** An operation that meets a waiting cancel while pending ends Ready, cell untouched. */
  lemma WaitCancels(s0: Half) returns (s: Half)
    requires Reachable(UnderE, s0)
    requires s0.st.Pending? && s0.pc.Out? && Owed(s0.past.gen)
    requires s0.past.gen in s0.cbs && s0.cbs[s0.past.gen].pc.Queued?
    ensures Reachable(UnderE, s)
    ensures s.st == Ready && s.pc == Out && s.cell == s0.cell && s.past.gen == s0.past.gen && s.past.log == s0.past.log
  {
    s := WaitsClaimed(s0);
    s := Take(UnderE, s, CbStep(s0.past.gen));
    assert s.pc == CancelSpin && s.st == Ready;
    s := Take(UnderE, s, OwnerStep);
  }

  /** A poll that finds Ready returns what the cell holds. */
  lemma FinishPoll(s0: Half) returns (s: Half)
    requires Reachable(UnderE, s0) && s0.st.Ready? && s0.pc.Out?
    ensures Reachable(UnderE, s)
    ensures s.st == Idle && s.pc == Out && s.cell == s0.cell && s.cbs == s0.cbs
    ensures s.past == s0.past.(log := s0.past.log + [Finished(s0.past.gen, s0.cell)])
  {
    s := Take(UnderE, s0, PollStart);
    s := Take(UnderE, s, OwnerStep);
    s := Take(UnderE, s, OwnerStep);
    s := Take(UnderE, s, OwnerStep);
  }

  /** Polling after such a cancel reads a cell nobody has ever written. */
  lemma ReadsUninitialised()
    ensures CanReach(UnderE, (s: Half) => s.past.log == [Finished(1, Uninit)])
  {
    Start(UnderE);
    var s := PendingPoll(UnderE, INIT);
    s := WaitCancels(s);
    s := FinishPoll(s);
  }

  /** Or it delivers the operation before once more, as its own result. */
  lemma DeliversTwice()
    ensures CanReach(UnderE, (s: Half) =>
        s.past.log == [Finished(1, Written(1, Ok(5))), Finished(2, Written(1, Ok(5)))])
  {
    Start(UnderE);
    var s := PendingPoll(UnderE, INIT);
    s := Claims(UnderE, s, 1, 5);
    s := Publishes(UnderE, s, 1);
    s := FinishPoll(s);
    s := PendingPoll(UnderE, s);
    s := WaitCancels(s);
    s := FinishPoll(s);
  }

  /** A task that polls once is not woken: its poll returned Pending, its operation is
      Ready, its callback has retired, and nobody told it. */
  lemma LosesWakeup()
    ensures CanReach(UnderE, (s: Half) =>
        s.pc.Out? && s.seen.lastPending && s.st.Ready? && s.cbs == map[] && !s.seen.notified)
  {
    Start(UnderE);
    var s := PendingPoll(UnderE, INIT);
    s := Claims(UnderE, s, 1, 5);
    s := Publishes(UnderE, s, 1);
    s := Take(UnderE, s, CbStep(1));
    assert s.cbs == map[];
  }

  /** A second poll that finds the operation under way and is about to register. */
  lemma PollsAgain(s0: Half) returns (s: Half)
    requires Reachable(UnderE, s0) && s0.st.Pending? && s0.pc.Out?
    ensures Reachable(UnderE, s)
    ensures s == s0.(pc := Register, seen := s0.seen.(notified := false, lastPending := false, told := false))
  {
    s := Take(UnderE, s0, PollStart);
    s := Take(UnderE, s, OwnerStep);
    s := Take(UnderE, s, OwnerStep);
  }

  lemma WakesNobody(s0: Half, k: Key) returns (s: Half)
    requires Reachable(UnderE, s0) && k in s0.cbs && s0.cbs[k].pc.Wake? && !s0.waker
    ensures Reachable(UnderE, s) && s == s0.(cbs := s0.cbs - {k})
  {
    s := Take(UnderE, s0, CbStep(k));
  }

  /** Nor is a task that polls again and registers only after the wake. */
  lemma RegistersTooLate()
    ensures CanReach(UnderE, (s: Half) =>
        s.pc.Out? && s.waker && s.seen.lastPending && s.st.Ready? && s.cbs == map[] && !s.seen.notified)
  {
    Start(UnderE);
    var s := PendingPoll(UnderE, INIT);
    s := PollsAgain(s);
    s := Claims(UnderE, s, 1, 5);
    s := Publishes(UnderE, s, 1);
    s := WakesNobody(s, 1);
    assert s.cbs == map[];
    s := Take(UnderE, s, OwnerStep);
  }

  /** A waiting cancel that finds Callback returns at once, with the callback still writing. */
  lemma ReturnsWhileWriting()
    ensures CanReach(UnderE, (s: Half) => s.pc == CancelCheck(true) && Setting(s, 1) && OwnerNext(s).pc.Out?)
  {
    Start(UnderE);
    var s := PendingPoll(UnderE, INIT);
    s := Claims(UnderE, s, 1, 5);
    s := Take(UnderE, s, CancelStart(true));
  }

  /** So does one that finds the word of an earlier cancel that did not wait. */
  lemma ReturnsBeforeCallback()
    ensures CanReach(UnderE, (s: Half) =>
        s.pc == CancelCheck(true) && s.st.CancelledNowait? && OwnerNext(s).pc.Out? && StillUnderWay(OwnerNext(s)))
  {
    Start(UnderE);
    var s := PendingPoll(UnderE, INIT);
    s := Cancels(UnderE, s, false);
    s := Take(UnderE, s, OwnerStep);
    s := Take(UnderE, s, CancelStart(true));
    assert s.past.gen in s.cbs;
  }

  lemma FinishesInline(s0: Half) returns (s: Half)
    requires Reachable(Anything, s0) && s0.pc.Issue?
    ensures Reachable(Anything, s) && s.st == Idle && s.pc == Out && s.cell == s0.cell
    ensures s.cbs == s0.cbs[s0.past.gen := Cb(Queued, Ok(0))]
    ensures s.past == s0.past.(log := s0.past.log + [Inline(s0.past.gen, Ok(7))])
  {
    s := Take(Anything, s0, IssueInline(Ok(7), true));
    s := Take(Anything, s, OwnerStep);
    s := Take(Anything, s, OwnerStep);
  }

  lemma InlineFirst() returns (s: Half)
    ensures Reachable(Anything, s) && s.st == Idle && s.pc == Out && s.past.gen == 1
    ensures s.past.kernel == map[] && s.cbs == map[1 := Cb(Queued, Ok(0))]
  {
    Start(Anything);
    s := Schedules(Anything, INIT);
    s := FinishesInline(s);
  }

  /** One operation finished inline with its packet still to come, the next is pending. */
  lemma InlineThenPending() returns (s: Half)
    ensures Reachable(Anything, s) && s.st == Pending && s.past.gen == 2 && 2 !in s.past.kernel
    ensures 1 in s.cbs && s.cbs[1].pc.Queued? && forall k :: k in s.cbs ==> Owed(k)
  {
    s := InlineFirst();
    s := PendingPoll(Anything, s);
  }

  /** Without E: the packet of an operation that finished inline, if it comes after the
      next operation is pending, is taken for that operation's completion. */
  lemma LatePacketStealsOperation()
    ensures CanReach(Anything, (s: Half) =>
        && s.st.Ready? && s.past.gen == 2 && s.cell == Written(1, Ok(7)) && 2 !in s.past.kernel
        && forall k :: k in s.cbs ==> Owed(k))
  {
    var s := InlineThenPending();
    s := Claims(Anything, s, 1, 7);
    s := Publishes(Anything, s, 1);
  }

  /** A surplus callback claims a cancelled word. */
  lemma SurplusClaims(s0: Half) returns (s: Half)
    requires Reachable(Anything, s0) && s0.st.CancelledNowait? && 0 !in s0.cbs
    ensures Reachable(Anything, s) && s.cbs == s0.cbs[0 := Cb(Set, Ok(9))]
  {
    s := Take(Anything, s0, Inject(0));
    s := Take(Anything, s, Fire(0, 0, 9));
    s := Take(Anything, s, CbStep(0));
    s := Take(Anything, s, CbStep(0));
    assert s.cbs[0].pc.CasNowait?;
    s := Take(Anything, s, CbStep(0));
    assert s.cbs == s0.cbs[0 := Cb(Set, Ok(9))];
  }

  /** Without E and with a cancel, two callbacks can write the cell at once: the swap
      overwrites Callback, and a surplus callback claims the cancelled word. */
  lemma TwoWriters()
    ensures CanReach(Anything, (s: Half) => !Exclusive(s))
  {
    Start(Anything);
    var s := PendingPoll(Anything, INIT);
    s := SeesPending(Anything, s, false);
    s := Claims(Anything, s, 1, 5);
    s := Take(Anything, s, OwnerStep);
    s := SurplusClaims(s);
    assert Setting(s, 0) && Setting(s, 1);
  }

  /** If the callback tries its three claims now, and only then the owner stores Pending,
      the operation is pending with no callback. */
  predicate StuckWithoutSpin(s: Half, k: Key)
    requires k in s.cbs && s.cbs[k].pc.Spin? && s.pc.SetPending?
  {
    var t := At(s, k, CasPending);
    && CbNext(t, k) == At(t, k, CasNowait)
    && CbNext(At(t, k, CasNowait), k) == At(At(t, k, CasNowait), k, CasWait)
    && CbNext(At(At(t, k, CasNowait), k, CasWait), k).cbs == s.cbs - {k}
    && OwnerNext(s).st.Pending? && OwnerNext(s).pc.Out?
  }

  lemma LosesAllThree(s: Half, k: Key)
    requires k in s.cbs && s.cbs[k].pc.Spin? && s.pc.SetPending? && s.st.Scheduling?
    ensures StuckWithoutSpin(s, k)
  {
    assert At(At(At(s, k, CasPending), k, CasNowait), k, CasWait).cbs - {k} == s.cbs - {k};
  }

  lemma IssuesFirst() returns (s: Half)
    ensures Reachable(UnderE, s) && s.pc.SetPending? && s.st.Scheduling? && s.cbs == map[1 := Cb(Queued, Ok(0))]
  {
    Start(UnderE);
    s := Schedules(UnderE, INIT);
    assert s.cbs == map[] && s.past.gen == 1;
    s := Take(UnderE, s, IssueAsync);
  }

  lemma FiresEarly() returns (s: Half)
    ensures Reachable(UnderE, s) && s.pc.SetPending? && s.st.Scheduling? && 1 in s.cbs && s.cbs[1].pc.Spin?
  {
    s := IssuesFirst();
    s := Take(UnderE, s, Fire(1, 0, 5));
  }

  /** What the spin on Scheduling is for: a callback that arrives before `set_pending` and
      went straight to its claims would lose all three, and the operation would then be
      pending with no callback. */
  lemma SpinIsNeeded()
    ensures CanReach(UnderE, (s: Half) =>
        s.pc.SetPending? && 1 in s.cbs && s.cbs[1].pc.Spin? && StuckWithoutSpin(s, 1))
  {
    var s := FiresEarly();
    LosesAllThree(s, 1);
  }
}
