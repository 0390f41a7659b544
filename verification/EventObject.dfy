/** `IoEvent` as the object its methods update, with `poll` and `callback` in the shape of
    `src/io/shared/event.rs`, and the address loop of `TcpStream::connect` that reuses one.

    As in `HalfObject`, other threads run between any two accesses, and `trace` records a
    run of the transition system that leads to the object's state. */
module EventObject {
  import opened IoStates
  import opened IoResults
  import opened EventModel
  import opened EventTheorems

  datatype Thread = Owner | Outside | CallbackOf(k: Key)

  function Actor(a: Action): Thread {
    match a
    case CbStep(k) => CallbackOf(k)
    case Complete => Outside
    case FireWait => Outside
    case Inject(_) => Outside
    case _ => Owner
  }

  /** What the closure that starts the operation answers. */
  datatype Issued = GoesAsync | FinishesInline(res: IoRes, signals: bool)

  /** What a poll's foreign calls answer, should it make them. */
  datatype Answers = Answers(issued: Issued, resetError: nat, handle: bool, overlappedError: nat)

  datatype PollResult = Pending | Completed(res: IoRes) | Inline(res: IoRes)

  /** What a poll that finds Ready returns: an error of ResetEvent, or what
      GetOverlappedResult says if there is a handle to ask about. */
  function Reported(q: Answers): IoRes {
    if q.resetError != 0 then Err(q.resetError)
    else if q.handle && q.overlappedError != 0 then Err(q.overlappedError)
    else Ok(0)
  }

  function EndOf(r: PollResult, q: Answers): PollEnd {
    match r
    case Pending => Blocks
    case Completed(_) => Reports(q.resetError != 0)
    case Inline(res) => Inlines(res.Ok?)
  }

  function Part(env: seq<seq<Action>>, i: nat): seq<Action> {
    if i < |env| then env[i] else []
  }

  lemma Append(g: Regime, run: seq<Action>, a: Action)
    requires IsRun(g, INIT, run) && Enabled(Exec(g, INIT, run), a) && Allowed(g, Exec(g, INIT, run), a)
    ensures IsRun(g, INIT, run + [a]) && Exec(g, INIT, run + [a]) == Next(Exec(g, INIT, run), a)
  {
    assert (run + [a])[..|run|] == run;
  }

  /** What others cannot change behind a thread's back. */
  predicate Mine(me: Thread, s: Event, t: Event) {
    match me
    case Owner =>
      && t.pc == s.pc && t.past.ops == s.past.ops && t.past.ended == s.past.ended
      && t.past.polls == s.past.polls
      && t.seen.lastPending == s.seen.lastPending
    case CallbackOf(k) => k in s.cbs ==> k in t.cbs && t.cbs[k] == s.cbs[k]
    case Outside => true
  }

  lemma OthersLeaveMine(me: Thread, s: Event, a: Action)
    requires Enabled(s, a) && Actor(a) != me && !me.Outside?
    requires me.CallbackOf? ==> me.k in s.cbs && (a.FireWait? ==> me.k != s.past.fires + 1)
    ensures Mine(me, s, Next(s, a))
  {
  }

  lemma NotTaken(run: seq<Action>, more: seq<Action>, a: Action)
    requires run <= more && forall i :: |run| <= i < |more| ==> more[i] != a
    ensures multiset(more)[a] == multiset(run)[a]
  {
    var rest := more[|run|..];
    assert more == run + rest;
    assert a !in rest;
  }

  class IoEvent {
    const state: IoState
    const result: IoResult
    var waker: bool
    var pc: Pc
    var cbs: map<Key, CbPc>
    var kernel: Kernel
    var past: Past
    var seen: Seen
    ghost var trace: seq<Action>
    ghost var proper: bool       // the assumptions of `Proper` have held so far

    function Abs(): Event
      reads this, state, result
    {
      Event(state.word, result.cell, waker, pc, cbs, kernel, past, seen)
    }

    ghost predicate Valid()
      reads this, state, result
    {
      && IsRun(Anything, INIT, trace) && Exec(Anything, INIT, trace) == Abs()
      && (proper ==> IsRun(Proper, INIT, trace) && Exec(Proper, INIT, trace) == Abs())
    }

    /** `IoEvent::new`, when the foreign calls succeed. */
    constructor ()
      ensures Valid() && proper && Abs() == INIT && fresh(state) && fresh(result)
    {
      state := new IoState();
      result := new IoResult();
      waker, pc, cbs := false, Out, map[];
      kernel, past, seen := INIT.kernel, INIT.past, INIT.seen;
      trace, proper := [], true;
    }

    twostate predicate Did(a: Action)
      reads this, state, result
    {
      && Valid() && Enabled(old(Abs()), a)
      && Abs() == Next(old(Abs()), a)
      && trace == old(trace) + [a]
      && proper == (old(proper) && Allowed(Proper, old(Abs()), a))
    }

    /** Notes an action in the history; the fields are about to be brought up to date. */
    ghost method Note(a: Action)
      requires Valid() && Enabled(Abs(), a)
      modifies this`trace, this`proper
      ensures trace == old(trace) + [a] && proper == (old(proper) && Allowed(Proper, Abs(), a))
      ensures IsRun(Anything, INIT, trace) && Exec(Anything, INIT, trace) == Next(Abs(), a)
      ensures proper ==> IsRun(Proper, INIT, trace) && Exec(Proper, INIT, trace) == Next(Abs(), a)
    {
      Append(Anything, trace, a);
      if proper && Allowed(Proper, Abs(), a) {
        Append(Proper, trace, a);
      }
      proper := proper && Allowed(Proper, Abs(), a);
      trace := trace + [a];
    }

    /** Somebody else's step. */
    method Other(a: Action)
      requires Valid() && Enabled(Abs(), a)
      modifies this, state, result
      ensures Did(a)
    {
      var t := Next(Abs(), a);
      Note(a);
      state.word, result.cell, waker := t.st, t.cell, t.waker;
      pc, cbs, kernel, past, seen := t.pc, t.cbs, t.kernel, t.past, t.seen;
      assert Abs() == t;
    }

    /** Others run `acts`; what they could not do is skipped. */
    method Interfere(acts: seq<Action>, me: Thread)
      requires Valid() && !me.Outside? && (me.CallbackOf? ==> me.k in cbs)
      modifies this, state, result
      ensures Valid() && Mine(me, old(Abs()), Abs()) && old(trace) <= trace && (proper ==> old(proper))
      ensures old(past.ended) ==> past.ended
      ensures me.CallbackOf? ==> multiset(trace)[CbStep(me.k)] == multiset(old(trace))[CbStep(me.k)]
      ensures forall i :: |old(trace)| <= i < |trace| ==> Actor(trace[i]) != me
    {
      for i := 0 to |acts|
        invariant Valid() && Mine(me, old(Abs()), Abs()) && old(trace) <= trace && (proper ==> old(proper))
        invariant old(past.ended) ==> past.ended
        invariant forall i :: |old(trace)| <= i < |trace| ==> Actor(trace[i]) != me
      {
        var a := acts[i];
        var reuse := me.CallbackOf? && a.FireWait? && me.k == past.fires + 1;
        if Actor(a) != me && Enabled(Abs(), a) && !reuse {
          OthersLeaveMine(me, Abs(), a);
          Other(a);
        }
      }
      if me.CallbackOf? {
        NotTaken(old(trace), trace, CbStep(me.k));
      }
    }

    method BeginPoll()
      requires Valid() && pc.Out?
      modifies this, state, result
      ensures Did(PollStart)
    {
      Note(PollStart);
      pc := Finish;
      seen := Seen(false, false);
    }

    method TryFinish() returns (ok: bool)
      requires Valid() && pc.Finish?
      modifies this, state, result
      ensures Did(OwnerStep)
      ensures ok == old(state.word).Ready?
    {
      Note(OwnerStep);
      ok := state.Finish();
      pc := if ok then Reset else Schedule;
    }

    method ResetEvent(succeeds: bool)
      requires Valid() && pc.Reset?
      modifies this, state, result
      ensures Did(if succeeds then OwnerStep else ResetFails)
    {
      Note(if succeeds then OwnerStep else ResetFails);
      if succeeds {
        kernel := kernel.(signalled := false);
        pc := Rearm;
      } else {
        pc := StoreIdle(true, Uninit);
      }
    }

    method SetThreadpoolWait()
      requires Valid() && pc.Rearm?
      modifies this, state, result
      ensures Did(OwnerStep)
    {
      Note(OwnerStep);
      kernel := kernel.(armed := true);
      pc := Get;
    }

    method GetResult() returns (got: Cell)
      requires Valid() && pc.Get?
      modifies this, state, result
      ensures Did(OwnerStep)
      ensures got == old(result.cell)
    {
      Note(OwnerStep);
      got := result.Get();
      pc := StoreIdle(false, got);
    }

    method StoreIdleAfter()
      requires Valid() && pc.StoreIdle?
      modifies this, state, result
      ensures Did(OwnerStep)
    {
      Note(OwnerStep);
      past := past.(polls := past.polls + [Reports(pc.failed)]);
      state.SetIdle();
      pc := Out;
    }

    method TrySchedule() returns (ok: bool)
      requires Valid() && pc.Schedule?
      modifies this, state, result
      ensures Did(OwnerStep)
      ensures ok == old(state.word).Idle?
    {
      Note(OwnerStep);
      ok := state.Schedule();
      pc := if ok then Issue else Register;
    }

    method IssuePending()
      requires Valid() && pc.Issue?
      modifies this, state, result
      ensures Did(IssueAsync)
    {
      Note(IssueAsync);
      past := past.(ops := past.ops + 1);
      kernel := kernel.(inflight := true);
      pc := RegisterPending;
    }

    method IssueFinished(ok: bool, signals: bool)
      requires Valid() && pc.Issue?
      modifies this, state, result
      ensures Did(IssueInline(ok, signals))
    {
      Note(IssueInline(ok, signals));
      past := past.(ended := past.ended || ok);
      kernel := kernel.(signalled := kernel.signalled || signals);
      pc := InlineIdle(ok);
    }

    method StoreIdleInline()
      requires Valid() && pc.InlineIdle?
      modifies this, state, result
      ensures Did(OwnerStep)
    {
      Note(OwnerStep);
      past := past.(polls := past.polls + [Inlines(pc.ok)]);
      state.SetIdle();
      pc := Out;
    }

    method RegisterThenPending()
      requires Valid() && pc.RegisterPending?
      modifies this, state, result
      ensures Did(OwnerStep)
    {
      Note(OwnerStep);
      waker := true;
      pc := SetPending;
    }

    method StorePending()
      requires Valid() && pc.SetPending?
      modifies this, state, result
      ensures Did(OwnerStep)
    {
      Note(OwnerStep);
      state.SetPending();
      past := past.(polls := past.polls + [Blocks]);
      seen := seen.(lastPending := true);
      pc := Out;
    }

    method RegisterWaker()
      requires Valid() && pc.Register?
      modifies this, state, result
      ensures Did(OwnerStep)
    {
      Note(OwnerStep);
      waker := true;
      past := past.(polls := past.polls + [Blocks]);
      seen := seen.(lastPending := true);
      pc := Out;
    }

    /** The event is as `new` left it: idle, not set, its wait armed, and every pending
        operation so far has been answered by one callback. */
    ghost predicate AsNew()
      reads this, state
    {
      state.word == Idle && kernel == Kernel(false, true, false) && past.fires == past.ops
    }

    lemma IdleIsAsNew()
      requires Valid() && proper && !past.ended && state.word.Idle? && pc.Out?
      ensures AsNew()
    {
      OneCallbackEach(trace);
    }

    /** Re-arms the wait and reads the cell. */
    method RearmAndGet(env: seq<seq<Action>>) returns (got: Cell)
      requires Valid() && pc.Rearm?
      modifies this, state, result
      ensures Valid() && old(trace) <= trace && past.ended == old(past.ended)
      ensures pc.StoreIdle? && !pc.failed && past.polls == old(past.polls) && past.ops == old(past.ops)
      ensures proper ==> old(proper)
      ensures got.Written? ==> got.res == Ok(0)
    {
      SetThreadpoolWait();
      Interfere(Part(env, 3), Owner);
      ghost var before := trace;
      got := GetResult();
      CellHoldsSuccess(before);
      Interfere(Part(env, 4), Owner);
    }

    /** The branch of `poll` that found Ready. */
    method TakeResult(q: Answers, env: seq<seq<Action>>) returns (res: IoRes)
      requires Valid() && pc.Reset?
      modifies this, state, result
      ensures Valid() && pc.Out? && state.word.Idle? && old(trace) <= trace
      ensures past.ended == old(past.ended) && past.polls == old(past.polls) + [Reports(q.resetError != 0)]
      ensures past.ops == old(past.ops)
      ensures res == Reported(q) && (proper ==> q.resetError == 0)
    {
      ResetEvent(q.resetError == 0);
      Interfere(Part(env, 2), Owner);
      if q.resetError != 0 {
        StoreIdleAfter();
        return Err(q.resetError);
      }
      var got := RearmAndGet(env);
      res :=
        if got.Written? && got.res.Err? then got.res
        else if q.handle && q.overlappedError != 0 then Err(q.overlappedError)
        else Ok(0);
      StoreIdleAfter();
    }

    /** The branch of `poll` whose operation is pending. */
    method LeavePending(env: seq<seq<Action>>)
      requires Valid() && pc.Issue?
      modifies this, state, result
      ensures Valid() && pc.Out? && old(trace) <= trace && past.ended == old(past.ended) && seen.lastPending
      ensures past.polls == old(past.polls) + [Blocks] && past.ops == old(past.ops) + 1
    {
      IssuePending();
      Interfere(Part(env, 3), Owner);
      RegisterThenPending();
      Interfere(Part(env, 4), Owner);
      StorePending();
    }

    /** The branch of `poll` whose operation finished inline. */
    method FinishInline(ok: bool, signals: bool, env: seq<seq<Action>>)
      requires Valid() && pc.Issue?
      modifies this, state, result
      ensures Valid() && pc.Out? && old(trace) <= trace && past.ended == (old(past.ended) || ok) && state.word.Idle?
      ensures past.polls == old(past.polls) + [Inlines(ok)] && past.ops == old(past.ops)
    {
      IssueFinished(ok, signals);
      Interfere(Part(env, 3), Owner);
      StoreIdleInline();
    }

    /** The first test of `poll`. */
    method LooksForResult(env: seq<seq<Action>>) returns (finished: bool)
      requires Valid() && pc.Out?
      modifies this, state, result
      ensures Valid() && (if finished then pc.Reset? else pc.Schedule?)
      ensures past.ended == old(past.ended) && past.polls == old(past.polls) && old(trace) + [PollStart] <= trace
      ensures past.ops == old(past.ops)
    {
      BeginPoll();
      Interfere(Part(env, 0), Owner);
      finished := TryFinish();
      Interfere(Part(env, 1), Owner);
    }

    /** The branches of `poll` that found no result. */
    method StartOrRegister(q: Answers, env: seq<seq<Action>>) returns (r: PollResult)
      requires Valid() && pc.Schedule?
      modifies this, state, result
      ensures Valid() && pc.Out? && old(trace) <= trace && !r.Completed?
      ensures past.polls == old(past.polls) + [EndOf(r, q)]
      ensures past.ended == (old(past.ended) || (r.Inline? && r.res.Ok?))
      ensures r.Pending? ==> seen.lastPending
      ensures r.Inline? ==> q.issued.FinishesInline? && r.res == q.issued.res && state.word.Idle?
      ensures past.ops == old(past.ops) || (past.ops == old(past.ops) + 1 && q.issued.GoesAsync? && r.Pending?)
    {
      var scheduled := TrySchedule();
      Interfere(Part(env, 2), Owner);
      r := PollResult.Pending;
      if scheduled {
        match q.issued {
          case GoesAsync =>
            LeavePending(env);
          case FinishesInline(res, signals) =>
            FinishInline(res.Ok?, signals, env);
            r := Inline(res);
        }
      } else {
        RegisterWaker();
      }
    }

    /** `IoEvent::poll`. `q` holds what the foreign calls answer if they are made. */
    method Poll(q: Answers, env: seq<seq<Action>>) returns (r: PollResult)
      requires Valid() && pc.Out?
      modifies this, state, result
      ensures Valid() && pc.Out? && old(trace) + [PollStart] <= trace
      ensures past.ended == (old(past.ended) || (r.Inline? && r.res.Ok?))
      ensures past.polls == old(past.polls) + [EndOf(r, q)]
      ensures r.Pending? ==> seen.lastPending
      ensures r.Inline? ==> q.issued.FinishesInline? && r.res == q.issued.res
      ensures r.Completed? && q.resetError != 0 ==> r.res == Err(q.resetError) && !proper
      ensures r.Completed? && q.resetError == 0 && q.handle && q.overlappedError != 0 ==>
                r.res == Err(q.overlappedError)
      ensures r.Completed? && q.resetError == 0 && (!q.handle || q.overlappedError == 0) ==> r.res == Ok(0)
      ensures past.ops == old(past.ops) || (past.ops == old(past.ops) + 1 && q.issued.GoesAsync? && r.Pending?)
      ensures !r.Pending? && proper && !past.ended ==> AsNew()
    {
      var finished := LooksForResult(env);
      if finished {
        var res := TakeResult(q, env);
        r := Completed(res);
      } else {
        r := StartOrRegister(q, env);
      }
      if !r.Pending? && proper && !past.ended {
        IdleIsAsNew();
      }
    }

    method LoadScheduling(k: Key) returns (b: bool)
      requires Valid() && k in cbs && cbs[k].Spin?
      modifies this, state, result
      ensures Did(CbStep(k))
      ensures b == old(state.word).Scheduling?
    {
      Note(CbStep(k));
      b := state.IsScheduling();
      if !b {
        cbs := cbs[k := CasPending];
      }
    }

    method ClaimPending(k: Key) returns (ok: bool)
      requires Valid() && k in cbs && cbs[k].CasPending?
      modifies this, state, result
      ensures Did(CbStep(k))
      ensures ok == old(state.word).Pending?
    {
      Note(CbStep(k));
      ok := state.CallbackPendingCas();
      cbs := if ok then cbs[k := Set] else cbs - {k};
    }

    method SetResult(k: Key)
      requires Valid() && k in cbs && cbs[k].Set?
      modifies this, state, result
      ensures Did(CbStep(k))
    {
      Note(CbStep(k));
      result.Set(k, Encode(0, 0));
      cbs := cbs[k := Publish];
    }

    method StoreReady(k: Key)
      requires Valid() && k in cbs && cbs[k].Publish?
      modifies this, state, result
      ensures Did(CbStep(k))
    {
      Note(CbStep(k));
      state.SetReady();
      cbs := cbs[k := Wake];
    }

    method WakeWaker(k: Key)
      requires Valid() && k in cbs && cbs[k].Wake?
      modifies this, state, result
      ensures Did(CbStep(k))
    {
      Note(CbStep(k));
      seen := seen.(notified := seen.notified || waker);
      waker := false;
      cbs := cbs - {k};
    }

    /** The claimed branch of `callback`: set, publish, wake. */
    method SetAndWake(k: Key, env: seq<seq<Action>>)
      requires Valid() && k in cbs && cbs[k].Set?
      modifies this, state, result
      ensures Valid() && k !in cbs && old(trace) <= trace && (proper ==> old(proper))
    {
      SetResult(k);
      Interfere(Part(env, 1), CallbackOf(k));
      PublishAndWake(k, Part(env, 2));
    }

    method PublishAndWake(k: Key, acts: seq<Action>)
      requires Valid() && k in cbs && cbs[k].Publish?
      modifies this, state, result
      ensures Valid() && k !in cbs && old(trace) <= trace && (proper ==> old(proper))
    {
      StoreReady(k);
      Interfere(acts, CallbackOf(k));
      WakeWaker(k);
    }

    /** `callback`. Each round of the spin takes one part of `spins`; `done` is false when
        they run out before the spin does. `claimed`: its one claim succeeded. */
    method Callback(k: Key, spins: seq<seq<Action>>, env: seq<seq<Action>>) returns (done: bool, claimed: bool)
      requires Valid() && k in cbs && cbs[k].Spin?
      modifies this, state, result
      ensures Valid() && (done <==> k !in cbs) && (!done ==> cbs[k].Spin?)
      ensures !done ==> multiset(trace)[CbStep(k)] == multiset(old(trace))[CbStep(k)] + |spins|
      ensures done && proper && !past.ended ==> claimed
      ensures proper && old(past.ended) ==> !claimed
    {
      done, claimed := false, false;
      var i := 0;
      while !done && i < |spins|
        invariant Valid() && k in cbs && (proper ==> old(proper)) && (old(past.ended) ==> past.ended)
        invariant if done then cbs[k].CasPending? else cbs[k].Spin?
        invariant i <= |spins| && multiset(trace)[CbStep(k)] == multiset(old(trace))[CbStep(k)] + i
      {
        Interfere(spins[i], CallbackOf(k));
        var spinning := LoadScheduling(k);
        done := !spinning;
        i := i + 1;
      }
      if done {
        Interfere(Part(env, 0), CallbackOf(k));
        ghost var before := trace;
        claimed := ClaimPending(k);
        if proper {
          EveryClaimWins(before, k);
        }
        if claimed {
          SetAndWake(k, env);
        }
      }
    }
  }

  // ---- TcpStream::connect ---------------------------------------------------------------

  const WSAEISCONN := 10056
  const WSA_IO_PENDING := 997

  /** What the closure in `Connect::poll` makes of ConnectEx's answer. */
  function ConnectIssued(returned: bool, error: nat, signals: bool): (i: Issued)
    ensures i.GoesAsync? <==> !returned && error == WSA_IO_PENDING
    ensures i.FinishesInline? && i.res.Ok? <==> returned || error == WSAEISCONN
    ensures i.FinishesInline? && i.res.Err? ==> i.res.code == error
  {
    if returned then FinishesInline(Ok(0), signals)
    else if error == WSAEISCONN then FinishesInline(Ok(0), signals)
    else if error == WSA_IO_PENDING then GoesAsync
    else FinishesInline(Err(error), signals)
  }

  /** One poll of a connect: what ConnectEx, ResetEvent and GetOverlappedResult answer if
      they are called, and what others do meanwhile. */
  datatype ConnectPoll = ConnectPoll(
    returned: bool, error: nat, signals: bool, resetError: nat, overlappedError: nat, env: seq<seq<Action>>)

  /** `Connect::poll` asks about the socket's handle. */
  function AnswersOf(p: ConnectPoll): Answers {
    Answers(ConnectIssued(p.returned, p.error, p.signals), p.resetError, true, p.overlappedError)
  }

  /** One address: how its polls go, in order. */
  datatype Attempt = Attempt(polls: seq<ConnectPoll>)

  datatype Outcome = Connected | Failed(code: nat) | NotResolved | Unfinished

  /** A poll that ended as `e` with result `res`, given what the foreign calls answered it:
      the inline result of ConnectEx, or what was reported on completion. */
  predicate EndedWith(q: Answers, e: PollEnd, res: IoRes) {
    match e
    case Blocks => false
    case Reports(failed) => failed == (q.resetError != 0) && res == Reported(q)
    case Inlines(ok) => q.issued.FinishesInline? && res == q.issued.res && ok == res.Ok?
  }

  /** The event was polled `used` times for this address and no more: all polls but the last
      returned Pending, and if the attempt is done then the last one ended with `res`. */
  predicate Went(a: Attempt, before: seq<PollEnd>, after: seq<PollEnd>, used: nat, done: bool, res: IoRes) {
    && used <= |a.polls| && before <= after && |after| == |before| + used
    && (forall n :: |before| <= n < |after| - 1 ==> after[n].Blocks?)
    && if done then used > 0 && EndedWith(AnswersOf(a.polls[used - 1]), after[|after| - 1], res)
       else used == |a.polls| && (used > 0 ==> after[|after| - 1].Blocks?)
  }

  /** `Connect { .. }.await`: polls until ready; `done` is false when the polls run out. */
  method Await(event: IoEvent, attempt: Attempt) returns (done: bool, res: IoRes, used: nat)
    requires event.Valid() && event.pc.Out? && !event.past.ended
    modifies event, event.state, event.result
    ensures event.Valid() && event.pc.Out? && old(event.trace) <= event.trace
    ensures Went(attempt, old(event.past.polls), event.past.polls, used, done, res)
    ensures done ==> used > 0 && |event.past.polls| > 0
    ensures done && event.past.polls[|event.past.polls| - 1].Reports? ==>
              var p := attempt.polls[used - 1];
              && (p.resetError != 0 ==> res == Err(p.resetError))
              && (p.resetError == 0 && p.overlappedError != 0 ==> res == Err(p.overlappedError))
              && (p.resetError == 0 && p.overlappedError == 0 ==> res == Ok(0))
    ensures done && event.past.polls[|event.past.polls| - 1].Inlines? ==>
              var p := attempt.polls[used - 1];
              && (p.returned || p.error == 10056 ==> res == Ok(0))
              && (!p.returned && p.error != 10056 ==> p.error != 997 && res == Err(p.error))
    ensures !done ==> !event.past.ended
    ensures event.past.ended ==> res.Ok?
    ensures done && event.proper && !event.past.ended ==> event.AsNew()
  {
    done, res, used := false, Err(0), 0;
    while !done && used < |attempt.polls|
      invariant event.Valid() && event.pc.Out? && old(event.trace) <= event.trace
      invariant used <= |attempt.polls| && |event.past.polls| == |old(event.past.polls)| + used
      invariant old(event.past.polls) <= event.past.polls
      invariant forall n :: |old(event.past.polls)| <= n < |event.past.polls| - 1 ==> event.past.polls[n].Blocks?
      invariant done ==> used > 0 && EndedWith(AnswersOf(attempt.polls[used - 1]),
                                               event.past.polls[|event.past.polls| - 1], res)
      invariant !done && used > 0 ==> event.past.polls[|event.past.polls| - 1].Blocks?
      invariant !done ==> !event.past.ended
      invariant event.past.ended ==> res.Ok?
      invariant done && event.proper && !event.past.ended ==> event.AsNew()
    {
      var p := attempt.polls[used];
      var r := event.Poll(AnswersOf(p), p.env);
      if !r.Pending? {
        done, res := true, r.res;
      }
      used := used + 1;
    }
  }

  /** The result `res` of an attempt that ended as `e`, in terms of the answers of its last poll.
      Reported on completion: an error of ResetEvent, else one of GetOverlappedResult, else
      success. Inline: success if ConnectEx returned true or the socket is connected already
      (10056), else its error, which is not the one for pending (997). */
  predicate Reasoned(p: ConnectPoll, e: PollEnd, res: IoRes) {
    && !e.Blocks?
    && (e.Reports? && p.resetError != 0 ==> res == Err(p.resetError))
    && (e.Reports? && p.resetError == 0 && p.overlappedError != 0 ==> res == Err(p.overlappedError))
    && (e.Reports? && p.resetError == 0 && p.overlappedError == 0 ==> res == Ok(0))
    && (e.Inlines? && (p.returned || p.error == 10056) ==> res == Ok(0))
    && (e.Inlines? && !p.returned && p.error != 10056 ==> p.error != 997 && res == Err(p.error))
  }

  /** The first `|tries|` addresses were tried, in order, each until it was done; `marks` says
      how the event's polls stood before each and after the last. */
  predicate Tried(addrs: seq<Attempt>, tries: seq<IoRes>, used: seq<nat>, marks: seq<seq<PollEnd>>) {
    && |tries| <= |addrs| && |used| == |tries| && |marks| == |tries| + 1
    && (forall i :: 0 <= i < |tries| ==> Went(addrs[i], marks[i], marks[i + 1], used[i], true, tries[i]))
    && (forall i :: 0 <= i < |tries| - 1 ==> tries[i].Err?)
  }

  /** Each result has its reason in the last poll made for its address. */
  predicate AllReasoned(addrs: seq<Attempt>, tries: seq<IoRes>, used: seq<nat>, marks: seq<seq<PollEnd>>)
    requires Tried(addrs, tries, used, marks)
  {
    forall i :: 0 <= i < |tries| ==>
      && 0 < used[i] <= |addrs[i].polls| && |marks[i + 1]| > 0
      && Reasoned(addrs[i].polls[used[i] - 1], marks[i + 1][|marks[i + 1]| - 1], tries[i])
  }

  lemma TriedMore(addrs: seq<Attempt>, tries: seq<IoRes>, used: seq<nat>, marks: seq<seq<PollEnd>>,
                  after: seq<PollEnd>, n: nat, res: IoRes)
    requires Tried(addrs, tries, used, marks) && |tries| < |addrs|
    requires forall i :: 0 <= i < |tries| ==> tries[i].Err?
    requires Went(addrs[|tries|], marks[|tries|], after, n, true, res)
    ensures Tried(addrs, tries + [res], used + [n], marks + [after])
  {
  }

  lemma TriedForAReason(addrs: seq<Attempt>, tries: seq<IoRes>, used: seq<nat>, marks: seq<seq<PollEnd>>)
    requires Tried(addrs, tries, used, marks)
    ensures AllReasoned(addrs, tries, used, marks)
  {
    forall i | 0 <= i < |tries|
      ensures 0 < used[i] <= |addrs[i].polls| && |marks[i + 1]| > 0
      ensures Reasoned(addrs[i].polls[used[i] - 1], marks[i + 1][|marks[i + 1]| - 1], tries[i])
    {
      assert Went(addrs[i], marks[i], marks[i + 1], used[i], true, tries[i]);
    }
  }

  /** The address loop of `connect`. Addresses are tried in order up to the first success, and
      no address is polled after it. The last one may still be under way when its polls run
      out. */
  method Connect(event: IoEvent, addrs: seq<Attempt>)
    returns (out: Outcome, tries: seq<IoRes>, used: seq<nat>, ghost marks: seq<seq<PollEnd>>)
    requires event.Valid() && event.pc.Out? && !event.past.ended && event.state.word.Idle?
    modifies event, event.state, event.result
    ensures event.Valid() && event.pc.Out? && old(event.trace) <= event.trace
    ensures Tried(addrs, tries, used, marks) && marks[0] == old(event.past.polls)
    ensures AllReasoned(addrs, tries, used, marks)
    ensures !out.Unfinished? ==> event.past.polls == marks[|tries|]
    ensures out.Unfinished? ==>
              && |tries| < |addrs| && (tries == [] || tries[|tries| - 1].Err?)
              && Went(addrs[|tries|], marks[|tries|], event.past.polls, |addrs[|tries|].polls|, false, Err(0))
    ensures out.Connected? <==> tries != [] && tries[|tries| - 1].Ok?
    ensures out.Failed? <==> addrs != [] && |tries| == |addrs| && tries[|tries| - 1].Err?
    ensures out.Failed? ==> tries[|tries| - 1] == Err(out.code)
    ensures out.NotResolved? <==> addrs == []
    ensures event.proper && !event.past.ended && !out.Unfinished? ==> event.AsNew()
    ensures event.past.ended ==> out.Connected?
  {
    var result, tried := Err(0), 0;
    tries, used, marks := [], [], [event.past.polls];
    if event.proper {
      event.IdleIsAsNew();
    }
    for i := 0 to |addrs|
      invariant event.Valid() && event.pc.Out? && !event.past.ended && old(event.trace) <= event.trace
      invariant |tries| == i == tried
      invariant Tried(addrs, tries, used, marks) && marks[0] == old(event.past.polls)
      invariant event.past.polls == marks[i]
      invariant forall j :: 0 <= j < |tries| ==> tries[j].Err?
      invariant i > 0 ==> result == tries[i - 1]
      invariant i == 0 ==> result == Err(0)
      invariant event.proper ==> event.AsNew()
    {
      var done, res, n := Await(event, addrs[i]);
      if !done {
        TriedForAReason(addrs, tries, used, marks);
        return Unfinished, tries, used, marks;
      }
      result := res;
      tried := tried + 1;
      TriedMore(addrs, tries, used, marks, event.past.polls, n, res);
      tries, used, marks := tries + [res], used + [n], marks + [event.past.polls];
      if result.Ok? {
        break;
      }
    }
    TriedForAReason(addrs, tries, used, marks);
    out :=
      if result.Ok? then Connected
      else if tried > 0 then Failed(result.code)
      else NotResolved;
  }
}
