/** `IoHalf` as the object its methods update, with `poll`, `cancel` and `callback` in the
    shape of `src/io/shared/handle.rs`.

    Other threads run between any two accesses of the object: `Interfere` takes what they
    do, in order, and skips what they could not have done, so a caller's `env` stands for
    an arbitrary schedule. Every access appends its action to `trace`; `Valid` says that
    the trace is a run of the transition system and the object is where that run leads, so
    all that is proved of runs holds of the object. */
module HalfObject {
  import opened IoStates
  import opened IoResults
  import opened HalfModel
  import opened HalfInvariant
  import opened HalfTheorems
  import opened HalfCancel

  datatype Thread = Owner | Kernel | CallbackOf(k: Key)

  function Actor(a: Action): Thread {
    match a
    case CbStep(k) => CallbackOf(k)
    case Fire(_, _, _) => Kernel
    case Inject(_) => Kernel
    case _ => Owner
  }

  /** What the Win32 call that starts an operation answers. */
  datatype Issued = GoesAsync | FinishesInline(res: IoRes, posts: bool)

  datatype PollResult = Pending | ReadyWith(got: Cell) | ReadyInline(res: IoRes)

  function Part(env: seq<seq<Action>>, i: nat): seq<Action> {
    if i < |env| then env[i] else []
  }

  /** Appending an action to a run. */
  lemma Append(g: Regime, run: seq<Action>, a: Action)
    requires IsRun(g, INIT, run) && Enabled(Exec(g, INIT, run), a) && Allowed(g, Exec(g, INIT, run), a)
    ensures IsRun(g, INIT, run + [a]) && Exec(g, INIT, run + [a]) == Next(Exec(g, INIT, run), a)
  {
    assert (run + [a])[..|run|] == run;
  }

  /** What others cannot change behind a thread's back. */
  predicate Mine(me: Thread, s: Half, t: Half) {
    match me
    case Owner =>
      && t.pc == s.pc && t.past.log == s.past.log && t.past.gen == s.past.gen
      && t.past.asyncOps == s.past.asyncOps && t.past.swaps == s.past.swaps
      && t.seen.lastPending == s.seen.lastPending
    case CallbackOf(k) => k in s.cbs && !s.cbs[k].pc.Queued? ==> k in t.cbs && t.cbs[k] == s.cbs[k]
    case Kernel => true
  }

  lemma OthersLeaveMine(me: Thread, s: Half, a: Action)
    requires Enabled(s, a) && Actor(a) != me && !me.Kernel?
    requires me.CallbackOf? ==> me.k in s.cbs && (a.IssueAsync? || a.IssueInline? ==> me.k != s.past.gen)
    ensures Mine(me, s, Next(s, a))
  {
  }

  /** Where a half gets if `acts` are done to it, leaving out what cannot be. */
  function Played(s: Half, acts: seq<Action>): Half
    decreases |acts|
  {
    if acts == [] then s
    else Played(if Enabled(s, acts[0]) then Next(s, acts[0]) else s, acts[1..])
  }

  /** What another thread can do behind `me`; a running callback's key is not issued again. */
  predicate Foreign(s: Half, a: Action, me: Thread) {
    && Actor(a) != me && Enabled(s, a)
    && !(me.CallbackOf? && (a.IssueAsync? || a.IssueInline?) && me.k == s.past.gen)
  }

  /** How often a run takes a step. */
  function Times(run: seq<Action>, a: Action): nat {
    multiset(run)[a]
  }

  lemma NotTaken(run: seq<Action>, more: seq<Action>, a: Action)
    requires run <= more && forall i :: |run| <= i < |more| ==> more[i] != a
    ensures Times(more, a) == Times(run, a)
  {
    var rest := more[|run|..];
    assert more == run + rest;
    assert a !in rest;
  }

  class IoHalf {
    const state: IoState
    const result: IoResult
    var waker: bool
    var pc: Pc
    var cbs: map<Key, Cb>
    var past: Past
    var seen: HalfModel.Seen
    ghost var trace: seq<Action>
    ghost var withinE: bool      // assumption E has held so far

    function Abs(): Half
      reads this, state, result
    {
      Half(state.word, result.cell, waker, pc, cbs, past, seen)
    }

    ghost predicate Valid()
      reads this, state, result
    {
      && IsRun(Anything, INIT, trace) && Exec(Anything, INIT, trace) == Abs()
      && (withinE ==> IsRun(UnderE, INIT, trace) && Exec(UnderE, INIT, trace) == Abs())
    }

    constructor ()
      ensures Valid() && withinE && Abs() == INIT && trace == [] && fresh(state) && fresh(result)
    {
      state := new IoState();
      result := new IoResult();
      waker, pc, cbs := false, Out, map[];
      past, seen := INIT.past, INIT.seen;
      trace, withinE := [], true;
    }

    /** This object has just taken the step `a`. */
    twostate predicate Did(a: Action)
      reads this, state, result
    {
      && Valid() && Enabled(old(Abs()), a)
      && Abs() == Next(old(Abs()), a)
      && trace == old(trace) + [a]
      && withinE == (old(withinE) && AllowedE(old(Abs()), a))
    }

    /** Notes an action in the history; the fields are about to be brought up to date. */
    ghost method Note(a: Action)
      requires Valid() && Enabled(Abs(), a)
      modifies this`trace, this`withinE
      ensures trace == old(trace) + [a] && withinE == (old(withinE) && AllowedE(Abs(), a))
      ensures IsRun(Anything, INIT, trace) && Exec(Anything, INIT, trace) == Next(Abs(), a)
      ensures withinE ==> IsRun(UnderE, INIT, trace) && Exec(UnderE, INIT, trace) == Next(Abs(), a)
    {
      Append(Anything, trace, a);
      if withinE && AllowedE(Abs(), a) {
        Append(UnderE, trace, a);
      }
      withinE := withinE && AllowedE(Abs(), a);
      trace := trace + [a];
    }

    /** Somebody else's step. */
    method Other(a: Action)
      requires Valid() && Enabled(Abs(), a)
      modifies this, state, result
      ensures Did(a)
    {
      var t := Next(Abs(), a);
      Note(a);
      state.word, result.cell, waker := t.st, t.cell, t.waker;
      pc, cbs, past, seen := t.pc, t.cbs, t.past, t.seen;
    }

    /** Others run `acts`. A callback's key cannot be reissued under it. */
    method Interfere(acts: seq<Action>, me: Thread)
      requires Valid() && !me.Kernel?
      requires me.CallbackOf? ==> me.k in cbs && !cbs[me.k].pc.Queued?
      modifies this, state, result
      ensures Valid() && Mine(me, old(Abs()), Abs())
      ensures me.Owner? ==> Times(trace, OwnerStep) == Times(old(trace), OwnerStep)
      ensures me.CallbackOf? ==> Times(trace, CbStep(me.k)) == Times(old(trace), CbStep(me.k))
      ensures old(trace) <= trace && forall i :: |old(trace)| <= i < |trace| ==> Actor(trace[i]) != me
    {
      for i := 0 to |acts|
        invariant Valid() && Mine(me, old(Abs()), Abs())
        invariant old(trace) <= trace && forall i :: |old(trace)| <= i < |trace| ==> Actor(trace[i]) != me
      {
        var a := acts[i];
        if Foreign(Abs(), a, me) {
          OthersLeaveMine(me, Abs(), a);
          Other(a);
        }
      }
      NotTaken(old(trace), trace, if me.CallbackOf? then CbStep(me.k) else OwnerStep);
    }

    /** All threads of this half run, its owner too. */
    method Play(acts: seq<Action>)
      requires Valid()
      modifies this, state, result
      ensures Valid() && Abs() == Played(old(Abs()), acts) && old(trace) <= trace
    {
      for i := 0 to |acts|
        invariant Valid() && Played(Abs(), acts[i..]) == Played(old(Abs()), acts) && old(trace) <= trace
      {
        assert acts[i..][1..] == acts[i + 1..];
        if Enabled(Abs(), acts[i]) {
          Other(acts[i]);
        }
      }
      assert acts[|acts|..] == [];
    }

    method BeginPoll()
      requires Valid() && pc.Out?
      modifies this, state, result
      ensures Did(PollStart)
    {
      Note(PollStart);
      pc := Finish;
      seen := seen.(notified := false, lastPending := false, told := false);
    }

    method TryFinish() returns (ok: bool)
      requires Valid() && pc.Finish?
      modifies this, state, result
      ensures Did(OwnerStep)
      ensures ok == old(state.word).Ready?
    {
      Note(OwnerStep);
      ok := state.Finish();
      pc := if ok then Get else Schedule;
    }

    method GetResult() returns (got: Cell)
      requires Valid() && pc.Get?
      modifies this, state, result
      ensures Did(OwnerStep)
      ensures got == old(result.cell)
    {
      Note(OwnerStep);
      got := result.Get();
      pc := SetIdle(got);
    }

    method StoreIdle()
      requires Valid() && pc.SetIdle?
      modifies this, state, result
      ensures Did(OwnerStep)
    {
      Note(OwnerStep);
      past := past.(log := past.log + [Finished(past.gen, pc.got)]);
      state.SetIdle();
      pc := Out;
    }

    method TrySchedule() returns (ok: bool)
      requires Valid() && pc.Schedule?
      modifies this, state, result
      ensures Did(OwnerStep)
      ensures ok == old(state.word).Idle?
    {
      Note(OwnerStep);
      ok := state.Schedule();
      if ok {
        seen := seen.(slotAtSchedule := waker, told := seen.notified, registered := false, alone := |cbs| == 0);
        past := past.(gen := past.gen + 1);
        pc := Issue;
      } else {
        pc := Register;
      }
    }

    /** The Win32 call: the operation is under way and the kernel owes a callback. */
    method IssuePending()
      requires Valid() && pc.Issue?
      modifies this, state, result
      ensures Did(IssueAsync)
    {
      Note(IssueAsync);
      past := past.(asyncOps := past.asyncOps + {past.gen});
      cbs := cbs[past.gen := Cb(Queued, Ok(0))];
      pc := SetPending;
    }

    /** The Win32 call: the operation finished inline. */
    method IssueFinished(res: IoRes, posts: bool)
      requires Valid() && pc.Issue?
      modifies this, state, result
      ensures Did(IssueInline(res, posts))
    {
      Note(IssueInline(res, posts));
      cbs := if posts then cbs[past.gen := Cb(Queued, Ok(0))] else cbs;
      pc := InlineRegister(res);
    }

    method RegisterInline()
      requires Valid() && pc.InlineRegister?
      modifies this, state, result
      ensures Did(OwnerStep)
    {
      Note(OwnerStep);
      waker := true;
      pc := InlineIdle(pc.res);
    }

    method StoreIdleInline()
      requires Valid() && pc.InlineIdle?
      modifies this, state, result
      ensures Did(OwnerStep)
    {
      Note(OwnerStep);
      past := past.(log := past.log + [Inline(past.gen, pc.res)]);
      state.SetIdle();
      pc := Out;
    }

    method StorePending()
      requires Valid() && pc.SetPending?
      modifies this, state, result
      ensures Did(OwnerStep)
    {
      Note(OwnerStep);
      state.SetPending();
      seen := seen.(lastPending := true);
      pc := Out;
    }

    method RegisterWaker()
      requires Valid() && pc.Register?
      modifies this, state, result
      ensures Did(OwnerStep)
    {
      Note(OwnerStep);
      waker := true;
      seen := seen.(lastPending := true, registered := seen.registered || past.gen in cbs);
      pc := Out;
    }

    /** The branch of `poll` that found Ready. */
    method TakeResult(env: seq<seq<Action>>) returns (got: Cell)
      requires Valid() && pc.Get?
      modifies this, state, result
      ensures Valid() && pc.Out? && past.log == old(past.log) + [Finished(past.gen, got)]
      ensures past.gen == old(past.gen)
      ensures old(trace) <= trace
    {
      got := GetResult();
      Interfere(Part(env, 2), Owner);
      StoreIdle();
    }

    /** What the invariant says of the result a poll has just returned. */
    lemma LastDelivery()
      requires Valid() && withinE && past.log != [] && past.log[|past.log| - 1].Finished?
      ensures Delivered(Abs(), past.log[|past.log| - 1])
    {
      DeliveriesAreRight(trace);
    }

    /** The operation is pending. */
    method LeavePending(env: seq<seq<Action>>)
      requires Valid() && pc.Issue?
      modifies this, state, result
      ensures Valid() && pc.Out? && past.gen == old(past.gen) && old(trace) <= trace
      ensures past.log == old(past.log) && seen.lastPending && past.gen in past.asyncOps
    {
      IssuePending();
      Interfere(Part(env, 3), Owner);
      StorePending();
    }

    /** The operation finished inline. */
    method FinishInline(res: IoRes, posts: bool, env: seq<seq<Action>>)
      requires Valid() && pc.Issue?
      modifies this, state, result
      ensures Valid() && pc.Out? && past.gen == old(past.gen) && old(trace) <= trace
      ensures past.log == old(past.log) + [Inline(past.gen, res)]
    {
      IssueFinished(res, posts);
      Interfere(Part(env, 3), Owner);
      RegisterAndStore(Part(env, 4));
    }

    method RegisterAndStore(acts: seq<Action>)
      requires Valid() && pc.InlineRegister?
      modifies this, state, result
      ensures Valid() && pc.Out? && past.gen == old(past.gen) && old(trace) <= trace
      ensures past.log == old(past.log) + [Inline(past.gen, old(pc.res))]
    {
      RegisterInline();
      Interfere(acts, Owner);
      StoreIdleInline();
    }

    /** The branch of `poll` that has just scheduled: the Win32 call and what follows. */
    method StartOperation(issued: Issued, env: seq<seq<Action>>) returns (r: PollResult)
      requires Valid() && pc.Issue?
      modifies this, state, result
      ensures Valid() && pc.Out? && past.gen == old(past.gen) && old(trace) <= trace
      ensures match issued
              case GoesAsync =>
                r == PollResult.Pending && past.log == old(past.log) && seen.lastPending && past.gen in past.asyncOps
              case FinishesInline(res, _) =>
                r == ReadyInline(res) && past.log == old(past.log) + [Inline(past.gen, res)]
    {
      match issued {
        case GoesAsync =>
          LeavePending(env);
          r := PollResult.Pending;
        case FinishesInline(res, posts) =>
          FinishInline(res, posts, env);
          r := ReadyInline(res);
      }
    }

    /** The first test of `poll`. */
    method LooksForResult(env: seq<seq<Action>>) returns (finished: bool)
      requires Valid() && pc.Out?
      modifies this, state, result
      ensures Valid() && (if finished then pc.Get? else pc.Schedule?)
      ensures old(trace) + [PollStart] <= trace
      ensures past.log == old(past.log) && past.gen == old(past.gen)
    {
      BeginPoll();
      Interfere(Part(env, 0), Owner);
      finished := TryFinish();
      Interfere(Part(env, 1), Owner);
    }

    /** `IoHandle::poll`. `issued` is what the Win32 call answers if it is made. */
    method Poll(issued: Issued, env: seq<seq<Action>>) returns (r: PollResult)
      requires Valid() && pc.Out?
      modifies this, state, result
      ensures Valid() && pc.Out? && old(trace) + [PollStart] <= trace
      ensures r.Pending? ==> past.log == old(past.log) && seen.lastPending
      ensures r.ReadyWith? ==> past.log == old(past.log) + [Finished(past.gen, r.got)]
      ensures r.ReadyInline? ==>
                past.log == old(past.log) + [Inline(past.gen, r.res)] && issued.FinishesInline? && issued.res == r.res
      ensures withinE && r.ReadyWith? ==> Delivered(Abs(), Finished(past.gen, r.got))
      ensures past.gen == old(past.gen) || (past.gen == old(past.gen) + 1 && !r.ReadyWith?)
      ensures r.ReadyInline? ==> past.gen == old(past.gen) + 1
      ensures past.gen == old(past.gen) + 1 ==>
                match issued
                case GoesAsync => r.Pending? && past.gen in past.asyncOps
                case FinishesInline(res, _) => r == ReadyInline(res)
    {
      var finished := LooksForResult(env);
      if finished {
        var got := TakeResult(env);
        r := ReadyWith(got);
        if withinE {
          LastDelivery();
        }
      } else {
        r := StartOrRegister(issued, env);
      }
    }

    /** The branches of `poll` that found no result. */
    method StartOrRegister(issued: Issued, env: seq<seq<Action>>) returns (r: PollResult)
      requires Valid() && pc.Schedule?
      modifies this, state, result
      ensures Valid() && pc.Out? && old(trace) <= trace && !r.ReadyWith?
      ensures past.gen == old(past.gen) || past.gen == old(past.gen) + 1
      ensures past.gen == old(past.gen) ==> r.Pending? && past.log == old(past.log) && seen.lastPending
      ensures past.gen == old(past.gen) + 1 ==>
                match issued
                case GoesAsync =>
                  r.Pending? && past.log == old(past.log) && seen.lastPending && past.gen in past.asyncOps
                case FinishesInline(res, _) =>
                  r == ReadyInline(res) && past.log == old(past.log) + [Inline(past.gen, res)]
    {
      var scheduled := TrySchedule();
      Interfere(Part(env, 2), Owner);
      if scheduled {
        r := StartOperation(issued, env);
      } else {
        RegisterWaker();
        r := PollResult.Pending;
      }
    }

    method BeginCancel(wait: bool)
      requires Valid() && pc.Out?
      modifies this, state, result
      ensures Did(CancelStart(wait))
    {
      Note(CancelStart(wait));
      pc := CancelCheck(wait);
    }

    method LoadCancellable() returns (b: bool)
      requires Valid() && pc.CancelCheck?
      modifies this, state, result
      ensures Did(OwnerStep)
      ensures b == old(state.word).Pending?
    {
      Note(OwnerStep);
      b := state.IsCancellable();
      pc := if b then CancelSwap(pc.wait) else Out;
    }

    method SwapCancelled() returns (call: bool)
      requires Valid() && pc.CancelSwap?
      modifies this, state, result
      ensures Did(OwnerStep)
      ensures call == (old(state.word) != CancelledNowait)
    {
      Note(OwnerStep);
      past := past.(swaps := past.swaps[past.gen := Swap(pc.wait, state.word)]);
      call := state.Cancel(pc.wait);
      pc := if call then CancelCall(pc.wait) else AfterCancel(pc.wait);
    }

    /** CancelIoEx: it asks the kernel to complete the operation, which it owes anyway. */
    method CallCancel()
      requires Valid() && pc.CancelCall?
      modifies this, state, result
      ensures Did(OwnerStep)
    {
      Note(OwnerStep);
      pc := AfterCancel(pc.wait);
    }

    method LoadBusy() returns (b: bool)
      requires Valid() && pc.CancelSpin?
      modifies this, state, result
      ensures Did(OwnerStep)
      ensures b == Busy(old(state.word))
    {
      Note(OwnerStep);
      b := state.IsBusy();
      if !b {
        pc := Out;
      }
    }

    /** The operation's own cancel function. */
    method CallThen(env: seq<seq<Action>>)
      requires Valid() && pc.CancelCall?
      modifies this, state, result
      ensures Valid() && pc == AfterCancel(old(pc.wait)) && old(trace) <= trace
      ensures past.log == old(past.log) && past.gen == old(past.gen) && past.swaps == old(past.swaps)
      ensures Times(trace, OwnerStep) > Times(old(trace), OwnerStep)
    {
      CallCancel();
      Interfere(Part(env, 3), Owner);
    }

    /** The swap, and then the call. */
    method SwapAndCall(env: seq<seq<Action>>)
      requires Valid() && pc.CancelSwap?
      modifies this, state, result
      ensures Valid() && pc == AfterCancel(old(pc.wait)) && old(trace) <= trace
      ensures past.log == old(past.log) && past.gen == old(past.gen)
      ensures past.gen in past.swaps && past.swaps[past.gen].wait == old(pc.wait)
      ensures Times(trace, OwnerStep) > Times(old(trace), OwnerStep)
    {
      var call := SwapCancelled();
      Interfere(Part(env, 2), Owner);
      if call {
        CallThen(env);
      }
    }

    /** What a waiting cancel has achieved when it returns. */
    ghost predicate Quiet()
      reads this, state
    {
      && state.word == Ready && past.gen in past.swaps && past.swaps[past.gen].landed != Ready
      && forall k :: k in cbs ==> cbs[k].pc.Wake?
    }

    /** One round of `while is_busy()`. */
    method WaitRound(acts: seq<Action>) returns (busy: bool)
      requires Valid() && pc.CancelSpin?
      modifies this, state, result
      ensures Valid() && past.log == old(past.log) && past.gen == old(past.gen) && past.swaps == old(past.swaps)
      ensures old(trace) <= trace && if busy then pc.CancelSpin? else pc.Out?
      ensures withinE && !busy && past.gen in past.swaps ==> Quiet()
      ensures Times(trace, OwnerStep) == Times(old(trace), OwnerStep) + 1
    {
      Interfere(acts, Owner);
      ghost var before := trace;
      busy := LoadBusy();
      if withinE && !busy {
        WaitLeavesQuietly(before);
      }
    }

    /** `is_cancellable`, and what it means for the operation if it says no. */
    method LoadAndJudge() returns (b: bool)
      requires Valid() && pc.CancelCheck?
      modifies this, state, result
      ensures Valid() && b == old(state.word).Pending? && trace == old(trace) + [OwnerStep]
      ensures past == old(past) && pc == if b then CancelSwap(old(pc.wait)) else Out
      ensures withinE && !b ==> (StillUnderWay(Abs()) <==> PassedBy(Abs()))
    {
      ghost var before := trace;
      b := LoadCancellable();
      if withinE && !b {
        ReturnsAtOnceExactlyWhen(before);
      }
    }

    /** Cancel has been called; others run before its first load. */
    method CancelBegun(wait: bool, acts: seq<Action>)
      requires Valid() && pc.Out?
      modifies this, state, result
      ensures Valid() && pc == CancelCheck(wait) && old(trace) + [CancelStart(wait)] <= trace
      ensures past.log == old(past.log) && past.gen == old(past.gen) && past.swaps == old(past.swaps)
      ensures Times(trace, OwnerStep) == Times(old(trace), OwnerStep)
    {
      BeginCancel(wait);
      Interfere(acts, Owner);
    }

    /** The test before the swap. */
    method LooksCancellable(wait: bool, env: seq<seq<Action>>) returns (b: bool)
      requires Valid() && pc.Out?
      modifies this, state, result
      ensures Valid() && pc == (if b then CancelSwap(wait) else Out)
      ensures past.log == old(past.log) && past.gen == old(past.gen) && past.swaps == old(past.swaps)
      ensures old(trace) + [CancelStart(wait)] <= trace
      ensures Times(trace, OwnerStep) == Times(old(trace), OwnerStep) + 1
      ensures withinE && !b ==> (StillUnderWay(Abs()) <==> PassedBy(Abs()))
    {
      CancelBegun(wait, Part(env, 0));
      b := LoadAndJudge();
    }

    /** `while is_busy()`: each round takes one part of `env`; still busy when they run out. */
    method WaitWhileBusy(env: seq<seq<Action>>) returns (busy: bool)
      requires Valid() && pc.CancelSpin? && past.gen in past.swaps
      modifies this, state, result
      ensures Valid() && past.log == old(past.log) && past.gen == old(past.gen) && past.swaps == old(past.swaps)
      ensures old(trace) <= trace && if busy then pc.CancelSpin? else pc.Out?
      ensures withinE && !busy ==> Quiet()
      ensures busy ==> Times(trace, OwnerStep) == Times(old(trace), OwnerStep) + |env|
    {
      busy := true;
      var i := 0;
      while busy && i < |env|
        invariant Valid() && past.log == old(past.log) && past.gen == old(past.gen) && past.swaps == old(past.swaps)
        invariant old(trace) <= trace && if busy then pc.CancelSpin? else pc.Out?
        invariant withinE && !busy ==> Quiet()
        invariant i <= |env| && Times(trace, OwnerStep) == Times(old(trace), OwnerStep) + i
      {
        busy := WaitRound(env[i]);
        i := i + 1;
      }
    }

    /** `IoHandle::cancel`. `rounds` are for the wait loop; `done` is false when they run
        out before the loop ends. */
    method Cancel(wait: bool, env: seq<seq<Action>>, rounds: seq<seq<Action>>) returns (swapped: bool, done: bool)
      requires Valid() && pc.Out?
      modifies this, state, result
      ensures Valid() && (done <==> pc.Out?) && (!done ==> wait && pc.CancelSpin?)
      ensures old(trace) + [CancelStart(wait)] <= trace
      ensures past.log == old(past.log) && past.gen == old(past.gen)
      ensures !swapped ==> done && past.swaps == old(past.swaps)
      ensures swapped ==> past.gen in past.swaps && past.swaps[past.gen].wait == wait
      ensures withinE && wait && swapped && done ==> Quiet()
      ensures withinE && !swapped ==> (StillUnderWay(Abs()) <==> PassedBy(Abs()))
      ensures !done ==> Times(trace, OwnerStep) >= Times(old(trace), OwnerStep) + 2 + |rounds|
    {
      swapped := LooksCancellable(wait, env);
      done := true;
      if swapped {
        Interfere(Part(env, 1), Owner);
        SwapAndCall(env);
        if wait {
          var busy := WaitWhileBusy(rounds);
          done := !busy;
        }
      }
    }

    method LoadScheduling(k: Key) returns (b: bool)
      requires Valid() && k in cbs && cbs[k].pc.Spin?
      modifies this, state, result
      ensures Did(CbStep(k))
      ensures b == old(state.word).Scheduling?
    {
      Note(CbStep(k));
      b := state.IsScheduling();
      if !b {
        cbs := cbs[k := cbs[k].(pc := HalfModel.CasPending)];
      }
    }

    method ClaimPending(k: Key) returns (ok: bool)
      requires Valid() && k in cbs && cbs[k].pc.CasPending?
      modifies this, state, result
      ensures Did(CbStep(k))
      ensures ok == old(state.word).Pending?
    {
      Note(CbStep(k));
      ok := state.CallbackPendingCas();
      if ok {
        var w := if k in past.wins then past.wins[k] else NO_CLAIM;
        past := past.(wins := past.wins[k := w.(pending := w.pending + 1)]);
        cbs := cbs[k := cbs[k].(pc := HalfModel.Set)];
      } else {
        cbs := cbs[k := cbs[k].(pc := HalfModel.CasNowait)];
      }
    }

    method ClaimNowait(k: Key) returns (ok: bool)
      requires Valid() && k in cbs && cbs[k].pc.CasNowait?
      modifies this, state, result
      ensures Did(CbStep(k))
      ensures ok == old(state.word).CancelledNowait?
    {
      Note(CbStep(k));
      ok := state.CallbackCancelledNowait();
      if ok {
        var w := if k in past.wins then past.wins[k] else NO_CLAIM;
        past := past.(wins := past.wins[k := w.(nowait := w.nowait + 1)]);
        cbs := cbs[k := cbs[k].(pc := HalfModel.Set)];
      } else {
        cbs := cbs[k := cbs[k].(pc := HalfModel.CasWait)];
      }
    }

    method ClaimWait(k: Key) returns (ok: bool)
      requires Valid() && k in cbs && cbs[k].pc.CasWait?
      modifies this, state, result
      ensures Did(CbStep(k))
      ensures ok == old(state.word).CancelledWait?
    {
      Note(CbStep(k));
      ok := state.CallbackCancelledWait();
      if ok {
        var w := if k in past.wins then past.wins[k] else NO_CLAIM;
        past := past.(wins := past.wins[k := w.(wait := w.wait + 1)]);
        cbs := cbs[k := cbs[k].(pc := PublishOnly)];
      } else {
        cbs := cbs - {k};
      }
    }

    method SetResult(k: Key)
      requires Valid() && k in cbs && cbs[k].pc.Set?
      modifies this, state, result
      ensures Did(CbStep(k))
    {
      Note(CbStep(k));
      result.Set(k, cbs[k].res);
      cbs := cbs[k := cbs[k].(pc := Publish)];
    }

    method StoreReady(k: Key)
      requires Valid() && k in cbs && cbs[k].pc.Publish?
      modifies this, state, result
      ensures Did(CbStep(k))
    {
      Note(CbStep(k));
      state.SetReady();
      cbs := cbs[k := cbs[k].(pc := Wake)];
    }

    method StoreReadyOnly(k: Key)
      requires Valid() && k in cbs && cbs[k].pc.PublishOnly?
      modifies this, state, result
      ensures Did(CbStep(k))
    {
      Note(CbStep(k));
      state.SetReady();
      cbs := cbs - {k};
    }

    method WakeWaker(k: Key)
      requires Valid() && k in cbs && cbs[k].pc.Wake?
      modifies this, state, result
      ensures Did(CbStep(k))
    {
      Note(CbStep(k));
      seen := seen.(notified := seen.notified || waker);
      waker := false;
      cbs := cbs - {k};
    }

    /** The claimed branch of `callback`: set, publish, wake. */
    method SetAndWake(k: Key, env: seq<seq<Action>>, i: nat)
      requires Valid() && k in cbs && cbs[k].pc.Set?
      modifies this, state, result
      ensures Valid() && k !in cbs && old(trace) <= trace
    {
      SetResult(k);
      Interfere(Part(env, i + 3), CallbackOf(k));
      PublishAndWake(k, Part(env, i + 4));
    }

    method PublishAndWake(k: Key, acts: seq<Action>)
      requires Valid() && k in cbs && cbs[k].pc.Publish?
      modifies this, state, result
      ensures Valid() && k !in cbs && old(trace) <= trace
    {
      StoreReady(k);
      Interfere(acts, CallbackOf(k));
      WakeWaker(k);
    }

    /** `callback_pending() || callback_cancelled_nowait()`, after the spin. */
    method ClaimToSet(k: Key, env: seq<seq<Action>>, i: nat) returns (ok: bool)
      requires Valid() && k in cbs && cbs[k].pc.CasPending?
      modifies this, state, result
      ensures Valid() && k in cbs && (if ok then cbs[k].pc.Set? else cbs[k].pc.CasWait?)
      ensures old(trace) <= trace
    {
      ok := ClaimPending(k);
      Interfere(Part(env, i + 1), CallbackOf(k));
      if !ok {
        ok := ClaimNowait(k);
        Interfere(Part(env, i + 2), CallbackOf(k));
      }
    }

    /** `callback_pending`'s loop: each round takes one part of `env`; the spin has not
        ended when the parts run out first. */
    method SpinWhileScheduling(k: Key, env: seq<seq<Action>>) returns (spinning: bool, i: nat)
      requires Valid() && k in cbs && cbs[k].pc.Spin?
      modifies this, state, result
      ensures Valid() && k in cbs && if spinning then cbs[k].pc.Spin? else cbs[k].pc.CasPending?
      ensures old(trace) <= trace
      ensures spinning ==> Times(trace, CbStep(k)) == Times(old(trace), CbStep(k)) + |env|
    {
      i, spinning := 0, true;
      while spinning && i < |env|
        invariant Valid() && k in cbs && old(trace) <= trace
        invariant if spinning then cbs[k].pc.Spin? else cbs[k].pc.CasPending?
        invariant i <= |env| && Times(trace, CbStep(k)) == Times(old(trace), CbStep(k)) + i
      {
        Interfere(env[i], CallbackOf(k));
        spinning := LoadScheduling(k);
        i := i + 1;
      }
    }

    /** The last claim of `callback`: Ready without a result. */
    method PublishOnlyIfWaited(k: Key, env: seq<seq<Action>>, i: nat)
      requires Valid() && k in cbs && cbs[k].pc.CasWait?
      modifies this, state, result
      ensures Valid() && k !in cbs && old(trace) <= trace
    {
      var ok := ClaimWait(k);
      if ok {
        Interfere(Part(env, i + 3), CallbackOf(k));
        StoreReadyOnly(k);
      }
    }

    /** `callback`, from when the kernel runs it; `done` is false if it was still spinning
        when `env` ran out. */
    method Callback(k: Key, env: seq<seq<Action>>) returns (done: bool)
      requires Valid() && k in cbs && cbs[k].pc.Spin?
      modifies this, state, result
      ensures Valid() && (done <==> k !in cbs) && (!done ==> cbs[k].pc.Spin?) && old(trace) <= trace
      ensures !done ==> Times(trace, CbStep(k)) == Times(old(trace), CbStep(k)) + |env|
      ensures withinE && done && k in past.asyncOps ==> Total(Wins(Abs(), k)) == 1
    {
      var spinning, i := SpinWhileScheduling(k, env);
      done := !spinning;
      if done {
        Interfere(Part(env, i), CallbackOf(k));
        var ok := ClaimToSet(k, env, i);
        if ok {
          SetAndWake(k, env, i);
        } else {
          PublishOnlyIfWaited(k, env, i);
        }
        if withinE && k in past.asyncOps {
          OneClaimEach(trace, k);
        }
      }
    }
  }
}
