/** The futex waker loses no wake-up. */
module WakerTheorems {
  import opened WakerModel

  predicate Won(s: Futex, k: int) {
    k in s.wakers && s.wakers[k].Winner?
  }

  predicate Sleeping(s: Futex, w: int) {
    w in s.waiters && s.waiters[w].Asleep?
  }

  ghost predicate Inv(s: Futex) {
    && s.word <= 1
    && (forall j, k :: Won(s, j) && Won(s, k) ==> j == k)
    && (s.word == 0 ==> s.issued == 0 && forall k :: !Won(s, k))
    && (s.word == 1 ==>
          || (s.issued == 0 && exists k :: Won(s, k))
          || (s.issued == 1 && (forall k :: !Won(s, k)) && forall w :: !Sleeping(s, w)))
  }

  lemma StepKeeps(s: Futex, a: Action)
    requires Inv(s) && Enabled(s, a)
    ensures Inv(Next(s, a))
  {
    var t := Next(s, a);
    if s.word == 1 {
      assert forall w :: Sleeping(t, w) ==> Sleeping(s, w);
    }
    if s.word == 1 && s.issued == 0 {
      var winner :| Won(s, winner);
      assert a == WakerStep(winner) || Won(t, winner);
    }
    match a
    case WakerStep(k) =>
      assert forall j :: j != k ==> (Won(t, j) <==> Won(s, j));
      assert s.wakers[k].Winner? ==> Won(s, k);
      if s.wakers[k].Cas? && s.word == 0 {
        assert Won(t, k);
      } else if s.wakers[k].Cas? {
        assert forall j :: Won(t, j) <==> Won(s, j);
      }
    case BeginWake(_) => assert forall j :: Won(t, j) <==> Won(s, j);
    case BeginWait(_) => assert forall j :: Won(t, j) <==> Won(s, j);
    case WaiterStep(_) => assert forall j :: Won(t, j) <==> Won(s, j);
    case Spurious(_) => assert forall j :: Won(t, j) <==> Won(s, j);
  }

  lemma {:induction false} InvariantHolds(run: seq<Action>)
    requires IsRun(INIT, run)
    ensures Inv(Exec(INIT, run))
  {
    if run != [] {
      var before := run[..|run| - 1];
      InvariantHolds(before);
      StepKeeps(Exec(INIT, before), run[|run| - 1]);
    }
  }

  /** Whoever sleeps on a word that is 1 sleeps only until the one winner of the CAS, which
      has not called WakeByAddressAll yet, does so. */
  lemma SleepsOnlyUntilWinner(run: seq<Action>, w: int)
    requires IsRun(INIT, run) && Sleeping(Exec(INIT, run), w) && Exec(INIT, run).word == 1
    ensures
      var s := Exec(INIT, run);
      && s.issued == 0
      && exists k :: Won(s, k) && Enabled(s, WakerStep(k)) && forall v :: !Sleeping(Next(s, WakerStep(k)), v)
  {
    InvariantHolds(run);
    var s := Exec(INIT, run);
    var k :| Won(s, k);
    assert Enabled(s, WakerStep(k)) && forall v :: !Sleeping(Next(s, WakerStep(k)), v);
  }

  /** From a run's end on, the word only goes from 0 to 1, and WakeByAddressAll has been
      called at most once; once the word is 1 nobody falls asleep any more. */
  lemma {:induction false} OneWakeForGood(run: seq<Action>, more: seq<Action>)
    requires IsRun(INIT, run) && IsRun(Exec(INIT, run), more)
    ensures
      var s, t := Exec(INIT, run), Exec(Exec(INIT, run), more);
      && Inv(t) && s.word <= t.word <= 1 && s.issued <= t.issued <= 1
      && (s.word == 1 ==> t.sleeps == s.sleeps)
  {
    if more == [] {
      InvariantHolds(run);
    } else {
      OneWakeForGood(run, more[..|more| - 1]);
      StepKeeps(Exec(Exec(INIT, run), more[..|more| - 1]), more[|more| - 1]);
    }
  }

  function StepsOf(run: seq<Action>, w: int): nat {
    if run == [] then 0
    else StepsOf(run[..|run| - 1], w) + if run[|run| - 1] == WaiterStep(w) then 1 else 0
  }

  predicate NoNewWait(run: seq<Action>, w: int) {
    forall i :: 0 <= i < |run| ==> run[i] != BeginWait(w)
  }

  /** Own steps a waiter still takes before it returns, once it can no longer sleep. */
  function Left(s: Futex, w: int): nat {
    if w !in s.waiters then 0 else if s.waiters[w].Test? then 1 else 2
  }

  /** Once the wake has been issued, every waiter returns after at most two steps of its
      own, whatever the others do. */
  lemma {:induction false} WaiterReturns(s: Futex, run: seq<Action>, w: int)
    requires Inv(s) && s.issued == 1 && IsRun(s, run) && NoNewWait(run, w)
    ensures
      var t := Exec(s, run);
      Inv(t) && t.word == 1 && t.issued == 1 && (w in t.waiters ==> Left(t, w) + StepsOf(run, w) <= Left(s, w))
  {
    if run != [] {
      var before, a := run[..|run| - 1], run[|run| - 1];
      WaiterReturns(s, before, w);
      var u := Exec(s, before);
      StepKeeps(u, a);
      assert forall v :: !Sleeping(u, v);
      assert a.WakerStep? ==> !Won(u, a.k);
      assert a == WaiterStep(w) ==> w in u.waiters;
    } else {
      assert s.word == 1;
    }
  }

  /** So a waiter that has taken two steps since the wake is not waiting any more. */
  lemma TwoStepsSuffice(s: Futex, run: seq<Action>, w: int)
    requires Inv(s) && s.issued == 1 && IsRun(s, run) && NoNewWait(run, w) && StepsOf(run, w) >= 2
    ensures w !in Exec(s, run).waiters
  {
    WaiterReturns(s, run, w);
  }
}
