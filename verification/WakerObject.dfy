/** `InlineWaker` and the `block_on` loop in the shape of `src/task/waker.rs` and
    `src/task/block_on.rs`. Other threads run where `Interfere` is called; `trace` records
    a run of the transition system that leads to this state. */
module WakerObject {
  import opened WakerModel
  import opened WakerTheorems

  datatype Thread = Waker(k: int) | Waiter(w: int)

  /** A spurious return of WaitOnAddress is the system's doing, not the waiter's. */
  predicate ByThread(a: Action, me: Thread) {
    match a
    case BeginWake(k) => me == Waker(k)
    case WakerStep(k) => me == Waker(k)
    case BeginWait(w) => me == Waiter(w)
    case WaiterStep(w) => me == Waiter(w)
    case Spurious(_) => false
  }

  /** What others cannot change behind a thread's back; a sleeper can be woken. */
  predicate Mine(me: Thread, s: Futex, t: Futex) {
    && s.word <= t.word
    && match me
       case Waker(k) => k in s.wakers ==> k in t.wakers && t.wakers[k] == s.wakers[k]
       case Waiter(w) =>
         if w in s.waiters then w in t.waiters && (t.waiters[w] == s.waiters[w] || t.waiters[w].Test?)
         else w !in t.waiters
  }

  lemma OthersLeaveMine(me: Thread, s: Futex, a: Action)
    requires Inv(s) && Enabled(s, a) && !ByThread(a, me)
    ensures Mine(me, s, Next(s, a))
  {
  }

  /** How often thread `w` has begun to wait. */
  function Waits(run: seq<Action>, w: int): nat {
    if run == [] then 0
    else Waits(run[..|run| - 1], w) + if run[|run| - 1] == BeginWait(w) then 1 else 0
  }

  lemma OneMoreStep(run: seq<Action>, a: Action, w: int)
    ensures Waits(run + [a], w) == Waits(run, w) + if a == BeginWait(w) then 1 else 0
  {
    assert (run + [a])[..|run|] == run;
  }

  /** What others do before a load, before a compare, and while the thread sleeps. */
  type TurnEnv = (seq<Action>, seq<Action>, seq<Action>)

  predicate InTurns(a: Action, turns: seq<TurnEnv>) {
    exists t :: t in turns && (a in t.0 || a in t.1 || a in t.2)
  }

  /** The steps added to a run are thread `w`'s own or come from these turns. */
  predicate Adds(run: seq<Action>, more: seq<Action>, w: int, turns: seq<TurnEnv>) {
    run <= more && forall i :: |run| <= i < |more| ==> ByThread(more[i], Waiter(w)) || InTurns(more[i], turns)
  }

  lemma {:induction false} PrefixIsRun(run: seq<Action>, n: nat)
    requires IsRun(INIT, run) && n <= |run|
    ensures IsRun(INIT, run[..n])
  {
    if n == |run| {
      assert run[..n] == run;
    } else {
      PrefixIsRun(run[..|run| - 1], n);
      assert run[..|run| - 1][..n] == run[..n];
    }
  }

  /** Where the first `n` steps of a run lead. */
  ghost function After(run: seq<Action>, n: nat): Futex
    requires IsRun(INIT, run) && n <= |run|
  {
    PrefixIsRun(run, n);
    Exec(INIT, run[..n])
  }

  /** Thread `w` is waiting and has no reason yet to return: the word is 0 or it is asleep. */
  predicate Stuck(s: Futex, w: int) {
    w in s.waiters && (s.word == 0 || s.waiters[w].Asleep?)
  }

  /** At the first `n` of these points of the run the thread was stuck. */
  ghost predicate StuckAt(run: seq<Action>, starts: seq<nat>, n: nat, w: int) {
    && IsRun(INIT, run) && n <= |starts|
    && (forall i :: 0 <= i < |starts| ==> starts[i] <= |run|)
    && (forall i :: 0 <= i < n ==> Stuck(After(run, starts[i]), w))
  }

  lemma StuckKept(run: seq<Action>, more: seq<Action>, starts: seq<nat>, n: nat, w: int)
    requires StuckAt(run, starts, n, w) && IsRun(INIT, more) && run <= more
    ensures StuckAt(more, starts, n, w)
  {
    forall i | 0 <= i < |starts|
      ensures more[..starts[i]] == run[..starts[i]]
    {
    }
  }

  lemma StuckNow(run: seq<Action>, starts: seq<nat>, w: int)
    requires StuckAt(run, starts, |starts|, w)
    ensures StuckAt(run, starts + [|run|], |starts|, w)
    ensures Stuck(Exec(INIT, run), w) ==> StuckAt(run, starts + [|run|], |starts| + 1, w)
  {
    assert run[..|run|] == run;
  }

  lemma StuckSince(run: seq<Action>, more: seq<Action>, starts: seq<nat>, w: int, stuck: bool)
    requires StuckAt(run, starts, |starts|, w) && IsRun(INIT, more) && run <= more
    requires stuck ==> Stuck(Exec(INIT, run), w)
    ensures StuckAt(more, starts + [|run|], if stuck then |starts| + 1 else |starts|, w)
  {
    StuckNow(run, starts, w);
    StuckKept(run, more, starts + [|run|], if stuck then |starts| + 1 else |starts|, w);
  }

  lemma AddsMore(run: seq<Action>, more: seq<Action>, most: seq<Action>, w: int, turns: seq<TurnEnv>, t: TurnEnv)
    requires Adds(run, more, w, turns) && Adds(more, most, w, [t]) && t in turns
    ensures Adds(run, most, w, turns)
  {
    forall i | |run| <= i < |most|
      ensures ByThread(most[i], Waiter(w)) || InTurns(most[i], turns)
    {
      assert i < |more| ==> most[i] == more[i];
    }
  }

  /** A stuck thread has not been woken: nobody has called WakeByAddressAll. */
  lemma StuckIsUnwoken(run: seq<Action>, n: nat, w: int)
    requires IsRun(INIT, run) && n <= |run| && Stuck(After(run, n), w)
    ensures After(run, n).issued == 0
  {
    PrefixIsRun(run, n);
    InvariantHolds(run[..n]);
    assert After(run, n).word == 1 ==> Sleeping(After(run, n), w);
  }

  datatype Polled<T> = Pending | Ready(output: T)

  class InlineWaker {
    var word: nat
    var wakers: map<int, WakerPc>
    var waiters: map<int, WaiterPc>
    var issued: nat
    var sleeps: nat
    ghost var trace: seq<Action>

    function Abs(): Futex
      reads this
    {
      Futex(word, wakers, waiters, issued, sleeps)
    }

    ghost predicate Valid()
      reads this
    {
      IsRun(INIT, trace) && Exec(INIT, trace) == Abs() && Inv(Abs())
    }

    constructor ()
      ensures Valid() && Abs() == INIT && trace == []
    {
      word, wakers, waiters, issued, sleeps := 0, map[], map[], 0, 0;
      trace := [];
    }

    ghost method Note(a: Action)
      requires Valid() && Enabled(Abs(), a)
      modifies this`trace
      ensures trace == old(trace) + [a] && IsRun(INIT, trace) && Exec(INIT, trace) == Next(Abs(), a)
      ensures Inv(Next(Abs(), a))
    {
      StepKeeps(Abs(), a);
      assert (trace + [a])[..|trace|] == trace;
      trace := trace + [a];
    }

    twostate predicate Did(a: Action)
      reads this
    {
      Valid() && Enabled(old(Abs()), a) && Abs() == Next(old(Abs()), a) && trace == old(trace) + [a]
    }

    /** Somebody else's step. */
    method Other(a: Action)
      requires Valid() && Enabled(Abs(), a)
      modifies this
      ensures Did(a)
    {
      var t := Next(Abs(), a);
      Note(a);
      word, wakers, waiters, issued, sleeps := t.word, t.wakers, t.waiters, t.issued, t.sleeps;
    }

    method Interfere(acts: seq<Action>, me: Thread)
      requires Valid()
      modifies this
      ensures Valid() && Mine(me, old(Abs()), Abs()) && old(trace) <= trace
      ensures forall i :: |old(trace)| <= i < |trace| ==> !ByThread(trace[i], me) && trace[i] in acts
      ensures old(word) == 1 ==> sleeps == old(sleeps)
      ensures me.Waiter? ==> Waits(trace, me.w) == Waits(old(trace), me.w)
    {
      for i := 0 to |acts|
        invariant Valid() && Mine(me, old(Abs()), Abs()) && old(trace) <= trace
        invariant forall i :: |old(trace)| <= i < |trace| ==> !ByThread(trace[i], me) && trace[i] in acts
        invariant old(word) == 1 ==> sleeps == old(sleeps)
        invariant me.Waiter? ==> Waits(trace, me.w) == Waits(old(trace), me.w)
      {
        if !ByThread(acts[i], me) && Enabled(Abs(), acts[i]) {
          OthersLeaveMine(me, Abs(), acts[i]);
          if me.Waiter? {
            OneMoreStep(trace, acts[i], me.w);
          }
          Other(acts[i]);
        }
      }
    }

    method CompareExchange(k: int) returns (ok: bool)
      requires Valid() && k in wakers && wakers[k].Cas?
      modifies this
      ensures Did(WakerStep(k)) && ok == (old(word) == 0)
    {
      Note(WakerStep(k));
      ok := word == 0;
      if ok {
        word := 1;
        wakers := wakers[k := Winner];
      } else {
        wakers := wakers - {k};
      }
    }

    method WakeByAddressAll(k: int)
      requires Valid() && k in wakers && wakers[k].Winner?
      modifies this
      ensures Did(WakerStep(k))
    {
      Note(WakerStep(k));
      wakers := wakers - {k};
      waiters := AllAwake(waiters);
      issued := issued + 1;
    }

    /** The exchange, and what others do before it. */
    method TryWin(k: int, acts: seq<Action>) returns (won: bool)
      requires Valid() && k in wakers && wakers[k].Cas?
      modifies this
      ensures Valid() && word == 1 && old(trace) <= trace
      ensures if won then k in wakers && wakers[k].Winner? else k !in wakers
      ensures old(word) == 1 ==> !won
    {
      Interfere(acts, Waker(k));
      won := CompareExchange(k);
    }

    /** The winner's call, and what others do before it. */
    method WinnerWakes(k: int, acts: seq<Action>)
      requires Valid() && k in wakers && wakers[k].Winner?
      modifies this
      ensures Valid() && k !in wakers && word == 1 && old(trace) <= trace
      ensures issued == 1 && forall w :: !Sleeping(Abs(), w)
    {
      Interfere(acts, Waker(k));
      assert Won(Abs(), k);
      WakeByAddressAll(k);
    }

    /** `wake`, called by thread `k`: afterwards the word is 1, and if this call won the
        exchange then the one WakeByAddressAll has been issued. */
    method WakeAll(k: int, env: seq<seq<Action>>) returns (won: bool)
      requires Valid() && k !in wakers
      modifies this
      ensures Valid() && k !in wakers && word == 1 && old(trace) + [BeginWake(k)] <= trace
      ensures won ==> issued == 1 && forall w :: !Sleeping(Abs(), w)
      ensures old(word) == 1 ==> !won
    {
      Note(BeginWake(k));
      wakers := wakers[k := Cas];
      won := TryWin(k, if |env| > 0 then env[0] else []);
      if won {
        WinnerWakes(k, if |env| > 1 then env[1] else []);
      }
    }

    /** The load of the loop's test: true leaves the loop. */
    method LoadIsOne(w: int) returns (one: bool)
      requires Valid() && w in waiters && waiters[w].Test?
      modifies this
      ensures Did(WaiterStep(w)) && one == (old(word) == 1) && Waits(trace, w) == Waits(old(trace), w)
    {
      OneMoreStep(trace, WaiterStep(w), w);
      Note(WaiterStep(w));
      one := word == 1;
      waiters := if one then waiters - {w} else waiters[w := Compare];
    }

    /** `WaitOnAddress(&state, &0)`, until it sleeps or finds the word changed. */
    method WaitOnAddress(w: int)
      requires Valid() && w in waiters && waiters[w].Compare?
      modifies this
      ensures Did(WaiterStep(w)) && Waits(trace, w) == Waits(old(trace), w)
    {
      OneMoreStep(trace, WaiterStep(w), w);
      Note(WaiterStep(w));
      if word == 0 {
        waiters := waiters[w := Asleep];
        sleeps := sleeps + 1;
      } else {
        waiters := waiters[w := Test];
      }
    }

    /** The loop's body: WaitOnAddress, with what the others do before and after. */
    method Sleep(w: int, env: TurnEnv)
      requires Valid() && w in waiters && waiters[w].Compare?
      modifies this
      ensures Valid() && old(word) <= word && w in waiters && (waiters[w].Test? || waiters[w].Asleep?)
      ensures Waits(trace, w) == Waits(old(trace), w) && Adds(old(trace), trace, w, [env])
    {
      assert env in [env];
      Interfere(env.1, Waiter(w));
      if waiters[w].Compare? {
        WaitOnAddress(w);
      }
      Interfere(env.2, Waiter(w));
    }

    /** One turn of `wait`'s loop from its test; `env` is what the others do before the
        load, before the compare, and while this thread sleeps. */
    method Turn(w: int, env: TurnEnv) returns (done: bool)
      requires Valid() && w in waiters && waiters[w].Test?
      modifies this
      ensures Valid() && old(word) <= word && old(trace) <= trace
      ensures if done then w !in waiters && word == 1 else w in waiters && (waiters[w].Test? || waiters[w].Asleep?)
      ensures old(word) == 1 ==> done && sleeps == old(sleeps)
      ensures Waits(trace, w) == Waits(old(trace), w) && Adds(old(trace), trace, w, [env])
    {
      assert env in [env];
      Interfere(env.0, Waiter(w));
      done := LoadIsOne(w);
      if !done {
        Sleep(w, env);
      }
    }

    method BeginWaiting(w: int)
      requires Valid() && w !in waiters
      modifies this
      ensures Did(BeginWait(w)) && Waits(trace, w) == Waits(old(trace), w) + 1
    {
      OneMoreStep(trace, BeginWait(w), w);
      Note(BeginWait(w));
      waiters := waiters[w := Test];
    }

    /** One round of the wait: a turn of the loop, or still asleep. */
    method NextTurn(w: int, env: TurnEnv) returns (done: bool)
      requires Valid() && w in waiters && (waiters[w].Test? || waiters[w].Asleep?)
      modifies this
      ensures Valid() && old(word) <= word && Adds(old(trace), trace, w, [env])
      ensures if done then w !in waiters && word == 1 else w in waiters && (waiters[w].Test? || waiters[w].Asleep?)
      ensures !done ==> Stuck(old(Abs()), w)
      ensures old(word) == 1 ==> sleeps == old(sleeps)
      ensures Waits(trace, w) == Waits(old(trace), w)
    {
      if waiters[w].Test? {
        done := Turn(w, env);
      } else {
        assert env in [env];
        Interfere(env.0, Waiter(w));
        done := false;
      }
    }

    /** `wait`, by thread `w`. `done` is false when `turns` run out with the thread still
        waiting; then at the start of every turn the word was 0 or the thread asleep. `starts`
        says where in the run the turns began. If the word is 1 at the call, it returns at its
        first test. */
    method Wait(w: int, turns: seq<TurnEnv>) returns (done: bool, ghost starts: seq<nat>)
      requires Valid() && w !in waiters
      modifies this
      ensures Valid() && old(word) <= word && old(trace) + [BeginWait(w)] <= trace
      ensures if done then w !in waiters && word == 1 else w in waiters
      ensures old(word) == 1 && turns != [] ==> done && sleeps == old(sleeps)
      ensures Waits(trace, w) == Waits(old(trace), w) + 1 && Adds(old(trace), trace, w, turns)
      ensures if done then 0 < |starts| <= |turns| else |starts| == |turns|
      ensures forall i :: 0 <= i < |starts| ==> |old(trace)| < starts[i]
      ensures StuckAt(trace, starts, if done then |starts| - 1 else |starts|, w)
    {
      BeginWaiting(w);
      done, starts := false, [];
      var i := 0;
      while !done && i < |turns|
        invariant Valid() && old(word) <= word && old(trace) + [BeginWait(w)] <= trace
        invariant if done then w !in waiters && word == 1 else w in waiters && (waiters[w].Test? || waiters[w].Asleep?)
        invariant i == 0 ==> !done && waiters[w].Test?
        invariant old(word) == 1 && i > 0 ==> done
        invariant old(word) == 1 ==> sleeps == old(sleeps)
        invariant Waits(trace, w) == Waits(old(trace), w) + 1 && Adds(old(trace), trace, w, turns)
        invariant |starts| == i <= |turns| && (done ==> i > 0)
        invariant forall j :: 0 <= j < |starts| ==> |old(trace)| < starts[j]
        invariant StuckAt(trace, starts, if done then i - 1 else i, w)
      {
        assert turns[i] in turns;
        ghost var before := trace;
        done := NextTurn(w, turns[i]);
        StuckSince(before, trace, starts, w, !done);
        AddsMore(old(trace), before, trace, w, turns, turns[i]);
        starts := starts + [|before|];
        i := i + 1;
      }
    }
  }

  // ---- block_on ---------------------------------------------------------------------------

  /** What others do while this thread polls, and turn by turn while it then waits. */
  datatype Round = Round(poll: seq<Action>, turns: seq<TurnEnv>)

  /** A step that is the thread's own or comes from some round. */
  predicate Scripted(a: Action, w: int, rounds: seq<Round>) {
    ByThread(a, Waiter(w)) || exists r :: r in rounds && (a in r.poll || InTurns(a, r.turns))
  }

  ghost predicate AllScripted(run: seq<Action>, w: int, rounds: seq<Round>) {
    forall a :: a in run ==> Scripted(a, w, rounds)
  }

  lemma PollScripted(run: seq<Action>, more: seq<Action>, w: int, rounds: seq<Round>, r: nat)
    requires AllScripted(run, w, rounds) && run <= more
    requires forall i :: |run| <= i < |more| ==> more[i] in RoundAt(rounds, r).poll
    ensures AllScripted(more, w, rounds)
  {
    forall a | a in more
      ensures Scripted(a, w, rounds)
    {
      var i :| 0 <= i < |more| && more[i] == a;
      assert i >= |run| ==> r < |rounds| && rounds[r] in rounds;
      assert i < |run| ==> a in run;
    }
  }

  lemma WaitScripted(run: seq<Action>, more: seq<Action>, w: int, rounds: seq<Round>, r: nat)
    requires AllScripted(run, w, rounds) && Adds(run, more, w, RoundAt(rounds, r).turns)
    ensures AllScripted(more, w, rounds)
  {
    forall a | a in more
      ensures Scripted(a, w, rounds)
    {
      var i :| 0 <= i < |more| && more[i] == a;
      if i >= |run| && !ByThread(a, Waiter(w)) {
        assert InTurns(a, RoundAt(rounds, r).turns);
        assert r < |rounds| && rounds[r] in rounds;
      }
      assert i < |run| ==> a in run;
    }
  }

  function RoundAt(rounds: seq<Round>, r: nat): Round {
    if r < |rounds| then rounds[r] else Round([], [])
  }

  /** From the first step on that leaves the word at 1, it stays 1 and nobody falls asleep. */
  lemma {:induction false} AwakeForGood(run: seq<Action>, n: nat)
    requires IsRun(INIT, run) && n <= |run| && After(run, n).word == 1
    ensures Exec(INIT, run).word == 1 && Exec(INIT, run).sleeps == After(run, n).sleeps
  {
    if n == |run| {
      assert run[..n] == run;
    } else {
      var before := run[..|run| - 1];
      assert before[..n] == run[..n];
      AwakeForGood(before, n);
      InvariantHolds(before);
    }
  }

  /** Nobody has fallen asleep since the word was 1. */
  ghost predicate NoSleepAfterWake(run: seq<Action>) {
    && IsRun(INIT, run)
    && forall n :: 0 <= n <= |run| && After(run, n).word == 1 ==> Exec(INIT, run).sleeps == After(run, n).sleeps
  }

  lemma SleepsSettled(run: seq<Action>)
    requires IsRun(INIT, run)
    ensures NoSleepAfterWake(run)
  {
    forall n | 0 <= n <= |run| && After(run, n).word == 1
      ensures Exec(INIT, run).sleeps == After(run, n).sleeps
    {
      AwakeForGood(run, n);
    }
  }

  /** The thread has polled at each of the marks: before the `r`-th poll it has waited `r`
      times, and polls again only after a wake. */
  ghost predicate PolledAt(run: seq<Action>, w: int, marks: seq<nat>) {
    && IsRun(INIT, run)
    && (forall r :: 0 <= r < |marks| ==> marks[r] <= |run|)
    && (forall r :: 0 <= r < |marks| ==> Waits(run[..marks[r]], w) == r)
    && (forall r :: 0 < r < |marks| ==> After(run, marks[r]).word == 1)
  }

  lemma MarksKept(run: seq<Action>, more: seq<Action>, w: int, marks: seq<nat>)
    requires PolledAt(run, w, marks) && IsRun(INIT, more) && run <= more
    ensures PolledAt(more, w, marks)
    ensures forall r :: 0 <= r < |marks| ==> After(more, marks[r]) == After(run, marks[r])
  {
    forall r | 0 <= r < |marks|
      ensures more[..marks[r]] == run[..marks[r]]
    {
    }
  }

  lemma OneMoreMark(run: seq<Action>, w: int, marks: seq<nat>)
    requires PolledAt(run, w, marks) && Waits(run, w) == |marks|
    requires |marks| > 0 ==> Exec(INIT, run).word == 1
    ensures PolledAt(run, w, marks + [|run|])
  {
    assert run[..|run|] == run;
  }

  /** From the `r`-th poll on the word is 1, and each wait has a turn to see it. */
  ghost predicate WokenFrom<T>(run: seq<Action>, marks: seq<nat>, polls: seq<Polled<T>>, rounds: seq<Round>, r: nat)
    requires IsRun(INIT, run) && forall i :: 0 <= i < |marks| ==> marks[i] <= |run|
  {
    && r < |marks| && After(run, marks[r]).word == 1
    && forall q :: r <= q < |polls| ==> RoundAt(rounds, q).turns != []
  }

  /** A wait that has not ended had no turn, or the word was not 1 when it began. */
  lemma NotWoken<T>(run: seq<Action>, more: seq<Action>, marks: seq<nat>, polls: seq<Polled<T>>, rounds: seq<Round>)
    requires IsRun(INIT, run) && IsRun(INIT, more) && run <= more
    requires 0 < |marks| <= |polls| && forall i :: 0 <= i < |marks| ==> marks[i] <= |run|
    requires Exec(INIT, run).word != 1 || RoundAt(rounds, |marks| - 1).turns == []
    ensures forall r :: 0 <= r < |marks| ==> !WokenFrom(more, marks, polls, rounds, r)
  {
    forall r: nat | r < |marks|
      ensures !WokenFrom(more, marks, polls, rounds, r)
    {
      assert more[..marks[r]] == run[..marks[r]];
      if After(run, marks[r]).word == 1 {
        AwakeForGood(run, marks[r]);
      }
    }
  }

  /** The wait after the poll at `mark` has used all its turns, and at the start of each of them
      nobody had called WakeByAddressAll and the word was 0 or the thread asleep. */
  ghost predicate NeverWoken(run: seq<Action>, starts: seq<nat>, w: int, round: Round, mark: nat) {
    && StuckAt(run, starts, |starts|, w) && |starts| == |round.turns|
    && forall i :: 0 <= i < |starts| ==> mark < starts[i] && After(run, starts[i]).issued == 0
  }

  lemma StuckThroughout(run: seq<Action>, starts: seq<nat>, w: int, round: Round, mark: nat)
    requires StuckAt(run, starts, |starts|, w) && |starts| == |round.turns|
    requires forall i :: 0 <= i < |starts| ==> mark < starts[i]
    ensures NeverWoken(run, starts, w, round, mark)
  {
    forall i | 0 <= i < |starts|
      ensures After(run, starts[i]).issued == 0
    {
      StuckIsUnwoken(run, starts[i], w);
    }
  }

  /** What a poll after these marks adds. */
  lemma PolledOnce(run: seq<Action>, more: seq<Action>, w: int, marks: seq<nat>, rounds: seq<Round>)
    requires PolledAt(run, w, marks) && AllScripted(run, w, rounds) && IsRun(INIT, more) && run <= more
    requires forall i :: |run| <= i < |more| ==> more[i] in RoundAt(rounds, |marks|).poll
    requires Waits(more, w) == |marks| && (|marks| > 0 ==> Exec(INIT, more).word == 1)
    ensures AllScripted(more, w, rounds) && PolledAt(more, w, marks + [|more|])
  {
    PollScripted(run, more, w, rounds, |marks|);
    MarksKept(run, more, w, marks);
    OneMoreMark(more, w, marks);
  }

  /** What a wait after the last of these marks adds. */
  lemma Waited<T>(run: seq<Action>, more: seq<Action>, w: int, marks: seq<nat>, starts: seq<nat>,
                  polls: seq<Polled<T>>, rounds: seq<Round>, done: bool)
    requires PolledAt(run, w, marks) && AllScripted(run, w, rounds) && IsRun(INIT, more)
    requires 0 < |marks| <= |polls| && marks[|marks| - 1] <= |run|
    requires var turns := RoundAt(rounds, |marks| - 1).turns;
             && Adds(run, more, w, turns)
             && (!done ==> |starts| == |turns| && StuckAt(more, starts, |starts|, w)
                           && (forall i :: 0 <= i < |starts| ==> |run| < starts[i])
                           && (Exec(INIT, run).word != 1 || turns == []))
    ensures PolledAt(more, w, marks) && AllScripted(more, w, rounds)
    ensures !done ==> forall r :: 0 <= r < |marks| ==> !WokenFrom(more, marks, polls, rounds, r)
    ensures !done ==> NeverWoken(more, starts, w, RoundAt(rounds, |marks| - 1), marks[|marks| - 1])
  {
    WaitScripted(run, more, w, rounds, |marks| - 1);
    MarksKept(run, more, w, marks);
    if !done {
      NotWoken(run, more, marks, polls, rounds);
      StuckThroughout(more, starts, w, RoundAt(rounds, |marks| - 1), marks[|marks| - 1]);
    }
  }

  /** The last wait has not ended, and no wake could have ended it. */
  ghost predicate LeftWaiting<T>(run: seq<Action>, w: int, marks: seq<nat>, starts: seq<nat>,
                                 polls: seq<Polled<T>>, rounds: seq<Round>)
    requires PolledAt(run, w, marks) && |marks| > 0
  {
    && (forall r :: 0 <= r < |marks| ==> !WokenFrom(run, marks, polls, rounds, r))
    && NeverWoken(run, starts, w, RoundAt(rounds, |marks| - 1), marks[|marks| - 1])
  }

  /** One round of `block_on`'s loop: a poll, and a wait if it answers Pending. */
  method PollThenWait<T>(waker: InlineWaker, w: int, polls: seq<Polled<T>>, rounds: seq<Round>,
                         count: nat, ghost before: seq<nat>)
    returns (polled: Polled<T>, done: bool, ghost marks: seq<nat>, ghost starts: seq<nat>)
    requires waker.Valid() && w !in waker.waiters && count == |before| < |polls|
    requires PolledAt(waker.trace, w, before) && AllScripted(waker.trace, w, rounds)
    requires Waits(waker.trace, w) == |before| && (|before| > 0 ==> waker.word == 1)
    modifies waker
    ensures waker.Valid() && polled == polls[|before|] && |marks| == |before| + 1
    ensures PolledAt(waker.trace, w, marks) && AllScripted(waker.trace, w, rounds)
    ensures Waits(waker.trace, w) == if polled.Ready? then |before| else |before| + 1
    ensures polled.Ready? ==> done
    ensures if done then w !in waker.waiters && (polled.Pending? ==> waker.word == 1)
            else LeftWaiting(waker.trace, w, marks, starts, polls, rounds)
  {
    var round := RoundAt(rounds, count);
    ghost var atCall := waker.trace;
    waker.Interfere(round.poll, Waiter(w));
    PolledOnce(atCall, waker.trace, w, before, rounds);
    marks := before + [|waker.trace|];
    polled, done, starts := polls[count], true, [];
    if polled.Pending? {
      ghost var atPoll := waker.trace;
      done, starts := waker.Wait(w, round.turns);
      Waited(atPoll, waker.trace, w, marks, starts, polls, rounds, done);
    }
  }

  /** `block_on`: it polls the task with a waker of its own and waits after each Pending.
      `polls` is what the polls answer; `output` is the first Ready one, or Pending when
      `polls`, or the turns of a wait, ran out before.

      The steps of other threads are those that `rounds` has, this thread makes no wake.
      `marks` says where in the waker's run each poll was answered. The thread waits once
      for each Pending, polls again only once woken, and never sleeps again after a wake;
      once the word is 1 at some poll, waits that have turns do not keep it from the first
      Ready answer; and a wake during a wait that has a turn left ends that wait: a wait that
      goes on to the end of its turns found nobody's wake at the start of any. */
  method BlockOn<T>(w: int, polls: seq<Polled<T>>, rounds: seq<Round>)
    returns (output: Polled<T>, count: nat, waker: InlineWaker, ghost marks: seq<nat>, ghost starts: seq<nat>)
    ensures fresh(waker) && waker.Valid() && count <= |polls|
    ensures forall i :: 0 <= i < count - 1 ==> polls[i].Pending?
    ensures output.Ready? ==> count > 0 && polls[count - 1] == output
    ensures output.Pending? ==> forall i :: 0 <= i < count ==> polls[i].Pending?
    ensures |marks| == count && PolledAt(waker.trace, w, marks)
    ensures AllScripted(waker.trace, w, rounds)
    ensures Waits(waker.trace, w) == if output.Ready? then count - 1 else count
    ensures NoSleepAfterWake(waker.trace)
    ensures (exists q :: 0 <= q < |polls| && polls[q].Ready?) ==>
              output.Ready? || forall r :: 0 <= r < count ==> !WokenFrom(waker.trace, marks, polls, rounds, r)
    ensures (exists q :: 0 <= q < |polls| && polls[q].Ready?) && output.Pending? ==>
              count > 0 && NeverWoken(waker.trace, starts, w, RoundAt(rounds, count - 1), marks[count - 1])
  {
    waker := new InlineWaker();
    count, marks, output, starts := 0, [], Pending, [];
    var done := true;
    while count < |polls| && output.Pending? && done
      invariant fresh(waker) && waker.Valid() && count <= |polls|
      invariant done ==> w !in waker.waiters
      invariant forall i :: 0 <= i < count - 1 ==> polls[i].Pending?
      invariant output.Ready? ==> count > 0 && polls[count - 1] == output
      invariant output.Pending? ==> forall i :: 0 <= i < count ==> polls[i].Pending?
      invariant |marks| == count && PolledAt(waker.trace, w, marks) && AllScripted(waker.trace, w, rounds)
      invariant Waits(waker.trace, w) == if output.Ready? then count - 1 else count
      invariant output.Pending? && done && count > 0 ==> waker.word == 1
      invariant !done ==> count > 0 && LeftWaiting(waker.trace, w, marks, starts, polls, rounds)
      decreases |polls| - count
    {
      output, done, marks, starts := PollThenWait(waker, w, polls, rounds, count, marks);
      count := count + 1;
    }
    SleepsSettled(waker.trace);
  }
}
