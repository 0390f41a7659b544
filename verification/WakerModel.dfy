/** The futex waker of `src/task/waker.rs`, for any number of wakers and waiters.

    `WaitOnAddress` compares and falls asleep in one step, and may wake spuriously. */
module WakerModel {

  datatype WakerPc =
    | Cas       // about to try 0 -> 1
    | Winner    // won; about to call WakeByAddressAll

  datatype WaiterPc =
    | Test      // at the loop's test
    | Compare   // read 0; about to call WaitOnAddress
    | Asleep

  datatype Futex = Futex(
    word: nat,
    wakers: map<int, WakerPc>, waiters: map<int, WaiterPc>,
    issued: nat,            // WakeByAddressAll calls so far
    sleeps: nat)            // times anybody has fallen asleep

  datatype Action =
    | BeginWake(k: int) | WakerStep(k: int)
    | BeginWait(w: int) | WaiterStep(w: int)
    | Spurious(w: int)

  const INIT: Futex := Futex(0, map[], map[], 0, 0)

  predicate Enabled(s: Futex, a: Action) {
    match a
    case BeginWake(k) => k !in s.wakers
    case WakerStep(k) => k in s.wakers
    case BeginWait(w) => w !in s.waiters
    case WaiterStep(w) => w in s.waiters && !s.waiters[w].Asleep?
    case Spurious(w) => w in s.waiters && s.waiters[w].Asleep?
  }

  function AllAwake(waiters: map<int, WaiterPc>): map<int, WaiterPc> {
    map w | w in waiters :: if waiters[w].Asleep? then Test else waiters[w]
  }

  function Next(s: Futex, a: Action): Futex
    requires Enabled(s, a)
  {
    match a
    case BeginWake(k) => s.(wakers := s.wakers[k := Cas])
    case WakerStep(k) =>
      if s.wakers[k].Cas? then
        if s.word == 0 then s.(word := 1, wakers := s.wakers[k := Winner]) else s.(wakers := s.wakers - {k})
      else s.(wakers := s.wakers - {k}, waiters := AllAwake(s.waiters), issued := s.issued + 1)
    case BeginWait(w) => s.(waiters := s.waiters[w := Test])
    case WaiterStep(w) =>
      if s.waiters[w].Test? then
        if s.word == 1 then s.(waiters := s.waiters - {w}) else s.(waiters := s.waiters[w := Compare])
      else if s.word == 0 then s.(waiters := s.waiters[w := Asleep], sleeps := s.sleeps + 1)
      else s.(waiters := s.waiters[w := Test])
    case Spurious(w) => s.(waiters := s.waiters[w := Test])
  }

  ghost predicate IsRun(s: Futex, run: seq<Action>)
    decreases |run|, 0
  {
    |run| > 0 ==> IsRun(s, run[..|run| - 1]) && Enabled(Exec(s, run[..|run| - 1]), run[|run| - 1])
  }

  ghost function Exec(s: Futex, run: seq<Action>): Futex
    requires IsRun(s, run)
    decreases |run|, 1
  {
    if run == [] then s else Next(Exec(s, run[..|run| - 1]), run[|run| - 1])
  }
}
