/** One half of an `IoHandle` (`src/io/shared/handle.rs`) as a transition system.

    Threads: one owner, which polls or cancels (both take `Pin<&mut Self>`, so there is
    one at a time), and any number of completion callbacks run by the kernel. Every
    access of shared memory is one action. `pc` and the callbacks' own `pc`s say where
    each thread stands; `gen`, `asyncOps`, `kernel`, `wins`, `swaps`, `log` and the last
    two fields are history, written but never tested by the program's own steps. */
module HalfModel {
  import opened IoStates
  import opened IoResults

  /** Where the owner stands: outside, in `poll`, or in `cancel`. */
  datatype Pc =
    | Out
    | Finish                      // about to try `finish`
    | Get                         // inside `result.get`
    | SetIdle(got: Cell)          // about to store Idle and return what it got
    | Schedule                    // about to try `schedule`
    | Issue                       // in the Win32 call that starts the operation
    | InlineRegister(res: IoRes)  // the operation finished inline
    | InlineIdle(res: IoRes)
    | SetPending                  // the operation is pending, the word not yet
    | Register
    | CancelCheck(wait: bool)
    | CancelSwap(wait: bool)
    | CancelCall(wait: bool)      // in CancelIoEx
    | CancelSpin                  // in `while wait && is_busy()`

  /** Where a callback stands. `Queued`: the kernel owes it but has not run it. */
  datatype CbPc =
    | Queued | Spin | CasPending | CasNowait | CasWait
    | Set           // claimed; inside `result.set`
    | Publish       // about to store Ready
    | PublishOnly   // claimed by `callback_cancelled_wait`: will store Ready, no result
    | Wake          // about to wake the waker

  datatype Cb = Cb(pc: CbPc, res: IoRes)

  /** How often a callback's three claiming CASes have succeeded. */
  datatype Tally = Tally(pending: nat, nowait: nat, wait: nat)

  const NO_CLAIM: Tally := Tally(0, 0, 0)

  /** A cancel's swap, with the word it replaced. */
  datatype Swap = Swap(wait: bool, landed: Word)

  /** What a poll returned: through the finish branch, or inline. */
  datatype Delivery = Finished(op: nat, got: Cell) | Inline(op: nat, res: IoRes)

  /** What has happened to the operations so far. */
  datatype Past = Past(
    gen: nat,                      // operations scheduled so far; the current one is gen
    asyncOps: set<Key>,            // operations the kernel accepted as pending
    kernel: map<Key, IoRes>,       // what the kernel reported for an operation
    wins: map<Key, Tally>,         // the claiming CASes each callback won
    swaps: map<Key, Swap>,         // the cancel swap made while an operation was current
    log: seq<Delivery>)

  /** What the polling task has seen. */
  datatype Seen = Seen(
    notified: bool,                // a wake-up the task has not yet answered
    lastPending: bool,             // the last poll returned Pending
    slotAtSchedule: bool,          // waker slot when the current operation was scheduled
    told: bool,                    // a wake-up unanswered then, and still
    registered: bool,              // a poll registered since, before its callback had retired
    alone: bool)                   // no earlier callback was left then

  datatype Half = Half(
    st: Word, cell: Cell, waker: bool,
    pc: Pc, cbs: map<Key, Cb>,
    past: Past, seen: Seen)

  datatype Action =
    | PollStart
    | CancelStart(wait: bool)
    | OwnerStep
    | IssueAsync
    | IssueInline(res: IoRes, posts: bool)  // posts: a completion packet comes anyway
    | Inject(k: Key)                        // a callback nobody asked for
    | Fire(k: Key, result: nat, transferred: nat)
    | CbStep(k: Key)

  const INIT: Half :=
    Half(Idle, Uninit, false, Out, map[], Past(0, {}, map[], map[], map[], []),
         Seen(false, false, false, false, false, false))

  predicate Enabled(s: Half, a: Action) {
    match a
    case PollStart => s.pc.Out?
    case CancelStart(_) => s.pc.Out?
    case OwnerStep => !s.pc.Out? && !s.pc.Issue?
    case IssueAsync => s.pc.Issue?
    case IssueInline(_, _) => s.pc.Issue?
    case Inject(k) => !Owed(k) && k !in s.cbs
    case Fire(k, _, _) => k in s.cbs && s.cbs[k].pc.Queued?
    case CbStep(k) => k in s.cbs && !s.cbs[k].pc.Queued?
  }

  function AfterCancel(wait: bool): Pc {
    if wait then CancelSpin else Out
  }

  function Logged(s: Half, d: Delivery): Past {
    s.past.(log := s.past.log + [d])
  }

  function OwnerNext(s: Half): Half {
    match s.pc
    case Finish => s.(pc := if s.st.Ready? then Get else Schedule)
    case Get => s.(pc := SetIdle(s.cell))
    case SetIdle(c) => s.(st := Idle, pc := Out, past := Logged(s, Finished(s.past.gen, c)))
    case Schedule =>
      if s.st.Idle? then
        s.(st := Scheduling, pc := Issue, past := s.past.(gen := s.past.gen + 1),
           seen := s.seen.(slotAtSchedule := s.waker, told := s.seen.notified, registered := false,
                           alone := |s.cbs| == 0))
      else s.(pc := Register)
    case InlineRegister(r) => s.(waker := true, pc := InlineIdle(r))
    case InlineIdle(r) => s.(st := Idle, pc := Out, past := Logged(s, Inline(s.past.gen, r)))
    case SetPending => s.(st := Pending, pc := Out, seen := s.seen.(lastPending := true))
    case Register =>
      s.(waker := true, pc := Out,
         seen := s.seen.(lastPending := true, registered := s.seen.registered || s.past.gen in s.cbs))
    case CancelCheck(w) => s.(pc := if s.st.Pending? then CancelSwap(w) else Out)
    case CancelSwap(w) =>
      s.(st := Swapped(w), past := s.past.(swaps := s.past.swaps[s.past.gen := Swap(w, s.st)]),
         pc := if s.st != CancelledNowait then CancelCall(w) else AfterCancel(w))
    case CancelCall(w) => s.(pc := AfterCancel(w))
    case CancelSpin => if Busy(s.st) then s else s.(pc := Out)
    case Out => s
    case Issue => s
  }

  function Wins(s: Half, k: Key): Tally {
    if k in s.past.wins then s.past.wins[k] else NO_CLAIM
  }

  function At(s: Half, k: Key, pc: CbPc): Half
    requires k in s.cbs
  {
    s.(cbs := s.cbs[k := s.cbs[k].(pc := pc)])
  }

  function Retire(s: Half, k: Key): Half {
    s.(cbs := s.cbs - {k})
  }

  function Won(s: Half, k: Key, t: Tally, pc: CbPc): Half
    requires k in s.cbs
  {
    At(s.(st := Callback, past := s.past.(wins := s.past.wins[k := t])), k, pc)
  }

  function CbNext(s: Half, k: Key): Half
    requires k in s.cbs
  {
    var cb := s.cbs[k];
    var w := Wins(s, k);
    match cb.pc
    case Queued => s
    case Spin => if s.st.Scheduling? then s else At(s, k, CasPending)
    case CasPending => if s.st.Pending? then Won(s, k, w.(pending := w.pending + 1), Set) else At(s, k, CasNowait)
    case CasNowait => if s.st.CancelledNowait? then Won(s, k, w.(nowait := w.nowait + 1), Set) else At(s, k, CasWait)
    case CasWait => if s.st.CancelledWait? then Won(s, k, w.(wait := w.wait + 1), PublishOnly) else Retire(s, k)
    case Set => At(s.(cell := Written(k, cb.res)), k, Publish)
    case Publish => At(s.(st := Ready), k, Wake)
    case PublishOnly => Retire(s.(st := Ready), k)
    case Wake => Retire(s.(waker := false, seen := s.seen.(notified := s.seen.notified || s.waker)), k)
  }

  function Next(s: Half, a: Action): Half
    requires Enabled(s, a)
  {
    match a
    case PollStart => s.(pc := Finish, seen := s.seen.(notified := false, lastPending := false, told := false))
    case CancelStart(w) => s.(pc := CancelCheck(w))
    case OwnerStep => OwnerNext(s)
    case IssueAsync =>
      s.(pc := SetPending, past := s.past.(asyncOps := s.past.asyncOps + {s.past.gen}),
         cbs := s.cbs[s.past.gen := Cb(Queued, Ok(0))])
    case IssueInline(r, posts) =>
      s.(pc := InlineRegister(r),
         cbs := if posts then s.cbs[s.past.gen := Cb(Queued, Ok(0))] else s.cbs)
    case Inject(k) => s.(cbs := s.cbs[k := Cb(Queued, Ok(0))])
    case Fire(k, r, n) =>
      s.(cbs := s.cbs[k := Cb(Spin, Encode(r, n))],
         past := if Owed(k) then s.past.(kernel := s.past.kernel[k := Encode(r, n)]) else s.past)
    case CbStep(k) => CbNext(s, k)
  }

  /** Environment assumption E: no callback nobody asked for, and an operation that
      finished inline has no callback left when the half schedules again. (That a pending
      operation has exactly one callback is how `IssueAsync` is defined.) */
  predicate AllowedE(s: Half, a: Action) {
    && !a.Inject?
    && (a.OwnerStep? && s.pc.Schedule? && s.st.Idle? ==>
          forall k :: k in s.cbs && Owed(k) ==> k in s.past.asyncOps)
  }

  /** The other regime: any callbacks at all, but nobody cancels. */
  predicate AllowedUncancelled(s: Half, a: Action) {
    !a.CancelStart?
  }

  datatype Regime = UnderE | Uncancelled | Anything

  predicate Allowed(g: Regime, s: Half, a: Action) {
    match g
    case UnderE => AllowedE(s, a)
    case Uncancelled => AllowedUncancelled(s, a)
    case Anything => true
  }

  /** `run` is a run from `s`: each action is enabled, and allowed by the regime, where it is taken. */
  ghost predicate IsRun(g: Regime, s: Half, run: seq<Action>)
    decreases |run|, 0
  {
    |run| > 0 ==>
      && IsRun(g, s, run[..|run| - 1])
      && Enabled(Exec(g, s, run[..|run| - 1]), run[|run| - 1])
      && Allowed(g, Exec(g, s, run[..|run| - 1]), run[|run| - 1])
  }

  /** The state a run leads to. */
  ghost function Exec(g: Regime, s: Half, run: seq<Action>): Half
    requires IsRun(g, s, run)
    decreases |run|, 1
  {
    if run == [] then s else Next(Exec(g, s, run[..|run| - 1]), run[|run| - 1])
  }
}
