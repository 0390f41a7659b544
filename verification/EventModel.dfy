/** An `IoEvent` (`src/io/shared/event.rs`) as a transition system.

    One owner polls. The kernel sets the event object when an operation completes, and the
    thread pool's wait object, which is one-shot, runs the callback when it is armed and
    finds the event set. */
module EventModel {
  import opened IoStates
  import opened IoResults

  datatype Pc =
    | Out
    | Finish
    | Reset                  // in ResetEvent
    | Rearm                  // in SetThreadpoolWait
    | Get                    // inside `result.get`
    | StoreIdle(failed: bool, got: Cell)  // ResetEvent failed, or what it got
    | Schedule
    | Issue                  // in the closure that starts the operation
    | InlineIdle(ok: bool)
    | RegisterPending        // the operation is pending; about to register
    | SetPending
    | Register

  datatype CbPc = Spin | CasPending | Set | Publish | Wake

  datatype Kernel = Kernel(signalled: bool, armed: bool, inflight: bool)

  /** How a poll ended: it returned Pending, or reported a completed operation (or the
      failure of ResetEvent), or an operation that finished inline. */
  datatype PollEnd = Blocks | Reports(failed: bool) | Inlines(ok: bool)

  datatype Past = Past(
    ops: nat,       // operations the kernel accepted as pending
    fires: nat,     // times the wait object fired; the callback of a firing has its number
    ended: bool,    // an operation finished inline with success
    polls: seq<PollEnd>)

  datatype Seen = Seen(notified: bool, lastPending: bool)

  datatype Event = Event(
    st: Word, cell: Cell, waker: bool,
    pc: Pc, cbs: map<Key, CbPc>,
    kernel: Kernel, past: Past, seen: Seen)

  datatype Action =
    | PollStart
    | OwnerStep
    | ResetFails
    | IssueAsync
    | IssueInline(ok: bool, signals: bool)
    | Complete            // the kernel finishes the operation and sets the event
    | FireWait            // the wait object runs its callback
    | Inject(k: Key)      // a callback nobody asked for
    | CbStep(k: Key)

  /** What `new` leaves: a wait armed on an event that is not set. */
  const INIT: Event :=
    Event(Idle, Uninit, false, Out, map[], Kernel(false, true, false), Past(0, 0, false, []), Seen(false, false))

  predicate Enabled(s: Event, a: Action) {
    match a
    case PollStart => s.pc.Out?
    case OwnerStep => !s.pc.Out? && !s.pc.Issue?
    case ResetFails => s.pc.Reset?
    case IssueAsync => s.pc.Issue?
    case IssueInline(_, _) => s.pc.Issue?
    case Complete => s.kernel.inflight
    case FireWait => s.kernel.armed && s.kernel.signalled
    case Inject(k) => !Owed(k) && k !in s.cbs
    case CbStep(k) => k in s.cbs
  }

  function Ended(s: Event, e: PollEnd): Past {
    s.past.(polls := s.past.polls + [e])
  }

  function OwnerNext(s: Event): Event {
    match s.pc
    case Finish => s.(pc := if s.st.Ready? then Reset else Schedule)
    case Reset => s.(pc := Rearm, kernel := s.kernel.(signalled := false))
    case Rearm => s.(pc := Get, kernel := s.kernel.(armed := true))
    case Get => s.(pc := StoreIdle(false, s.cell))
    case StoreIdle(failed, _) => s.(st := Idle, pc := Out, past := Ended(s, Reports(failed)))
    case Schedule => if s.st.Idle? then s.(st := Scheduling, pc := Issue) else s.(pc := Register)
    case InlineIdle(ok) => s.(st := Idle, pc := Out, past := Ended(s, Inlines(ok)))
    case RegisterPending => s.(waker := true, pc := SetPending)
    case SetPending =>
      s.(st := Pending, pc := Out, past := Ended(s, Blocks), seen := s.seen.(lastPending := true))
    case Register =>
      s.(waker := true, pc := Out, past := Ended(s, Blocks), seen := s.seen.(lastPending := true))
    case Out => s
    case Issue => s
  }

  function CbNext(s: Event, k: Key): Event
    requires k in s.cbs
  {
    match s.cbs[k]
    case Spin => if s.st.Scheduling? then s else s.(cbs := s.cbs[k := CasPending])
    case CasPending =>
      if s.st.Pending? then s.(st := Callback, cbs := s.cbs[k := Set]) else s.(cbs := s.cbs - {k})
    case Set => s.(cell := Written(k, Encode(0, 0)), cbs := s.cbs[k := Publish])
    case Publish => s.(st := Ready, cbs := s.cbs[k := Wake])
    case Wake => s.(waker := false, cbs := s.cbs - {k}, seen := s.seen.(notified := s.seen.notified || s.waker))
  }

  function Next(s: Event, a: Action): Event
    requires Enabled(s, a)
  {
    match a
    case PollStart => s.(pc := Finish, seen := Seen(false, false))
    case OwnerStep => OwnerNext(s)
    case ResetFails => s.(pc := StoreIdle(true, Uninit))
    case IssueAsync =>
      s.(pc := RegisterPending, past := s.past.(ops := s.past.ops + 1), kernel := s.kernel.(inflight := true))
    case IssueInline(ok, signals) =>
      s.(pc := InlineIdle(ok), past := s.past.(ended := s.past.ended || ok),
         kernel := s.kernel.(signalled := s.kernel.signalled || signals))
    case Complete => s.(kernel := s.kernel.(signalled := true, inflight := false))
    case FireWait =>
      s.(kernel := s.kernel.(armed := false), past := s.past.(fires := s.past.fires + 1),
         cbs := s.cbs[s.past.fires + 1 := Spin])
    case Inject(k) => s.(cbs := s.cbs[k := Spin])
    case CbStep(k) => CbNext(s, k)
  }

  /** `Proper`: ResetEvent succeeds, a call that fails inline does not set the event, and
      nobody polls after one succeeded inline. `Failing`: the same, but ResetEvent may fail.
      `Retired`: as `Proper`, and the callback of an operation has retired before the next is
      scheduled. */
  datatype Regime = Anything | Failing | Proper | Retired

  predicate Allowed(g: Regime, s: Event, a: Action) {
    && (!g.Anything? ==>
          && !a.Inject? && (a.ResetFails? ==> g.Failing?)
          && (a.IssueInline? && a.signals ==> a.ok)
          && (a.PollStart? ==> !s.past.ended))
    && (g.Retired? && a.OwnerStep? && s.pc.Schedule? && s.st.Idle? ==> forall k :: k in s.cbs ==> false)
  }

  ghost predicate IsRun(g: Regime, s: Event, run: seq<Action>)
    decreases |run|, 0
  {
    |run| > 0 ==>
      && IsRun(g, s, run[..|run| - 1])
      && Enabled(Exec(g, s, run[..|run| - 1]), run[|run| - 1])
      && Allowed(g, Exec(g, s, run[..|run| - 1]), run[|run| - 1])
  }

  ghost function Exec(g: Regime, s: Event, run: seq<Action>): Event
    requires IsRun(g, s, run)
    decreases |run|, 1
  {
    if run == [] then s else Next(Exec(g, s, run[..|run| - 1]), run[|run| - 1])
  }
}
