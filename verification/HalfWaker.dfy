/** Which tasks an `IoHandle` half wakes.

    `poll` registers the waker in its Ready branch and when it finds an operation already
    under way, but not when it has just scheduled one. So whether the task is woken for an
    operation depends on what was left in the slot before, and on whether it polls again
    in time. All polls of the half come from one task here. */
module HalfWaker {
  import opened IoStates
  import opened IoResults
  import opened HalfModel
  import opened HalfInvariant
  import opened HalfTheorems
  import opened WakeOrder

  /** The slot was full at scheduling or filled since, in time. */
  predicate SlotFull(s: Half) {
    s.seen.slotAtSchedule || s.seen.registered
  }

  /** While the operation's callback is there, nobody has taken the slot or told the task. */
  predicate BeforeWake(s: Half) {
    s.waker == SlotFull(s) && s.seen.notified == s.seen.told
  }

  predicate AfterWake(s: Half) {
    s.seen.notified == (s.seen.told || (SlotFull(s) && Wins(s, s.past.gen).wait == 0))
  }

  predicate WakerInv(s: Half) {
    s.seen.alone ==>
      && (forall k :: k in s.cbs ==> k == s.past.gen)
      && (s.pc.Issue? ==> BeforeWake(s))
      && (s.past.gen in s.past.asyncOps ==>
            && (s.past.gen in s.cbs ==> BeforeWake(s))
            && (s.past.gen !in s.cbs && s.st.Ready? && !s.pc.Finish? && !s.pc.Get? && !s.pc.SetIdle? ==> AfterWake(s)))
  }

  lemma WakerSchedule(s: Half)
    requires Inv(s) && WakerInv(s) && s.pc.Schedule?
    ensures WakerInv(Next(s, OwnerStep))
  {
    if s.st.Idle? {
      assert |s.cbs| == 0 ==> s.cbs.Keys == {};
      assert s.past.gen + 1 !in s.past.asyncOps;
    }
  }

  /** A poll's other steps, and a cancel's. */
  lemma WakerPoll(s: Half)
    requires Inv(s) && WakerInv(s) && Enabled(s, OwnerStep) && !s.pc.Schedule?
    requires !s.pc.CancelCheck? && !s.pc.CancelSwap? && !s.pc.CancelCall? && !s.pc.CancelSpin?
    ensures WakerInv(Next(s, OwnerStep))
  {
    var v := V(s);
  }

  lemma WakerCancel(s: Half)
    requires Inv(s) && WakerInv(s)
    requires s.pc.CancelCheck? || s.pc.CancelSwap? || s.pc.CancelCall? || s.pc.CancelSpin?
    ensures WakerInv(Next(s, OwnerStep))
  {
  }

  lemma WakerOwner(s: Half)
    requires Inv(s) && WakerInv(s) && Enabled(s, OwnerStep)
    ensures WakerInv(Next(s, OwnerStep))
  {
    match s.pc
    case Schedule => WakerSchedule(s);
    case CancelCheck(_) => WakerCancel(s);
    case CancelSwap(_) => WakerCancel(s);
    case CancelCall(_) => WakerCancel(s);
    case CancelSpin => WakerCancel(s);
    case _ => WakerPoll(s);
  }

  lemma WakerWakes(s: Half, k: Key)
    requires Inv(s) && WakerInv(s) && k in s.cbs && s.cbs[k].pc.Wake?
    ensures WakerInv(CbNext(s, k))
  {
    if k == s.past.gen && k in s.past.asyncOps { CurrentClaim(V(s)); }
  }

  /** Steps after which the callback is still there. */
  lemma WakerStays(s: Half, k: Key)
    requires WakerInv(s) && k in s.cbs && k == s.past.gen && 1 <= Stage(s.cbs[k].pc) <= 6
    requires s.cbs[k].pc.CasWait? ==> s.st.CancelledWait?
    ensures WakerInv(CbNext(s, k))
  {
    var t := CbNext(s, k);
    assert t.cbs.Keys == s.cbs.Keys;
    assert t.waker == s.waker && t.seen == s.seen && t.pc == s.pc && t.past.asyncOps == s.past.asyncOps;
  }

  /** The callback retires without a wake. */
  lemma WakerRetires(s: Half, k: Key)
    requires Inv(s) && WakerInv(s) && k in s.cbs && k == s.past.gen
    requires s.cbs[k].pc.PublishOnly? || (s.cbs[k].pc.CasWait? && !s.st.CancelledWait?)
    ensures WakerInv(CbNext(s, k))
  {
    if k in s.past.asyncOps { CurrentClaim(V(s)); }
  }

  lemma WakerCallback(s: Half, k: Key)
    requires Inv(s) && WakerInv(s) && Enabled(s, CbStep(k))
    ensures WakerInv(Next(s, CbStep(k)))
  {
    if s.cbs[k].pc.Wake? {
      WakerWakes(s, k);
    } else {
      OnlyCurrent(s, k);
      if s.cbs[k].pc.PublishOnly? || (s.cbs[k].pc.CasWait? && !s.st.CancelledWait?) {
        WakerRetires(s, k);
      } else {
        WakerStays(s, k);
      }
    }
  }

  lemma WakerStep(s: Half, a: Action)
    requires Inv(s) && WakerInv(s) && Enabled(s, a) && AllowedE(s, a)
    ensures WakerInv(Next(s, a))
  {
    match a
    case OwnerStep => WakerOwner(s);
    case CbStep(k) => WakerCallback(s, k);
    case Fire(k, _, _) =>
    case IssueAsync =>
    case IssueInline(_, _) =>
    case PollStart =>
    case CancelStart(_) =>
  }

  lemma {:induction false} WakerHolds(run: seq<Action>)
    requires IsRun(UnderE, INIT, run)
    ensures WakerInv(Reached(run))
  {
    if run != [] {
      var before := run[..|run| - 1];
      InvariantHolds(before);
      WakerHolds(before);
      WakerStep(Reached(before), run[|run| - 1]);
    }
  }

  /** The exact condition, for every operation that was scheduled with no earlier callback
      left, however often it was polled for since: at rest in Ready with its callback
      retired, the task holds a wake-up if and only if it held one when it scheduled and has
      not polled since, or no waiting cancel met the operation while it was pending and the
      slot was full when it scheduled or a later poll registered before the wake. */
  lemma WokenExactlyWhen(run: seq<Action>)
    requires IsRun(UnderE, INIT, run) && Reached(run).seen.alone
    requires Reached(run).st.Ready? && Reached(run).pc.Out? && Reached(run).past.gen !in Reached(run).cbs
    ensures
      var s := Reached(run);
      s.seen.notified <==> s.seen.told || (!WaitCancelled(s, s.past.gen) && SlotFull(s))
  {
    InvariantHolds(run);
    WakerHolds(run);
    ReadyMeansWritten(run);
    CurrentClaim(V(Reached(run)));
  }

  // ---- Whatever callbacks are left ------------------------------------------------------------

  function LabelOf(s: Half, a: Action): Label
    requires Enabled(s, a)
  {
    match a
    case PollStart => PollBegins
    case OwnerStep =>
      if s.pc.Register? || s.pc.InlineRegister? then Registers
      else if s.pc.Schedule? && s.st.Idle? then Schedules
      else Silent
    case CbStep(k) => if s.cbs[k].pc.Wake? then Wakes(k) else Silent
    case _ => Silent
  }

  ghost function Labels(run: seq<Action>): (ls: seq<Label>)
    requires IsRun(UnderE, INIT, run)
    ensures |ls| == |run|
  {
    if run == [] then []
    else
      var before := run[..|run| - 1];
      Labels(before) + [LabelOf(Reached(before), run[|run| - 1])]
  }

  /** What a step with this label does to the slot and the task. */
  predicate Hears(s: Half, t: Half, x: Label) {
    && t.waker == (match x case Registers => true case Wakes(_) => false case _ => s.waker)
    && t.seen.notified == (match x case PollBegins => false case Wakes(_) => s.seen.notified || s.waker
                                   case _ => s.seen.notified)
  }

  lemma OwnerHears(s: Half)
    requires Enabled(s, OwnerStep)
    ensures Hears(s, OwnerNext(s), LabelOf(s, OwnerStep))
  {
  }

  lemma CallbackHears(s: Half, k: Key)
    requires Enabled(s, CbStep(k))
    ensures Hears(s, CbNext(s, k), LabelOf(s, CbStep(k)))
  {
  }

  lemma LabelTells(s: Half, a: Action, ls: seq<Label>)
    requires Enabled(s, a) && s.waker == Slot(ls) && s.seen.notified == Told(ls)
    ensures Next(s, a).waker == Slot(ls + [LabelOf(s, a)])
    ensures Next(s, a).seen.notified == Told(ls + [LabelOf(s, a)])
  {
    match a {
      case OwnerStep => OwnerHears(s);
      case CbStep(k) => CallbackHears(s, k);
      case _ =>
    }
    assert Hears(s, Next(s, a), LabelOf(s, a));
    assert (ls + [LabelOf(s, a)])[..|ls|] == ls;
  }

  lemma {:induction false} LabelsTell(run: seq<Action>)
    requires IsRun(UnderE, INIT, run)
    ensures Reached(run).waker == Slot(Labels(run)) && Reached(run).seen.notified == Told(Labels(run))
  {
    if run != [] {
      var before := run[..|run| - 1];
      LabelsTell(before);
      LabelTells(Reached(before), run[|run| - 1], Labels(before));
    }
  }

  /** The operation's result waits, and no poll has seen it. */
  predicate AtRest(s: Half) {
    s.st.Ready? && !s.pc.Finish? && !s.pc.Get? && !s.pc.SetIdle?
  }

  predicate NoPollSince(ls: seq<Label>, op: Key) {
    forall i, n :: 0 <= i < n < |ls| && ls[i] == Wakes(op) ==> !ls[n].PollBegins?
  }

  predicate NotYet(ls: seq<Label>, op: Key) {
    forall i :: 0 <= i < |ls| ==> ls[i] != Wakes(op)
  }

  /** An operation's own wake comes once, and no poll begins between it and the poll that
      takes the result. */
  ghost predicate OwnWake(s: Half, ls: seq<Label>) {
    && (forall i :: 0 <= i < |ls| && ls[i].Wakes? ==> ls[i].k <= s.past.gen)
    && (s.pc.Issue? || s.past.gen in s.cbs ==> NotYet(ls, s.past.gen))
    && (AtRest(s) ==> NoPollSince(ls, s.past.gen))
  }

  lemma OwnWakeExtends(s: Half, ls: seq<Label>, t: Half, x: Label)
    requires OwnWake(s, ls) && !x.Wakes? && !x.PollBegins? && t.past.gen >= s.past.gen
    requires t.past.gen == s.past.gen ==>
               && (t.pc.Issue? || t.past.gen in t.cbs ==> s.pc.Issue? || s.past.gen in s.cbs)
               && (AtRest(t) ==> AtRest(s) || s.past.gen in s.cbs)
    ensures OwnWake(t, ls + [x])
  {
  }

  lemma OwnerRests(s: Half)
    ensures
      var t := OwnerNext(s);
      && t.past.gen >= s.past.gen
      && (t.past.gen == s.past.gen ==> t.cbs == s.cbs && (t.pc.Issue? ==> s.pc.Issue?) && (AtRest(t) ==> AtRest(s)))
  {
  }

  lemma OwnWakeOwner(s: Half, ls: seq<Label>)
    requires OwnWake(s, ls) && Enabled(s, OwnerStep)
    ensures OwnWake(Next(s, OwnerStep), ls + [LabelOf(s, OwnerStep)])
  {
    OwnerRests(s);
    OwnWakeExtends(s, ls, Next(s, OwnerStep), LabelOf(s, OwnerStep));
  }

  lemma OwnWakeCallback(s: Half, ls: seq<Label>, k: Key)
    requires Inv(s) && OwnWake(s, ls) && Enabled(s, CbStep(k))
    ensures OwnWake(Next(s, CbStep(k)), ls + [LabelOf(s, CbStep(k))])
  {
    var v := V(s);
    if !s.cbs[k].pc.Wake? { OnlyCurrent(s, k); }
  }

  lemma OwnWakeStep(s: Half, ls: seq<Label>, a: Action)
    requires Inv(s) && OwnWake(s, ls) && Enabled(s, a) && AllowedE(s, a)
    ensures OwnWake(Next(s, a), ls + [LabelOf(s, a)])
  {
    match a
    case OwnerStep => OwnWakeOwner(s, ls);
    case CbStep(k) => OwnWakeCallback(s, ls, k);
    case Fire(k, _, _) =>
    case IssueAsync =>
    case IssueInline(_, _) =>
    case PollStart =>
    case CancelStart(_) =>
  }

  lemma {:induction false} OwnWakeHolds(run: seq<Action>)
    requires IsRun(UnderE, INIT, run)
    ensures OwnWake(Reached(run), Labels(run))
  {
    if run != [] {
      var before := run[..|run| - 1];
      InvariantHolds(before);
      OwnWakeHolds(before);
      OwnWakeStep(Reached(before), Labels(before), run[|run| - 1]);
    }
  }

  /** What the state remembers of when the operation was scheduled. */
  ghost predicate Remembers(s: Half, ls: seq<Label>, q: nat) {
    && ScheduledAt(ls, q)
    && s.seen.slotAtSchedule == Slot(ls[..q])
    && s.seen.told == (Told(ls[..q]) && forall n :: q < n < |ls| ==> !ls[n].PollBegins?)
    && (forall i :: 0 <= i <= q ==> ls[i] != Wakes(s.past.gen))
  }

  ghost predicate SomeSchedule(s: Half, ls: seq<Label>) {
    if s.past.gen >= 1 then exists q: nat :: Remembers(s, ls, q)
    else s.past.asyncOps == {} && !s.pc.Issue?
  }

  lemma RemembersScheduling(s: Half, ls: seq<Label>)
    requires s.pc.Schedule? && s.st.Idle? && OwnWake(s, ls)
    requires s.waker == Slot(ls) && s.seen.notified == Told(ls)
    ensures Remembers(Next(s, OwnerStep), ls + [Schedules], |ls|) && Next(s, OwnerStep).past.gen >= 1
  {
    ScheduleSees(s);
    assert (ls + [Schedules])[..|ls|] == ls;
  }

  lemma ScheduleSees(s: Half)
    requires s.pc.Schedule? && s.st.Idle?
    ensures var t := OwnerNext(s);
            t.past.gen == s.past.gen + 1 && t.seen.slotAtSchedule == s.waker && t.seen.told == s.seen.notified
  {
  }

  lemma RemembersMore(s: Half, ls: seq<Label>, q: nat, t: Half, x: Label)
    requires Remembers(s, ls, q) && !x.Schedules? && t.past.gen == s.past.gen
    requires t.seen.slotAtSchedule == s.seen.slotAtSchedule
    requires t.seen.told == (s.seen.told && !x.PollBegins?)
    ensures Remembers(t, ls + [x], q)
  {
    var more := ls + [x];
    assert more[..q] == ls[..q];
    if forall n :: q < n < |more| ==> !more[n].PollBegins? {
      forall n | q < n < |ls|
        ensures !ls[n].PollBegins?
      {
        assert !more[n].PollBegins?;
      }
      assert !more[|ls|].PollBegins?;
    }
  }

  /** A step from `s` to `t` that schedules nothing; `polls` if a poll begins. */
  predicate SameSchedule(s: Half, t: Half, polls: bool) {
    && t.past.gen == s.past.gen && t.seen.slotAtSchedule == s.seen.slotAtSchedule
    && t.seen.told == (s.seen.told && !polls)
    && (t.past.asyncOps == s.past.asyncOps || s.pc.Issue?) && (t.pc.Issue? ==> s.pc.Issue?)
  }

  predicate Cancelling(pc: Pc) {
    pc.CancelCheck? || pc.CancelSwap? || pc.CancelCall? || pc.CancelSpin?
  }

  lemma CancelSchedulesNothing(s: Half)
    requires Cancelling(s.pc)
    ensures SameSchedule(s, OwnerNext(s), false)
  {
  }

  lemma PollSchedulesNothing(s: Half)
    requires !Cancelling(s.pc) && !(s.pc.Schedule? && s.st.Idle?)
    ensures SameSchedule(s, OwnerNext(s), false)
  {
  }

  lemma OwnerSchedulesNothing(s: Half)
    requires !(s.pc.Schedule? && s.st.Idle?)
    ensures SameSchedule(s, OwnerNext(s), false)
  {
    if Cancelling(s.pc) {
      CancelSchedulesNothing(s);
    } else {
      PollSchedulesNothing(s);
    }
  }

  lemma CallbackSchedulesNothing(s: Half, k: Key)
    requires k in s.cbs
    ensures SameSchedule(s, CbNext(s, k), false)
  {
  }

  lemma KeepsSchedule(s: Half, a: Action)
    requires Enabled(s, a) && !LabelOf(s, a).Schedules?
    ensures SameSchedule(s, Next(s, a), LabelOf(s, a).PollBegins?)
  {
    match a
    case OwnerStep => OwnerSchedulesNothing(s);
    case CbStep(k) => CallbackSchedulesNothing(s, k);
    case _ =>
  }

  lemma {:induction false} ScheduleRemembered(run: seq<Action>)
    requires IsRun(UnderE, INIT, run)
    ensures SomeSchedule(Reached(run), Labels(run))
  {
    if run != [] {
      var before, a := run[..|run| - 1], run[|run| - 1];
      var s, ls := Reached(before), Labels(before);
      ScheduleRemembered(before);
      if LabelOf(s, a).Schedules? {
        OwnWakeHolds(before);
        LabelsTell(before);
        RemembersScheduling(s, ls);
      } else {
        KeepsSchedule(s, a);
        if s.past.gen >= 1 {
          var q: nat :| Remembers(s, ls, q);
          RemembersMore(s, ls, q, Next(s, a), LabelOf(s, a));
        }
      }
    }
  }

  /** Step `k` is a wake since the operation was scheduled, that found the slot full: its own
      callback's, or an earlier one's that no poll has followed. */
  ghost predicate Tells(s: Half, ls: seq<Label>, q: nat, k: nat) {
    && q < k < |ls| && ls[k].Wakes? && FullSince(ls, q, k, s.seen.slotAtSchedule)
    && (ls[k].k == s.past.gen || forall n :: k < n < |ls| ==> !ls[n].PollBegins?)
  }

  ghost predicate SomeTells(s: Half, ls: seq<Label>) {
    exists q: nat, k: nat :: ScheduledAt(ls, q) && Tells(s, ls, q, k)
  }

  lemma TellsIsUnanswered(s: Half, ls: seq<Label>, q: nat, k: nat)
    requires OwnWake(s, ls) && AtRest(s) && Remembers(s, ls, q) && q < k
    ensures Tells(s, ls, q, k) <==> Unanswered(ls, k)
  {
    if k < |ls| {
      FullIsFullSince(ls, q, k);
    }
  }

  lemma OneSchedule(ls: seq<Label>, q: nat, p: nat)
    requires ScheduledAt(ls, q) && ScheduledAt(ls, p)
    ensures p == q
  {
  }

  lemma ToldSince(s: Half, ls: seq<Label>, q: nat)
    requires OwnWake(s, ls) && AtRest(s) && Remembers(s, ls, q)
    ensures Told(ls) <==> s.seen.told || SomeTells(s, ls)
  {
    ToldIsUnanswered(ls);
    ToldBefore(ls, q);
    if Told(ls) && !s.seen.told {
      var k: nat :| Unanswered(ls, k);
      assert k != q;
      TellsIsUnanswered(s, ls, q, k);
      assert ScheduledAt(ls, q) && Tells(s, ls, q, k);
    }
    if SomeTells(s, ls) {
      var p: nat, k: nat :| ScheduledAt(ls, p) && Tells(s, ls, p, k);
      OneSchedule(ls, q, p);
      TellsIsUnanswered(s, ls, q, k);
    }
  }

  /** For every run under E, whatever earlier callbacks are left: at rest in Ready, the task
      holds a wake-up if and only if it held one when it scheduled and has not polled since, or
      a wake since then, the operation's own or an earlier callback's that no poll has followed,
      found a registration made since with no wake in between, or the slot as full as it was
      at scheduling, again with no wake in between. */
  lemma ToldExactlyWhen(run: seq<Action>)
    requires IsRun(UnderE, INIT, run) && Reached(run).st.Ready? && Reached(run).pc.Out?
    ensures Reached(run).seen.notified <==> Reached(run).seen.told || SomeTells(Reached(run), Labels(run))
  {
    var s, ls := Reached(run), Labels(run);
    InvariantHolds(run);
    LabelsTell(run);
    OwnWakeHolds(run);
    ScheduleRemembered(run);
    assert WhenReady(V(s));
    var q: nat :| Remembers(s, ls, q);
    ToldSince(s, ls, q);
  }
}
