/** The invariant of one half under assumption E, with cancels of both kinds racing.

    Almost everything is about the current operation, so that part is stated of a
    small `View` of the state in which no map occurs; `History` says what stays true
    of the operations before it. */
module HalfInvariant {
  import opened IoStates
  import opened IoResults
  import opened HalfModel

  /** How far a callback has come. */
  function Stage(pc: CbPc): nat {
    match pc
    case Queued => 0
    case Spin => 1
    case CasPending => 2
    case CasNowait => 3
    case CasWait => 4
    case Set => 5
    case Publish => 6
    case PublishOnly => 7
    case Wake => 8
  }

  /** Nobody cancelled, or how. */
  datatype Cancelled = Never | Once(swap: Swap)

  /** The current operation; `stage` is its callback's, GONE when there is none. */
  datatype OpView = OpView(
    started: bool, stage: nat, pending: bool, fired: bool,
    valid: bool,      // the cell holds what the kernel reported for this operation
    cancel: Cancelled, won: Tally)

  datatype View = View(st: Word, pc: Pc, o: OpView,
    held: bool)       // what a poll got is what is in the cell

  const GONE: nat := 9

  function O(s: Half): OpView {
    var g := s.past.gen;
    OpView(
      g >= 1,
      if g in s.cbs then Stage(s.cbs[g].pc) else GONE,
      g in s.past.asyncOps,
      g in s.past.kernel,
      g in s.past.kernel && s.cell == Written(g, s.past.kernel[g]),
      CancelOf(s, g),
      Wins(s, g))
  }

  function V(s: Half): View {
    View(s.st, s.pc, O(s), s.pc.SetIdle? ==> s.pc.got == s.cell)
  }

  function CancelOf(s: Half, op: Key): Cancelled {
    if op in s.past.swaps then Once(s.past.swaps[op]) else Never
  }

  /** The one claim a pending operation's callback wins follows from the cancel it met. */
  function ExpectedTally(c: Cancelled): Tally {
    if c == Once(Swap(true, Pending)) then Tally(0, 0, 1)
    else if c == Once(Swap(false, Pending)) then Tally(0, 1, 0)
    else Tally(1, 0, 0)
  }

  predicate Settled(o: OpView) {
    o.fired && o.won == ExpectedTally(o.cancel) && (o.stage == 8 ==> o.won.wait == 0)
  }

  predicate OwnerOutside(pc: Pc) {
    pc.Out? || pc.Finish? || pc.Schedule? || pc.CancelCheck?
  }

  predicate WhenIdle(v: View) {
    && OwnerOutside(v.pc)
    && if v.o.pending then v.o.stage >= 8 && Settled(v.o) else v.o.stage <= 4 || v.o.stage == GONE
  }

  predicate WhenScheduling(v: View) {
    && v.o.started && v.o.cancel == Never && v.o.won == NO_CLAIM
    && match v.pc
       case Issue => !v.o.pending && v.o.stage == GONE && !v.o.fired
       case InlineRegister(_) => !v.o.pending && (v.o.stage <= 1 || v.o.stage == GONE)
       case InlineIdle(_) => !v.o.pending && (v.o.stage <= 1 || v.o.stage == GONE)
       case SetPending => v.o.pending && v.o.stage <= 1
       case _ => false
  }

  predicate WhenPending(v: View) {
    && v.o.pending
    && (OwnerOutside(v.pc) || v.pc.Register? || v.pc.CancelSwap?)
    && v.o.cancel == Never && v.o.won == NO_CLAIM
    && v.o.stage <= 2
  }

  predicate WhenCallback(v: View) {
    && v.o.pending && Settled(v.o)
    && (v.o.cancel.Once? ==> v.o.cancel.swap.landed == Pending)
    && (if v.o.cancel == Once(Swap(true, Pending)) then v.o.stage == 7 && (v.pc.CancelCall? || v.pc.CancelSpin?)
        else 5 <= v.o.stage <= 6 &&
             (OwnerOutside(v.pc) || v.pc.Register? || v.pc.CancelCall? || (v.pc.CancelSwap? && v.o.cancel == Never)))
    && (v.o.stage == 6 ==> v.o.valid)
  }

  predicate WhenReady(v: View) {
    && v.o.pending && Settled(v.o) && v.o.stage >= 8
    && (v.o.cancel.Once? ==> v.o.cancel.swap.landed != Ready)
    && (OwnerOutside(v.pc) || v.pc.Register? || v.pc.Get? || v.pc.SetIdle? || v.pc.CancelCall? || v.pc.CancelSpin?
        || (v.pc.CancelSwap? && v.o.cancel == Never))
    && (v.o.cancel != Once(Swap(true, Pending)) ==> v.o.valid)
  }

  predicate WhenCancelled(v: View, w: bool) {
    && v.o.pending && v.o.cancel.Once? && v.o.cancel.swap.wait == w
    && (if w then v.pc.CancelCall? || v.pc.CancelSpin? else OwnerOutside(v.pc) || v.pc.Register? || v.pc.CancelCall?)
    && match v.o.cancel.swap.landed
       case Pending => v.o.stage <= (if w then 4 else 3) && v.o.won == NO_CLAIM
       case Callback => 5 <= v.o.stage <= 6 && Settled(v.o) && (v.o.stage == 6 ==> v.o.valid)
       case Ready => v.o.stage >= 8 && Settled(v.o)
       case _ => false
  }

  predicate Present(v: View) {
    && v.held
    && v.o.stage <= GONE
    && (v.pc.CancelCall? ==> v.o.cancel.Once? && v.o.cancel.swap.wait == v.pc.wait)
    && (v.pc.CancelSpin? ==> v.o.cancel.Once? && v.o.cancel.swap.wait)
    && match v.st
       case Idle => WhenIdle(v)
       case Scheduling => WhenScheduling(v)
       case Pending => WhenPending(v)
       case Callback => WhenCallback(v)
       case Ready => WhenReady(v)
       case CancelledNowait => WhenCancelled(v, false)
       case CancelledWait => WhenCancelled(v, true)
  }

  /** An earlier callback has only its wake left; a callback that has started reports
      what the kernel reported. */
  predicate Callbacks(s: Half) {
    forall k :: k in s.cbs ==>
      && 1 <= k <= s.past.gen
      && (k < s.past.gen ==> s.cbs[k].pc.Wake? && k in s.past.asyncOps)
      && (if s.cbs[k].pc.Queued? then k !in s.past.kernel else k in s.past.kernel && s.past.kernel[k] == s.cbs[k].res)
  }

  /** A written cell was written by a callback that won a claim to write it. */
  predicate CellKnown(s: Half) {
    s.cell.Written? ==>
      && s.cell.writer in s.past.asyncOps
      && s.cell.writer in s.past.kernel
      && s.cell.res == s.past.kernel[s.cell.writer]
      && Wins(s, s.cell.writer).pending + Wins(s, s.cell.writer).nowait >= 1
  }

  /** History mentions only operations that exist. */
  predicate Bounded(s: Half) {
    && (forall op :: op in s.past.asyncOps ==> op <= s.past.gen)
    && (forall op :: op in s.past.kernel ==> op <= s.past.gen)
    && (forall op :: op in s.past.swaps ==> op in s.past.asyncOps)
    && (forall op :: op in s.past.wins ==> op in s.past.asyncOps)
  }

  /** A past pending operation's callback won exactly one claim, of the kind its cancel implies. */
  predicate PastClaims(s: Half) {
    forall op :: op in s.past.asyncOps && op < s.past.gen ==>
      op in s.past.kernel && Wins(s, op) == ExpectedTally(CancelOf(s, op))
  }

  predicate History(s: Half) {
    Callbacks(s) && CellKnown(s) && Bounded(s) && PastClaims(s)
  }

  predicate Inv(s: Half) {
    History(s) && Present(V(s))
  }

  /** Only the current operation's callback can be short of its wake. */
  lemma OnlyCurrent(s: Half, k: Key)
    requires Callbacks(s) && k in s.cbs && !s.cbs[k].pc.Wake?
    ensures k == s.past.gen
  {
  }

  /** What an owner's step does to the view of the current operation; scheduling
      makes another operation current and is not covered. */
  function OwnerOnView(v: View): View {
    match v.pc
    case Finish => v.(pc := if v.st.Ready? then Get else Schedule)
    case Get => v
    case SetIdle(_) => v.(st := Idle, pc := Out)
    case Schedule => v.(pc := Register)
    case InlineRegister(r) => v.(pc := InlineIdle(r))
    case InlineIdle(_) => v.(st := Idle, pc := Out)
    case SetPending => v.(st := Pending, pc := Out)
    case Register => v.(pc := Out)
    case CancelCheck(w) => v.(pc := if v.st.Pending? then CancelSwap(w) else Out)
    case CancelSwap(w) =>
      v.(st := Swapped(w), o := v.o.(cancel := Once(Swap(w, v.st))),
         pc := if v.st != CancelledNowait then CancelCall(w) else AfterCancel(w))
    case CancelCall(w) => v.(pc := AfterCancel(w))
    case CancelSpin => if Busy(v.st) then v else v.(pc := Out)
    case Out => v
    case Issue => v
  }

  lemma OwnerOnViewKeeps(v: View)
    requires Present(v) && !v.pc.Get? && !(v.pc.Schedule? && v.st.Idle?)
    ensures Present(OwnerOnView(v))
  {
  }

  predicate SameMaps(s: Half, t: Half) {
    t.past.(log := s.past.log) == s.past && t.cell == s.cell && t.cbs == s.cbs
  }

  /** Steps that touch none of the maps. */
  lemma SameHistory(s: Half, t: Half)
    requires History(s)
    requires SameMaps(s, t)
    ensures History(t)
  {
  }

  lemma ScheduleView(s: Half)
    requires Inv(s) && s.pc.Schedule? && s.st.Idle?
    ensures Present(V(Next(s, OwnerStep)))
  {
    var t := Next(s, OwnerStep);
    assert t.past.gen !in t.cbs && t.past.gen !in t.past.asyncOps && t.past.gen !in t.past.kernel;
    assert CancelOf(t, t.past.gen) == Never && Wins(t, t.past.gen) == NO_CLAIM;
  }

  lemma ScheduleHistory(s: Half)
    requires History(s) && WhenIdle(V(s)) && s.pc.Schedule? && s.st.Idle? && AllowedE(s, OwnerStep)
    ensures History(Next(s, OwnerStep))
  {
    var t := Next(s, OwnerStep);
    forall op | op in t.past.asyncOps && op < t.past.gen
      ensures op in t.past.kernel && Wins(t, op) == ExpectedTally(CancelOf(t, op))
    {
      assert op < s.past.gen || op == s.past.gen;
    }
  }

  lemma ScheduleKeeps(s: Half)
    requires Inv(s) && s.pc.Schedule? && s.st.Idle? && AllowedE(s, OwnerStep)
    ensures Inv(Next(s, OwnerStep))
  {
    assert WhenIdle(V(s));
    ScheduleView(s);
    ScheduleHistory(s);
  }

  lemma SwapKeeps(s: Half)
    requires Inv(s) && s.pc.CancelSwap?
    ensures Inv(Next(s, OwnerStep))
  {
    SwapHistory(s);
    OwnerOnViewKeeps(V(s));
    OwnerView(s);
  }

  lemma SwapHistory(s: Half)
    requires History(s) && s.pc.CancelSwap? && s.past.gen in s.past.asyncOps
    ensures History(Next(s, OwnerStep))
  {
    var t := Next(s, OwnerStep);
    assert forall op :: op < s.past.gen ==> CancelOf(t, op) == CancelOf(s, op);
    assert forall op :: Wins(t, op) == Wins(s, op);
  }

  lemma OwnerSameMaps(s: Half)
    requires Enabled(s, OwnerStep) && !s.pc.CancelSwap? && !(s.pc.Schedule? && s.st.Idle?)
    ensures SameMaps(s, Next(s, OwnerStep))
  {
  }

  lemma OwnerView(s: Half)
    requires V(s).held && Enabled(s, OwnerStep) && !s.pc.Get? && !(s.pc.Schedule? && s.st.Idle?)
    ensures V(Next(s, OwnerStep)) == OwnerOnView(V(s))
  {
    var t, v := V(Next(s, OwnerStep)), OwnerOnView(V(s));
    match s.pc
    case Finish => assert t == v;
    case SetIdle(_) => assert t == v;
    case Schedule => assert t == v;
    case InlineRegister(_) => assert t == v;
    case InlineIdle(_) => assert t == v;
    case SetPending => assert t == v;
    case Register => assert t == v;
    case CancelCheck(_) => assert t == v;
    case CancelSwap(_) => assert t == v;
    case CancelCall(_) => assert t == v;
    case CancelSpin => assert t == v;
  }

  lemma OwnerKeeps(s: Half)
    requires Inv(s) && Enabled(s, OwnerStep) && AllowedE(s, OwnerStep)
    ensures Inv(Next(s, OwnerStep))
  {
    var t := Next(s, OwnerStep);
    if s.pc.Schedule? && s.st.Idle? {
      ScheduleKeeps(s);
    } else if s.pc.CancelSwap? {
      SwapKeeps(s);
    } else {
      OwnerSameMaps(s);
      SameHistory(s, t);
      if s.pc.Get? {
        assert V(t) == V(s).(pc := SetIdle(s.cell));
      } else {
        OwnerView(s);
        OwnerOnViewKeeps(V(s));
      }
    }
  }

  lemma SpinKeeps(s: Half, k: Key, pc: CbPc)
    requires Inv(s) && k in s.cbs && k == s.past.gen
    requires 1 <= Stage(s.cbs[k].pc) <= 3 && Stage(pc) == Stage(s.cbs[k].pc) + 1
    requires !s.st.Scheduling?
    requires Stage(pc) == 3 ==> !s.st.Pending?
    requires Stage(pc) == 4 ==> !s.st.CancelledNowait?
    ensures Inv(At(s, k, pc))
  {
    var t := At(s, k, pc);
    assert V(t) == V(s).(o := V(s).o.(stage := Stage(pc)));
    assert Callbacks(t);
  }

  lemma ClaimKeeps(s: Half, k: Key)
    requires Inv(s) && k in s.cbs && k == s.past.gen
    requires
      || (s.cbs[k].pc.CasPending? && s.st.Pending?)
      || (s.cbs[k].pc.CasNowait? && s.st.CancelledNowait?)
      || (s.cbs[k].pc.CasWait? && s.st.CancelledWait?)
    ensures Inv(Next(s, CbStep(k)))
  {
    var v, t := V(s), Next(s, CbStep(k));
    assert v.o.pending && v.o.won == NO_CLAIM;
    assert V(t) == v.(st := Callback, o := v.o.(won := ExpectedTally(v.o.cancel),
                      stage := if s.cbs[k].pc.CasWait? then 7 else 5));
    assert Callbacks(t);
  }

  lemma SetKeeps(s: Half, k: Key)
    requires Inv(s) && k in s.cbs && k == s.past.gen && s.cbs[k].pc.Set?
    ensures Inv(Next(s, CbStep(k)))
  {
    var v, t := V(s), Next(s, CbStep(k));
    assert v.o.pending && v.held && Settled(v.o);
    assert V(t) == v.(o := v.o.(stage := 6, valid := true));
    assert Callbacks(t);
  }

  lemma PublishKeeps(s: Half, k: Key)
    requires Inv(s) && k in s.cbs && k == s.past.gen && (s.cbs[k].pc.Publish? || s.cbs[k].pc.PublishOnly?)
    ensures Inv(Next(s, CbStep(k)))
  {
    var v, t := V(s), Next(s, CbStep(k));
    assert V(t) == v.(st := Ready, o := v.o.(stage := if s.cbs[k].pc.Publish? then 8 else GONE));
    assert Callbacks(t);
  }

  /** Retiring: after a wake, or after all three claims failed. */
  lemma RetireKeeps(s: Half, k: Key)
    requires Inv(s) && k in s.cbs
    requires s.cbs[k].pc.Wake? || (s.cbs[k].pc.CasWait? && !s.st.CancelledWait?)
    ensures Inv(Next(s, CbStep(k)))
  {
    var v, t := V(s), Next(s, CbStep(k));
    assert V(t) == if k == s.past.gen then v.(o := v.o.(stage := GONE)) else v;
    assert Callbacks(t);
  }

  lemma CallbackKeeps(s: Half, k: Key)
    requires Inv(s) && Enabled(s, CbStep(k))
    ensures Inv(Next(s, CbStep(k)))
  {
    if !s.cbs[k].pc.Wake? {
      OnlyCurrent(s, k);
    }
    match s.cbs[k].pc
    case Spin =>
      if !s.st.Scheduling? { SpinKeeps(s, k, CasPending); }
    case CasPending =>
      if s.st.Pending? { ClaimKeeps(s, k); } else { SpinKeeps(s, k, CasNowait); }
    case CasNowait =>
      if s.st.CancelledNowait? { ClaimKeeps(s, k); } else { SpinKeeps(s, k, CasWait); }
    case CasWait =>
      if s.st.CancelledWait? { ClaimKeeps(s, k); } else { RetireKeeps(s, k); }
    case Set => SetKeeps(s, k);
    case Publish => PublishKeeps(s, k);
    case PublishOnly => PublishKeeps(s, k);
    case Wake => RetireKeeps(s, k);
  }

  lemma FireKeeps(s: Half, k: Key, r: nat, n: nat)
    requires Inv(s) && Enabled(s, Fire(k, r, n))
    ensures Inv(Next(s, Fire(k, r, n)))
  {
    OnlyCurrent(s, k);
    var v, t := V(s), Next(s, Fire(k, r, n));
    assert V(t) == v.(o := v.o.(stage := 1, fired := true, valid := V(t).o.valid));
  }

  lemma IssueKeeps(s: Half, a: Action)
    requires Inv(s) && Enabled(s, a) && (a.IssueAsync? || a.IssueInline?)
    ensures Inv(Next(s, a))
  {
    var v, t := V(s), Next(s, a);
    assert WhenScheduling(v);
    if a.IssueAsync? {
      assert V(t) == v.(pc := SetPending, o := v.o.(pending := true, stage := 0));
    } else {
      assert V(t) == v.(pc := InlineRegister(a.res), o := v.o.(stage := if a.posts then 0 else GONE));
    }
    assert Callbacks(t);
  }

  /** Every action of the regime keeps the invariant. */
  lemma StepKeeps(s: Half, a: Action)
    requires Inv(s) && Enabled(s, a) && AllowedE(s, a)
    ensures Inv(Next(s, a))
  {
    match a
    case OwnerStep => OwnerKeeps(s);
    case CbStep(k) => CallbackKeeps(s, k);
    case Fire(k, r, n) => FireKeeps(s, k, r, n);
    case IssueAsync => IssueKeeps(s, a);
    case IssueInline(_, _) => IssueKeeps(s, a);
    case PollStart => SameHistory(s, Next(s, a));
    case CancelStart(_) => SameHistory(s, Next(s, a));
  }
}
