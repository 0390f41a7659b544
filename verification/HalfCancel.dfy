/** Cancelling: when `cancel(true)` returns, and what a cancel can lose. */
module HalfCancel {
  import opened IoStates
  import opened IoResults
  import opened HalfModel
  import opened HalfInvariant
  import opened HalfTheorems

  predicate CancelledWord(w: Word) {
    w.CancelledNowait? || w.CancelledWait?
  }

  /** The kernel owes the current operation a callback, or one is short of its wake. */
  predicate Outstanding(s: Half) {
    s.past.gen in s.cbs && !s.cbs[s.past.gen].pc.Wake?
  }

  /** The swap replaced Ready: a finished result was overwritten by a cancelled word. */
  predicate SwapLandedOnReady(s: Half) {
    CancelOf(s, s.past.gen).Once? && CancelOf(s, s.past.gen).swap.landed == Ready
  }

  predicate Lost(s: Half) {
    CancelledWord(s.st) && SwapLandedOnReady(s)
  }

  /** A swap replaces Pending, Callback or Ready only, so `cancel` always answers true and
      the operation's own cancel function is always called. */
  lemma SwapsLandWhere(run: seq<Action>)
    requires IsRun(UnderE, INIT, run) && Reached(run).pc.CancelSwap?
    ensures Reached(run).st.Pending? || Reached(run).st.Callback? || Reached(run).st.Ready?
    ensures Next(Reached(run), OwnerStep).pc == CancelCall(Reached(run).pc.wait)
  {
    InvariantHolds(run);
    var v := V(Reached(run));
  }

  /** The half is in a cancelled word with no callback outstanding exactly when the swap
      landed on Ready. */
  lemma LostExactlyWhen(run: seq<Action>)
    requires IsRun(UnderE, INIT, run) && CancelledWord(Reached(run).st)
    ensures !Outstanding(Reached(run)) <==> SwapLandedOnReady(Reached(run))
  {
    InvariantHolds(run);
    var v := V(Reached(run));
  }

  /** A pending operation's callback is still to claim or to use the cell. */
  predicate StillUnderWay(s: Half) {
    s.past.gen in s.past.asyncOps && Outstanding(s)
  }

  /** What a cancel finds when it returns without a swap and without waiting. */
  predicate PassedBy(s: Half) {
    s.st.Callback? || (s.st.CancelledNowait? && !SwapLandedOnReady(s))
  }

  /** A cancel, waiting or not, that does not swap returns at once, and the operation's
      callback is then still under way exactly if the cancel found Callback, or the word of
      an earlier cancel whose swap did not land on Ready. */
  lemma ReturnsAtOnceExactlyWhen(run: seq<Action>)
    requires IsRun(UnderE, INIT, run) && Reached(run).pc.CancelCheck?
    ensures
      var s := Reached(run);
      (OwnerNext(s).pc.Out? && StillUnderWay(OwnerNext(s))) <==> PassedBy(s)
  {
    InvariantHolds(run);
    var v := V(Reached(run));
    assert OwnerNext(Reached(run)).pc.Out? <==> !v.st.Pending?;
  }

  predicate InWaitingCancel(pc: Pc) {
    pc == CancelCall(true) || pc.CancelSpin?
  }

  lemma ActsOnCurrent(s: Half, a: Action)
    requires Callbacks(s) && Enabled(s, a)
    ensures a.Fire? || (a.CbStep? && !s.cbs[a.k].pc.Wake?) ==> a.k == s.past.gen
  {
    match a
    case Fire(k, _, _) => OnlyCurrent(s, k);
    case CbStep(k) => if !s.cbs[k].pc.Wake? { OnlyCurrent(s, k); }
    case _ =>
  }

  lemma LostStep(s: Half, a: Action)
    requires Inv(s) && Lost(s) && Enabled(s, a) && AllowedE(s, a)
    ensures Lost(Next(s, a)) && Next(s, a).past.log == s.past.log && Next(s, a).past.gen == s.past.gen
    ensures InWaitingCancel(s.pc) ==> InWaitingCancel(Next(s, a).pc)
  {
    var v := V(s);
    ActsOnCurrent(s, a);
  }

  /** Nothing leaves that state: whatever happens next, nothing is ever delivered or
      scheduled again, and a waiting cancel never returns. */
  lemma {:induction false} LostForever(s: Half, run: seq<Action>)
    requires Inv(s) && Lost(s) && IsRun(UnderE, s, run)
    ensures
      var t := Exec(UnderE, s, run);
      && Inv(t) && Lost(t) && t.past.log == s.past.log && t.past.gen == s.past.gen
      && (InWaitingCancel(s.pc) ==> InWaitingCancel(t.pc))
  {
    if run != [] {
      var before := run[..|run| - 1];
      LostForever(s, before);
      LostStep(Exec(UnderE, s, before), run[|run| - 1]);
      StepKeeps(Exec(UnderE, s, before), run[|run| - 1]);
    }
  }

  // ---- Waiting cancels that did not land on Ready -----------------------------------

  predicate Waiting(s: Half) {
    InWaitingCancel(s.pc) && CancelOf(s, s.past.gen).Once? && !SwapLandedOnReady(s)
  }

  /** How many steps the current operation's callback still takes before Ready. */
  function Rank(s: Half): nat {
    if O(s).stage >= 8 then 0 else 8 - O(s).stage
  }

  /** An action of the kernel or the callback of operation `k`. */
  predicate Progress(a: Action, k: Key) {
    (a.Fire? && a.k == k) || (a.CbStep? && a.k == k)
  }

  lemma RankAndWord(s: Half)
    requires Inv(s) && Waiting(s)
    ensures s.st.Ready? <==> Rank(s) == 0
    ensures !s.st.Ready? ==> s.past.gen in s.cbs && !s.cbs[s.past.gen].pc.Wake?
    ensures !s.st.Ready? ==> s.st.Callback? || s.st.CancelledWait?
  {
    var v := V(s);
  }

  /** While the word is not Ready, the callback can step. */
  lemma CallbackCanStep(s: Half)
    requires Inv(s) && Waiting(s) && !s.st.Ready?
    ensures exists b :: Progress(b, s.past.gen) && Enabled(s, b)
  {
    RankAndWord(s);
    var k := s.past.gen;
    assert if s.cbs[k].pc.Queued? then Enabled(s, Fire(k, 0, 0)) && Progress(Fire(k, 0, 0), k)
           else Enabled(s, CbStep(k)) && Progress(CbStep(k), k);
  }

  lemma CallbackRank(s: Half, k: Key)
    requires Inv(s) && Waiting(s) && !s.st.Ready? && Enabled(s, CbStep(k))
    ensures var t := CbNext(s, k);
            && Waiting(t) && t.past.gen == s.past.gen
            && (if k == s.past.gen then Rank(t) < Rank(s) else Rank(t) == Rank(s))
  {
    RankAndWord(s);
    var v := V(s);
    ActsOnCurrent(s, CbStep(k));
  }

  lemma OwnerRank(s: Half)
    requires Inv(s) && Waiting(s) && !s.st.Ready?
    ensures var t := OwnerNext(s);
            Waiting(t) && t.past.gen == s.past.gen && Rank(t) == Rank(s)
  {
    RankAndWord(s);
  }

  /** Each of its steps lowers the rank, and nobody else's step changes it. */
  lemma RankFalls(s: Half, a: Action)
    requires Inv(s) && Waiting(s) && !s.st.Ready? && Enabled(s, a) && AllowedE(s, a)
    ensures Waiting(Next(s, a)) && Next(s, a).past.gen == s.past.gen
    ensures Progress(a, s.past.gen) ==> Rank(Next(s, a)) < Rank(s)
    ensures !Progress(a, s.past.gen) ==> Rank(Next(s, a)) == Rank(s)
  {
    match a
    case CbStep(k) => CallbackRank(s, k);
    case OwnerStep => OwnerRank(s);
    case Fire(k, _, _) => RankAndWord(s); OnlyCurrent(s, k);
    case IssueAsync => RankAndWord(s);
    case IssueInline(_, _) => RankAndWord(s);
    case PollStart => RankAndWord(s);
    case CancelStart(_) => RankAndWord(s);
  }

  function Steps(run: seq<Action>, k: Key): nat {
    if run == [] then 0
    else Steps(run[..|run| - 1], k) + if Progress(run[|run| - 1], k) then 1 else 0
  }

  /** The owner makes no new call. */
  predicate NoNewCall(run: seq<Action>) {
    forall i :: 0 <= i < |run| ==> !run[i].PollStart? && !run[i].CancelStart?
  }

  predicate ReadyAndWaitingOrBack(s: Half) {
    s.st.Ready? && (InWaitingCancel(s.pc) || s.pc.Out?)
  }

  lemma OnlyWakesLeft(s: Half)
    requires Inv(s) && s.st.Ready?
    ensures forall k :: k in s.cbs ==> s.cbs[k].pc.Wake?
  {
    assert WhenReady(V(s));
    forall k | k in s.cbs
      ensures s.cbs[k].pc.Wake?
    {
      if !s.cbs[k].pc.Wake? { OnlyCurrent(s, k); }
    }
  }

  lemma ReadyStays(s: Half, a: Action)
    requires Inv(s) && ReadyAndWaitingOrBack(s) && Enabled(s, a) && AllowedE(s, a)
    requires !a.PollStart? && !a.CancelStart?
    ensures ReadyAndWaitingOrBack(Next(s, a)) && Next(s, a).past.gen == s.past.gen
  {
    OnlyWakesLeft(s);
  }

  lemma {:induction false} WaitAdvances(s: Half, run: seq<Action>)
    requires Inv(s) && Waiting(s) && IsRun(UnderE, s, run) && NoNewCall(run)
    ensures
      var t := Exec(UnderE, s, run);
      && Inv(t) && t.past.gen == s.past.gen
      && (ReadyAndWaitingOrBack(t) || (Waiting(t) && Rank(t) + Steps(run, s.past.gen) <= Rank(s)))
  {
    if run == [] {
    } else {
      var before, a := run[..|run| - 1], run[|run| - 1];
      var u := Exec(UnderE, s, before);
      WaitAdvances(s, before);
      StepKeeps(u, a);
      if u.st.Ready? {
        ReadyStays(u, a);
      } else {
        RankFalls(u, a);
      }
    }
  }

  /** Once the callback has taken as many steps as the rank says, however the others'
      steps fall between, the word is Ready: the wait loop's condition is false. */
  lemma WaitEnds(s: Half, run: seq<Action>)
    requires Inv(s) && Waiting(s) && IsRun(UnderE, s, run) && NoNewCall(run)
    requires Steps(run, s.past.gen) >= Rank(s)
    ensures Exec(UnderE, s, run).st.Ready?
  {
    WaitAdvances(s, run);
    var t := Exec(UnderE, s, run);
    if !ReadyAndWaitingOrBack(t) {
      RankAndWord(t);
    }
  }

  /** A waiting cancel returns only in Ready, after a swap that did not land on Ready, and
      then no callback touches the result cell any more: at most wakes are left. */
  lemma WaitLeavesQuietly(run: seq<Action>)
    requires IsRun(UnderE, INIT, run) && Reached(run).pc.CancelSpin? && Next(Reached(run), OwnerStep).pc.Out?
    ensures
      var s := Reached(run);
      s.st.Ready? && !SwapLandedOnReady(s) && forall k :: k in s.cbs ==> s.cbs[k].pc.Wake?
  {
    InvariantHolds(run);
    var v := V(Reached(run));
    OnlyWakesLeft(Reached(run));
  }
}
