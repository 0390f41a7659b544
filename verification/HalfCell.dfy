/** The contract of the result cell: whoever sets or gets holds the only active reference. */
module HalfCell {
  import opened IoStates
  import opened IoResults
  import opened HalfModel
  import opened HalfInvariant
  import opened HalfTheorems

  predicate Setting(s: Half, k: Key) {
    k in s.cbs && s.cbs[k].pc.Set?
  }

  /** No `set` overlaps another `set` or a `get`. */
  ghost predicate Exclusive(s: Half) {
    && (forall j, k :: Setting(s, j) && Setting(s, k) ==> j == k)
    && (forall k :: Setting(s, k) ==> !s.pc.Get?)
  }

  /** Under E, whatever cancels race, even when a swap overwrites Callback. */
  lemma ExclusiveUnderE(run: seq<Action>)
    requires IsRun(UnderE, INIT, run)
    ensures Exclusive(Reached(run))
  {
    var s := Reached(run);
    InvariantHolds(run);
    forall k | Setting(s, k)
      ensures k == s.past.gen && !s.pc.Get?
    {
      OnlyCurrent(s, k);
    }
  }

  predicate HasClaim(s: Half, k: Key) {
    k in s.cbs && (s.cbs[k].pc.Set? || s.cbs[k].pc.Publish?)
  }

  /** The other regime's invariant: the word is Callback exactly as long as a claim is held. */
  ghost predicate OneHolder(s: Half) {
    && (forall j, k :: HasClaim(s, j) && HasClaim(s, k) ==> j == k)
    && (forall k :: HasClaim(s, k) ==> s.st.Callback?)
    && (forall k :: k in s.cbs ==> !s.cbs[k].pc.PublishOnly?)
    && !s.st.CancelledNowait? && !s.st.CancelledWait?
    && !s.pc.CancelCheck? && !s.pc.CancelSwap? && !s.pc.CancelCall? && !s.pc.CancelSpin?
    && (s.pc.Get? || s.pc.SetIdle? ==> s.st.Ready?)
    && (s.pc.Issue? || s.pc.InlineRegister? || s.pc.InlineIdle? || s.pc.SetPending? ==> s.st.Scheduling?)
  }

  lemma OneHolderOwner(s: Half)
    requires OneHolder(s) && Enabled(s, OwnerStep)
    ensures OneHolder(Next(s, OwnerStep))
  {
    var t := Next(s, OwnerStep);
    assert t.cbs == s.cbs;
    assert forall k :: HasClaim(t, k) <==> HasClaim(s, k);
  }

  lemma OneHolderCallback(s: Half, k: Key)
    requires OneHolder(s) && Enabled(s, CbStep(k))
    ensures OneHolder(Next(s, CbStep(k)))
  {
    var t := Next(s, CbStep(k));
    assert s.cbs[k].pc.Set? || s.cbs[k].pc.Publish? ==> HasClaim(s, k) && s.st.Callback?;
    assert forall j :: j != k ==> (HasClaim(t, j) <==> HasClaim(s, j));
  }

  lemma OneHolderStep(s: Half, a: Action)
    requires OneHolder(s) && Enabled(s, a) && AllowedUncancelled(s, a)
    ensures OneHolder(Next(s, a))
  {
    match a
    case OwnerStep => OneHolderOwner(s);
    case CbStep(k) => OneHolderCallback(s, k);
    case Fire(k, _, _) => assert forall j :: HasClaim(Next(s, a), j) <==> HasClaim(s, j);
    case IssueAsync => assert forall j :: HasClaim(Next(s, a), j) ==> HasClaim(s, j);
    case IssueInline(_, _) => assert forall j :: HasClaim(Next(s, a), j) ==> HasClaim(s, j);
    case Inject(_) => assert forall j :: HasClaim(Next(s, a), j) ==> HasClaim(s, j);
    case PollStart => assert forall j :: HasClaim(Next(s, a), j) <==> HasClaim(s, j);
  }

  /** With any number of callbacks nobody asked for, as long as nobody cancels. */
  lemma {:induction false} ExclusiveUncancelled(run: seq<Action>)
    requires IsRun(Uncancelled, INIT, run)
    ensures Exclusive(Exec(Uncancelled, INIT, run)) && OneHolder(Exec(Uncancelled, INIT, run))
  {
    if run != [] {
      var before := run[..|run| - 1];
      ExclusiveUncancelled(before);
      OneHolderStep(Exec(Uncancelled, INIT, before), run[|run| - 1]);
    }
    var s := Exec(Uncancelled, INIT, run);
    assert forall k :: Setting(s, k) ==> HasClaim(s, k);
  }
}
