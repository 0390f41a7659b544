/** What one half guarantees in every run under assumption E. */
module HalfTheorems {
  import opened IoStates
  import opened IoResults
  import opened HalfModel
  import opened HalfInvariant

  ghost function Reached(run: seq<Action>): Half
    requires IsRun(UnderE, INIT, run)
  {
    Exec(UnderE, INIT, run)
  }

  lemma {:induction false} InvariantHolds(run: seq<Action>)
    requires IsRun(UnderE, INIT, run)
    ensures Inv(Reached(run))
  {
    if run != [] {
      var before := run[..|run| - 1];
      InvariantHolds(before);
      StepKeeps(Reached(before), run[|run| - 1]);
    }
  }

  // ---- Ready, and the claims ------------------------------------------------------

  /** The cancel whose callback publishes Ready without a result. */
  predicate WaitCancelled(s: Half, op: Key) {
    CancelOf(s, op) == Once(Swap(true, Pending))
  }

  /** Ready means that the cell holds what the kernel reported for the current operation,
      exactly when that operation did not meet a waiting cancel while pending. */
  lemma ReadyMeansWritten(run: seq<Action>)
    requires IsRun(UnderE, INIT, run) && Reached(run).st.Ready?
    ensures
      var s := Reached(run);
      && s.past.gen in s.past.asyncOps && s.past.gen in s.past.kernel
      && (s.cell == Written(s.past.gen, s.past.kernel[s.past.gen]) <==> !WaitCancelled(s, s.past.gen))
  {
    InvariantHolds(run);
    assert WhenReady(V(Reached(run)));
  }

  function Total(t: Tally): nat {
    t.pending + t.nowait + t.wait
  }

  predicate BeforeClaim(s: Half, k: Key) {
    k in s.cbs && Stage(s.cbs[k].pc) <= 4
  }

  lemma CurrentClaim(v: View)
    requires Present(v) && v.o.pending
    ensures v.o.stage <= 4 ==> v.o.won == NO_CLAIM
    ensures v.o.stage >= 5 ==> v.o.won == ExpectedTally(v.o.cancel)
  {
  }

  predicate ClaimedOnce(s: Half, op: Key) {
    if BeforeClaim(s, op) then Wins(s, op) == NO_CLAIM
    else Total(Wins(s, op)) == 1 && Wins(s, op) == ExpectedTally(CancelOf(s, op))
  }

  lemma ExpectedIsOne(c: Cancelled)
    ensures Total(ExpectedTally(c)) == 1
  {
  }

  lemma PastClaimed(s: Half, op: Key)
    requires PastClaims(s) && Callbacks(s) && op in s.past.asyncOps && op < s.past.gen
    ensures ClaimedOnce(s, op)
  {
    assert !BeforeClaim(s, op);
    ExpectedIsOne(CancelOf(s, op));
  }

  lemma CurrentClaimed(s: Half)
    requires Present(V(s)) && s.past.gen in s.past.asyncOps
    ensures ClaimedOnce(s, s.past.gen)
  {
    var o := V(s).o;
    CurrentClaim(V(s));
    assert BeforeClaim(s, s.past.gen) <==> o.stage <= 4;
    assert o.won == Wins(s, s.past.gen) && o.cancel == CancelOf(s, s.past.gen);
    ExpectedIsOne(o.cancel);
  }

  lemma ClaimInState(s: Half, op: Key)
    requires Inv(s) && op in s.past.asyncOps
    ensures ClaimedOnce(s, op)
  {
    assert op <= s.past.gen;
    if op == s.past.gen {
      CurrentClaimed(s);
    } else {
      PastClaimed(s, op);
    }
  }

  /** A pending operation's callback wins exactly one of its three claims, the one its
      cancel implies; until then it has won none. */
  lemma OneClaimEach(run: seq<Action>, op: Key)
    requires IsRun(UnderE, INIT, run) && op in Reached(run).past.asyncOps
    ensures ClaimedOnce(Reached(run), op)
  {
    InvariantHolds(run);
    ClaimInState(Reached(run), op);
  }

  /** Its last claim, once the other two have failed, cannot fail: it never falls through. */
  lemma NeverFallsThrough(run: seq<Action>, op: Key)
    requires IsRun(UnderE, INIT, run)
    requires op in Reached(run).past.asyncOps && op in Reached(run).cbs && Reached(run).cbs[op].pc.CasWait?
    ensures Reached(run).st.CancelledWait?
  {
    InvariantHolds(run);
    OnlyCurrent(Reached(run), op);
  }

  // ---- The spin on Scheduling --------------------------------------------------------

  predicate Spinning(s: Half, k: Key) {
    k in s.cbs && s.cbs[k].pc.Spin? && s.st.Scheduling?
  }

  /** How many steps of its poll the owner still takes before the word changes. */
  function OwnerLeft(s: Half): nat {
    match s.pc
    case InlineRegister(_) => 2
    case InlineIdle(_) => 1
    case SetPending => 1
    case _ => 0
  }

  /** While a callback spins the owner is in a poll that has at most two steps left before the
      word changes; each of them brings that nearer and nobody else's step undoes it. */
  lemma SpinEnds(s: Half, k: Key, a: Action)
    requires Inv(s) && Spinning(s, k) && Enabled(s, a) && AllowedE(s, a)
    ensures OwnerLeft(s) > 0 && Enabled(s, OwnerStep)
    ensures var t := Next(s, a);
            Spinning(t, k) ==> OwnerLeft(t) == (if a.OwnerStep? then OwnerLeft(s) - 1 else OwnerLeft(s))
  {
    OnlyCurrent(s, k);
    assert WhenScheduling(V(s));
  }

  // ---- Deliveries -----------------------------------------------------------------

  /** Every result that left the half, in order: no operation delivers twice, and later
      operations deliver later. */
  predicate InOrder(log: seq<Delivery>) {
    forall i, j :: 0 <= i < j < |log| ==> log[i].op < log[j].op
  }

  /** What a poll returned through the finish branch is the operation's own result, unless
      the operation met a waiting cancel while pending; then it never is. */
  predicate Delivered(s: Half, d: Delivery) {
    d.Finished? ==>
      && d.op in s.past.asyncOps && d.op in s.past.kernel
      && (d.got == Written(d.op, s.past.kernel[d.op]) <==> !WaitCancelled(s, d.op))
  }

  predicate LogBounded(s: Half) {
    forall i :: 0 <= i < |s.past.log| ==>
      s.past.log[i].op <= s.past.gen && (s.past.log[i].op == s.past.gen ==> s.st.Idle?)
  }

  predicate LogOk(s: Half) {
    && InOrder(s.past.log)
    && LogBounded(s)
    && forall i :: 0 <= i < |s.past.log| ==> Delivered(s, s.past.log[i])
  }

  lemma FinishIsRight(s: Half)
    requires Inv(s) && s.pc.SetIdle?
    ensures Delivered(Next(s, OwnerStep), Finished(s.past.gen, s.pc.got))
  {
    assert WhenReady(V(s));
  }

  lemma LogGrows(s: Half, d: Delivery)
    requires LogOk(s) && !s.st.Idle? && d.op == s.past.gen
    requires Delivered(s, d)
    ensures InOrder(s.past.log + [d])
    ensures forall i :: 0 <= i <= |s.past.log| ==>
              (s.past.log + [d])[i].op <= s.past.gen && Delivered(s, (s.past.log + [d])[i])
  {
  }

  lemma LogKept(s: Half, t: Half)
    requires LogOk(s) && t.past.log == s.past.log
    requires t.past.gen >= s.past.gen && (t.past.gen == s.past.gen ==> t.st.Idle? || !s.st.Idle?)
    requires s.past.asyncOps <= t.past.asyncOps
    requires forall op :: op in s.past.kernel ==> op in t.past.kernel && t.past.kernel[op] == s.past.kernel[op]
    requires forall op :: op < s.past.gen || s.st.Idle? ==> CancelOf(t, op) == CancelOf(s, op)
    ensures LogOk(t)
  {
  }

  lemma LogSame(s: Half, t: Half)
    requires LogOk(s) && t.past == s.past && (s.st.Idle? ==> t.st.Idle?)
    ensures LogOk(t)
  {
  }

  lemma OwnerSamePast(s: Half)
    requires Enabled(s, OwnerStep) && !s.pc.SetIdle? && !s.pc.InlineIdle? && !s.pc.CancelSwap?
    requires !(s.pc.Schedule? && s.st.Idle?)
    requires s.pc.SetPending? ==> s.st.Scheduling?
    ensures Next(s, OwnerStep).past == s.past && (s.st.Idle? ==> Next(s, OwnerStep).st.Idle?)
  {
  }

  lemma LogSwap(s: Half)
    requires Inv(s) && LogOk(s) && s.pc.CancelSwap?
    ensures LogOk(Next(s, OwnerStep))
  {
    LogKept(s, Next(s, OwnerStep));
  }

  lemma LogFinish(s: Half)
    requires Inv(s) && LogOk(s) && s.pc.SetIdle?
    ensures LogOk(Next(s, OwnerStep))
  {
    FinishIsRight(s);
    LogGrows(s, Finished(s.past.gen, s.pc.got));
  }

  lemma LogInline(s: Half)
    requires Inv(s) && LogOk(s) && s.pc.InlineIdle?
    ensures LogOk(Next(s, OwnerStep))
  {
    LogGrows(s, Inline(s.past.gen, s.pc.res));
  }

  lemma LogSchedule(s: Half)
    requires Inv(s) && LogOk(s) && s.pc.Schedule? && s.st.Idle?
    ensures LogOk(Next(s, OwnerStep))
  {
    LogKept(s, Next(s, OwnerStep));
  }

  lemma LogOther(s: Half)
    requires Inv(s) && LogOk(s) && Enabled(s, OwnerStep)
    requires !s.pc.SetIdle? && !s.pc.InlineIdle? && !s.pc.CancelSwap? && !(s.pc.Schedule? && s.st.Idle?)
    ensures LogOk(Next(s, OwnerStep))
  {
    OwnerSamePast(s);
    LogSame(s, Next(s, OwnerStep));
  }

  lemma LogOwner(s: Half)
    requires Inv(s) && LogOk(s) && Enabled(s, OwnerStep)
    ensures LogOk(Next(s, OwnerStep))
  {
    if s.pc.SetIdle? {
      LogFinish(s);
    } else if s.pc.InlineIdle? {
      LogInline(s);
    } else if s.pc.CancelSwap? {
      LogSwap(s);
    } else if s.pc.Schedule? && s.st.Idle? {
      LogSchedule(s);
    } else {
      LogOther(s);
    }
  }

  lemma LogCallback(s: Half, k: Key)
    requires Inv(s) && LogOk(s) && Enabled(s, CbStep(k))
    ensures LogOk(Next(s, CbStep(k)))
  {
    if !s.cbs[k].pc.Wake? { OnlyCurrent(s, k); }
    assert s.st.Idle? && s.past.gen !in s.past.asyncOps ==> WhenIdle(V(s));
    LogKept(s, Next(s, CbStep(k)));
  }

  lemma LogStep(s: Half, a: Action)
    requires Inv(s) && LogOk(s) && Enabled(s, a) && AllowedE(s, a)
    ensures LogOk(Next(s, a))
  {
    match a
    case OwnerStep => LogOwner(s);
    case CbStep(k) => LogCallback(s, k);
    case Fire(k, _, _) => OnlyCurrent(s, k); LogKept(s, Next(s, a));
    case IssueAsync => LogKept(s, Next(s, a));
    case IssueInline(_, _) => LogSame(s, Next(s, a));
    case PollStart => LogSame(s, Next(s, a));
    case CancelStart(_) => LogSame(s, Next(s, a));
  }

  /** In every run under E: results come out in schedule order, none twice, and each one
      delivered through the finish branch is its operation's own result if and only if the
      operation did not meet a waiting cancel while pending. */
  lemma {:induction false} DeliveriesAreRight(run: seq<Action>)
    requires IsRun(UnderE, INIT, run)
    ensures LogOk(Reached(run))
  {
    if run != [] {
      var before := run[..|run| - 1];
      InvariantHolds(before);
      DeliveriesAreRight(before);
      LogStep(Reached(before), run[|run| - 1]);
    }
  }

  // ---- What was delivered, in terms of what the kernel reported -----------------------

  /** Operations are completed once: a completion is only reported for a callback still owed. */
  predicate ReportsOnce(s: Half) {
    && (forall k :: k in s.past.kernel ==> Owed(k) && k <= s.past.gen && (s.pc.Issue? ==> k < s.past.gen))
    && (forall k :: k in s.cbs && Owed(k) ==> k <= s.past.gen && (s.pc.Issue? ==> k < s.past.gen))
    && (forall k :: k in s.past.kernel && k in s.cbs ==> !s.cbs[k].pc.Queued?)
  }

  /** Operation `k` has been completed with error `result` (0 for none) and `transferred` bytes,
      and that is what is on record. */
  predicate OnRecord(s: Half, k: Key, result: nat, transferred: nat) {
    k in s.past.kernel
    && (result == 0 ==> s.past.kernel[k] == Ok(transferred))
    && (result != 0 ==> s.past.kernel[k] == Err(result))
  }

  lemma OwnerReportsNothing(s: Half)
    requires ReportsOnce(s)
    ensures ReportsOnce(OwnerNext(s)) && OwnerNext(s).past.kernel == s.past.kernel
  {
    assert OwnerNext(s).cbs == s.cbs;
  }

  lemma CallbackReportsNothing(s: Half, k: Key)
    requires ReportsOnce(s) && k in s.cbs && !s.cbs[k].pc.Queued?
    ensures ReportsOnce(CbNext(s, k)) && CbNext(s, k).past.kernel == s.past.kernel
  {
  }

  lemma ReportStep(s: Half, a: Action)
    requires ReportsOnce(s) && Enabled(s, a)
    ensures ReportsOnce(Next(s, a))
    ensures forall k :: k in s.past.kernel ==>
              k in Next(s, a).past.kernel && Next(s, a).past.kernel[k] == s.past.kernel[k]
    ensures a.Fire? && Owed(a.k) ==> OnRecord(Next(s, a), a.k, a.result, a.transferred)
    ensures forall k :: k in Next(s, a).past.kernel && k !in s.past.kernel ==> a.Fire? && a.k == k
  {
    match a
    case OwnerStep => OwnerReportsNothing(s);
    case CbStep(k) => CallbackReportsNothing(s, k);
    case _ =>
  }

  /** In any run, what is on record for an operation is what its completion reported, whatever
      has happened since. */
  lemma {:induction false} RecordIsReported(g: Regime, run: seq<Action>)
    requires IsRun(g, INIT, run)
    ensures ReportsOnce(Exec(g, INIT, run))
    ensures forall j :: 0 <= j < |run| && run[j].Fire? && Owed(run[j].k) ==>
              OnRecord(Exec(g, INIT, run), run[j].k, run[j].result, run[j].transferred)
  {
    if run != [] {
      var before, a := run[..|run| - 1], run[|run| - 1];
      RecordIsReported(g, before);
      ReportStep(Exec(g, INIT, before), a);
    }
  }

  predicate CompletedIn(run: seq<Action>, k: Key) {
    exists j :: 0 <= j < |run| && run[j].Fire? && run[j].k == k
  }

  lemma CompletedBefore(run: seq<Action>, k: Key)
    requires run != [] && (CompletedIn(run[..|run| - 1], k) || (run[|run| - 1].Fire? && run[|run| - 1].k == k))
    ensures CompletedIn(run, k)
  {
    if CompletedIn(run[..|run| - 1], k) {
      var j :| 0 <= j < |run| - 1 && run[..|run| - 1][j].Fire? && run[..|run| - 1][j].k == k;
      assert run[j].Fire? && run[j].k == k;
    }
  }

  /** And only completions are on record. */
  lemma {:induction false} OnlyReportsOnRecord(g: Regime, run: seq<Action>, k: Key)
    requires IsRun(g, INIT, run) && k in Exec(g, INIT, run).past.kernel
    ensures CompletedIn(run, k)
  {
    if run != [] {
      var before, a := run[..|run| - 1], run[|run| - 1];
      RecordIsReported(g, before);
      ReportStep(Exec(g, INIT, before), a);
      if k in Exec(g, INIT, before).past.kernel {
        OnlyReportsOnRecord(g, before, k);
      }
      CompletedBefore(run, k);
    }
  }

  /** Each result that leaves through the finish branch comes after its operation's one
      completion, and is what that reported, an error as that error and no error as the bytes
      transferred, if and only if the operation met no waiting cancel while pending. */
  lemma DeliveredAsReported(run: seq<Action>, i: nat)
    requires IsRun(UnderE, INIT, run) && i < |Reached(run).past.log| && Reached(run).past.log[i].Finished?
    ensures
      var s, d := Reached(run), Reached(run).past.log[i];
      && CompletedIn(run, d.op)
      && forall j :: 0 <= j < |run| && run[j].Fire? && run[j].k == d.op ==>
           (d.got == Written(d.op, if run[j].result == 0 then Ok(run[j].transferred) else Err(run[j].result))
            <==> !WaitCancelled(s, d.op))
  {
    InvariantHolds(run);
    DeliveriesAreRight(run);
    RecordIsReported(UnderE, run);
    var s, d := Reached(run), Reached(run).past.log[i];
    assert Delivered(s, d);
    OwedWhenPending(run, d.op);
    OnlyReportsOnRecord(UnderE, run, d.op);
  }

  lemma PendingIsOwed(s: Half, a: Action, op: Key)
    requires Present(V(s)) && Enabled(s, a) && op !in s.past.asyncOps && op in Next(s, a).past.asyncOps
    ensures Owed(op)
  {
    assert a.IssueAsync? && op == s.past.gen;
    assert WhenScheduling(V(s));
  }

  lemma {:induction false} OwedWhenPending(run: seq<Action>, op: Key)
    requires IsRun(UnderE, INIT, run) && op in Reached(run).past.asyncOps
    ensures Owed(op)
  {
    if run != [] {
      var before := run[..|run| - 1];
      if op in Reached(before).past.asyncOps {
        OwedWhenPending(before, op);
      } else {
        InvariantHolds(before);
        PendingIsOwed(Reached(before), run[|run| - 1], op);
      }
    }
  }

  // ---- What a poll answers, by the word it starts on -------------------------------------

  /** One poll from its start on, with whatever other threads do in between. */
  predicate OnePoll(run: seq<Action>) {
    && run != [] && run[0].PollStart?
    && forall i :: 1 <= i < |run| ==> !run[i].PollStart? && !run[i].CancelStart?
  }

  /** A poll that started on Ready in `s0` has come to `s`. */
  predicate Delivering(s0: Half, s: Half) {
    && s.past.gen == s0.past.gen
    && if s.pc.Out? then s.past.log == s0.past.log + [Finished(s0.past.gen, s0.cell)]
       else s.past.log == s0.past.log && match s.pc
         case Finish => s.st.Ready? && s.cell == s0.cell
         case Get => s.st.Ready? && s.cell == s0.cell
         case SetIdle(got) => got == s0.cell
         case _ => false
  }

  predicate Starting(pc: Pc) {
    pc.Issue? || pc.InlineRegister? || pc.InlineIdle? || pc.SetPending? || pc.Out?
  }

  /** A poll that started on Idle in `s0` has come to `s`. */
  predicate Beginning(s0: Half, s: Half) {
    if s.pc.Finish? || s.pc.Schedule? then s.st.Idle? && s.past.gen == s0.past.gen
    else Starting(s.pc) && s.past.gen == s0.past.gen + 1
  }

  lemma DeliveringStep(s0: Half, s: Half, a: Action)
    requires Inv(s) && Delivering(s0, s) && Enabled(s, a) && AllowedE(s, a) && !a.PollStart? && !a.CancelStart?
    ensures Delivering(s0, Next(s, a))
  {
    if a.CbStep? && !s.cbs[a.k].pc.Wake? {
      OnlyCurrent(s, a.k);
    }
  }

  lemma IdleStays(s: Half, k: Key)
    requires Inv(s) && s.st.Idle? && k in s.cbs && !s.cbs[k].pc.Queued?
    ensures CbNext(s, k).st.Idle?
  {
    if !s.cbs[k].pc.Wake? {
      OnlyCurrent(s, k);
    }
  }

  lemma BeginningStep(s0: Half, s: Half, a: Action)
    requires Inv(s) && Beginning(s0, s) && Enabled(s, a) && AllowedE(s, a) && !a.PollStart? && !a.CancelStart?
    ensures Beginning(s0, Next(s, a))
  {
    if a.CbStep? && s.st.Idle? {
      IdleStays(s, a.k);
    }
  }

  predicate Answering(s0: Half, s: Half) {
    (s0.st.Ready? ==> Delivering(s0, s)) && (s0.st.Idle? ==> Beginning(s0, s))
  }

  lemma AnsweringStep(s0: Half, s: Half, a: Action)
    requires Inv(s) && Answering(s0, s) && Enabled(s, a) && AllowedE(s, a) && !a.PollStart? && !a.CancelStart?
    ensures Inv(Next(s, a)) && Answering(s0, Next(s, a))
  {
    StepKeeps(s, a);
    if s0.st.Ready? {
      DeliveringStep(s0, s, a);
    } else if s0.st.Idle? {
      BeginningStep(s0, s, a);
    }
  }

  lemma AnsweringBegins(s: Half)
    requires Inv(s) && s.pc.Out?
    ensures Inv(Next(s, PollStart)) && Answering(s, Next(s, PollStart))
  {
    StepKeeps(s, PollStart);
  }

  lemma {:induction false} PollUnderWay(s: Half, run: seq<Action>)
    requires Inv(s) && s.pc.Out? && IsRun(UnderE, s, run) && OnePoll(run)
    ensures Inv(Exec(UnderE, s, run)) && Answering(s, Exec(UnderE, s, run))
    decreases |run|
  {
    var before, a := run[..|run| - 1], run[|run| - 1];
    if before == [] {
      AnsweringBegins(s);
    } else {
      PollUnderWay(s, before);
      AnsweringStep(s, Exec(UnderE, s, before), a);
    }
  }

  /** A poll that finds the word Ready when it starts delivers what the cell holds, and one that
      finds it Idle makes one new call, whatever runs in between. */
  lemma PollAnswers(s: Half, run: seq<Action>)
    requires Inv(s) && s.pc.Out? && IsRun(UnderE, s, run) && OnePoll(run) && Exec(UnderE, s, run).pc.Out?
    ensures
      var t := Exec(UnderE, s, run);
      && (s.st.Ready? ==> t.past.log == s.past.log + [Finished(s.past.gen, s.cell)] && t.past.gen == s.past.gen)
      && (s.st.Idle? ==> t.past.gen == s.past.gen + 1)
  {
    PollUnderWay(s, run);
  }
}
