/** A half is a one-slot mailbox: the simple form that the protocol refines. */
module HalfMailbox {
  import opened IoStates
  import opened IoResults
  import opened HalfModel
  import opened HalfInvariant
  import opened HalfTheorems

  /** Nothing under way, an operation under way, or its result waiting. */
  datatype Mailbox = Empty | InFlight(op: nat) | Full(op: nat, res: IoRes)

  datatype Event = Submit(op: nat) | Complete(op: nat, res: IoRes) | Deliver(op: nat, res: IoRes)

  predicate Accepts(m: Mailbox, e: Event) {
    match e
    case Submit(_) => m.Empty?
    case Complete(op, _) => m == InFlight(op)
    case Deliver(op, res) => m == Full(op, res)
  }

  function Transition(m: Mailbox, e: Event): Mailbox {
    match e
    case Submit(op) => InFlight(op)
    case Complete(op, res) => Full(op, res)
    case Deliver(_, _) => Empty
  }

  /** The mailbox that accepts all of `es` in turn ends as `m`. */
  ghost predicate Accepted(es: seq<Event>, m: Mailbox) {
    if es == [] then m == Empty
    else
      var e := es[|es| - 1];
      exists before: Mailbox :: Accepted(es[..|es| - 1], before) && Accepts(before, e) && Transition(before, e) == m
  }

  function Abs(s: Half): Mailbox {
    match s.st
    case Idle => Empty
    case Scheduling => if s.pc.SetPending? then InFlight(s.past.gen) else Empty
    case Pending => InFlight(s.past.gen)
    case Callback => InFlight(s.past.gen)
    case CancelledNowait => InFlight(s.past.gen)
    case CancelledWait => InFlight(s.past.gen)
    case Ready => if s.cell.Written? then Full(s.past.gen, s.cell.res) else Empty
  }

  /** What an action is to the mailbox; `[]` for the steps it does not see. */
  function Seen(s: Half, a: Action): seq<Event>
    requires Enabled(s, a)
  {
    match a
    case IssueAsync => [Submit(s.past.gen)]
    case CbStep(k) => if s.cbs[k].pc.Publish? then [Complete(s.past.gen, s.cbs[k].res)] else []
    case OwnerStep => if s.pc.SetIdle? && s.pc.got.Written? then [Deliver(s.past.gen, s.pc.got.res)] else []
    case _ => []
  }

  /** No swap landed on Ready, and no waiting one on Pending. */
  predicate Lossless(s: Half) {
    forall op :: op in s.past.swaps ==>
      s.past.swaps[op].landed != Ready && s.past.swaps[op] != Swap(true, Pending)
  }

  lemma SwapsOnlyGrow(s: Half, a: Action)
    requires Inv(s) && Enabled(s, a) && AllowedE(s, a) && Lossless(Next(s, a))
    ensures Lossless(s)
  {
    forall op | op in s.past.swaps
      ensures op in Next(s, a).past.swaps && Next(s, a).past.swaps[op] == s.past.swaps[op]
    {
    }
  }

  predicate Follows(m: Mailbox, es: seq<Event>, n: Mailbox) {
    if es == [] then n == m else |es| == 1 && Accepts(m, es[0]) && n == Transition(m, es[0])
  }

  lemma SwapFollows(s: Half)
    requires Inv(s) && s.pc.CancelSwap? && Lossless(Next(s, OwnerStep))
    ensures Follows(Abs(s), Seen(s, OwnerStep), Abs(Next(s, OwnerStep)))
  {
    var v := V(s);
    assert Next(s, OwnerStep).past.swaps[s.past.gen] == Swap(s.pc.wait, s.st);
  }

  lemma FinishFollows(s: Half)
    requires Inv(s) && s.pc.SetIdle? && Lossless(s)
    ensures Follows(Abs(s), Seen(s, OwnerStep), Abs(Next(s, OwnerStep)))
  {
    assert WhenReady(V(s));
    assert s.past.gen in s.past.swaps ==> s.past.swaps[s.past.gen] != Swap(true, Pending);
  }

  lemma OwnerFollows(s: Half)
    requires Inv(s) && Enabled(s, OwnerStep) && Lossless(Next(s, OwnerStep)) && Lossless(s)
    ensures Follows(Abs(s), Seen(s, OwnerStep), Abs(Next(s, OwnerStep)))
  {
    if s.pc.CancelSwap? {
      SwapFollows(s);
    } else if s.pc.SetIdle? {
      FinishFollows(s);
    } else {
      var v := V(s);
    }
  }

  lemma CallbackFollows(s: Half, k: Key)
    requires Inv(s) && Enabled(s, CbStep(k)) && Lossless(s)
    ensures Follows(Abs(s), Seen(s, CbStep(k)), Abs(Next(s, CbStep(k))))
  {
    if !s.cbs[k].pc.Wake? { OnlyCurrent(s, k); }
    assert s.past.gen in s.past.swaps ==> s.past.swaps[s.past.gen] != Swap(true, Pending);
  }

  lemma StepFollows(s: Half, a: Action)
    requires Inv(s) && Enabled(s, a) && AllowedE(s, a) && Lossless(Next(s, a))
    ensures Follows(Abs(s), Seen(s, a), Abs(Next(s, a)))
  {
    SwapsOnlyGrow(s, a);
    match a
    case OwnerStep => OwnerFollows(s);
    case CbStep(k) => CallbackFollows(s, k);
    case Fire(k, _, _) => OnlyCurrent(s, k);
    case IssueAsync =>
    case IssueInline(_, _) =>
    case PollStart =>
    case CancelStart(_) =>
  }

  /** The events a run shows. */
  ghost function Trace(run: seq<Action>): seq<Event>
    requires IsRun(UnderE, INIT, run)
  {
    if run == [] then []
    else
      var before := run[..|run| - 1];
      Trace(before) + Seen(Reached(before), run[|run| - 1])
  }

  lemma FollowedIsAccepted(es: seq<Event>, m: Mailbox, more: seq<Event>, n: Mailbox)
    requires Accepted(es, m) && Follows(m, more, n)
    ensures Accepted(es + more, n)
  {
    if more == [] {
      assert es + more == es;
    } else {
      assert (es + more)[..|es|] == es;
    }
  }

  /** Every run under E that loses nothing is a run of the mailbox: what a poll returns
      through the finish branch is what the kernel completed for the operation that was
      submitted last, once. */
  lemma {:induction false} RefinesMailbox(run: seq<Action>)
    requires IsRun(UnderE, INIT, run) && Lossless(Reached(run))
    ensures Accepted(Trace(run), Abs(Reached(run)))
  {
    if run != [] {
      var before, a := run[..|run| - 1], run[|run| - 1];
      var s := Reached(before);
      InvariantHolds(before);
      SwapsOnlyGrow(s, a);
      RefinesMailbox(before);
      StepFollows(s, a);
      FollowedIsAccepted(Trace(before), Abs(s), Seen(s, a), Abs(Next(s, a)));
    }
  }

  /** In the mailbox's own terms: a delivery follows the completion of the same operation
      with the same result, and that follows its submission, with nothing between. */
  lemma {:induction false} DeliveredAsCompleted(es: seq<Event>, m: Mailbox, i: nat)
    requires Accepted(es, m) && i < |es| && es[i].Deliver?
    ensures i >= 2 && es[i - 1] == Complete(es[i].op, es[i].res) && es[i - 2] == Submit(es[i].op)
    decreases |es|
  {
    var before: Mailbox :|
      Accepted(es[..|es| - 1], before) && Accepts(before, es[|es| - 1])
      && Transition(before, es[|es| - 1]) == m;
    if i < |es| - 1 {
      DeliveredAsCompleted(es[..|es| - 1], before, i);
    } else {
      var es1 := es[..|es| - 1];
      assert es1 != [];
      var b1: Mailbox :|
        Accepted(es1[..|es1| - 1], b1) && Accepts(b1, es1[|es1| - 1])
        && Transition(b1, es1[|es1| - 1]) == before;
      var es2 := es1[..|es1| - 1];
      assert es2 != [];
      var b2: Mailbox :|
        Accepted(es2[..|es2| - 1], b2) && Accepts(b2, es2[|es2| - 1])
        && Transition(b2, es2[|es2| - 1]) == b1;
    }
  }
}
