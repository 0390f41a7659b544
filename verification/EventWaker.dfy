/** When an `IoEvent` loses a wake-up: the exact order of steps, for every proper run. */
module EventWaker {
  import opened IoStates
  import opened IoResults
  import opened EventModel
  import opened WakeOrder
  import T = EventTheorems

  function LabelOf(s: Event, a: Action): Label
    requires Enabled(s, a)
  {
    match a
    case PollStart => PollBegins
    case OwnerStep => if s.pc.Register? || s.pc.RegisterPending? then Registers else Silent
    case CbStep(k) => if s.cbs[k].Wake? then Wakes(k) else Silent
    case _ => Silent
  }

  ghost function Labels(run: seq<Action>): (ls: seq<Label>)
    requires IsRun(Proper, INIT, run)
    ensures |ls| == |run|
  {
    if run == [] then []
    else
      var before := run[..|run| - 1];
      Labels(before) + [LabelOf(Exec(Proper, INIT, before), run[|run| - 1])]
  }

  // ---- The order that loses a wake-up --------------------------------------------------

  /** Step `i` is the wake of another operation's callback; it takes the registration made
      at `r`, and nobody registers again. */
  predicate Taken(ls: seq<Label>, op: Key, r: nat, i: nat) {
    && r < i < |ls| && FilledAt(ls[..i], r)
    && ls[i].Wakes? && ls[i].k != op && NoneAfter(ls, i)
  }

  predicate Answered(ls: seq<Label>, op: Key, r: nat, i: nat, j: nat) {
    Taken(ls, op, r, i) && i < j < |ls| && ls[j].PollBegins?
  }

  predicate Passed(ls: seq<Label>, op: Key, r: nat, i: nat, j: nat, k: nat) {
    Answered(ls, op, r, i, j) && j < k < |ls| && ls[k] == Wakes(op)
  }

  /** An earlier callback's wake took the operation's registration; the poll that answered it
      began before the operation's own wake but registered only after that; and no wake has
      come since. */
  predicate Missed(ls: seq<Label>, op: Key, r: nat, i: nat, j: nat, k: nat, m: nat) {
    && k < m < |ls| && Passed(ls[..m], op, r, i, j, k)
    && FilledAt(ls, m)
  }

  ghost predicate SomeTaken(ls: seq<Label>, op: Key) {
    exists r: nat, i: nat :: Taken(ls, op, r, i)
  }

  ghost predicate SomeAnswered(ls: seq<Label>, op: Key) {
    exists r: nat, i: nat, j: nat :: Answered(ls, op, r, i, j)
  }

  ghost predicate SomePassed(ls: seq<Label>, op: Key) {
    exists r: nat, i: nat, j: nat, k: nat :: Passed(ls, op, r, i, j, k)
  }

  ghost predicate SomeMissed(ls: seq<Label>, op: Key) {
    exists r: nat, i: nat, j: nat, k: nat, m: nat :: Missed(ls, op, r, i, j, k, m)
  }

  lemma FilledGrows(ls: seq<Label>, x: Label)
    ensures x.Registers? ==> SomeFilled(ls + [x])
    ensures SomeFilled(ls) && !x.Wakes? ==> SomeFilled(ls + [x])
  {
    if x.Registers? {
      assert FilledAt(ls + [x], |ls|);
    } else if SomeFilled(ls) && !x.Wakes? {
      var r: nat :| FilledAt(ls, r);
      assert FilledAt(ls + [x], r);
    }
  }

  lemma TakenGrows(ls: seq<Label>, op: Key, x: Label)
    ensures SomeFilled(ls) && x.Wakes? && x.k != op ==> SomeTaken(ls + [x], op)
    ensures SomeTaken(ls, op) && !x.Registers? ==> SomeTaken(ls + [x], op)
  {
    var more := ls + [x];
    if SomeFilled(ls) && x.Wakes? && x.k != op {
      var r: nat :| FilledAt(ls, r);
      assert more[..|ls|] == ls;
      assert Taken(more, op, r, |ls|);
    } else if SomeTaken(ls, op) && !x.Registers? {
      var r: nat, i: nat :| Taken(ls, op, r, i);
      assert more[..i] == ls[..i];
      assert Taken(more, op, r, i);
    }
  }

  lemma AnsweredGrows(ls: seq<Label>, op: Key, x: Label)
    ensures SomeTaken(ls, op) && x.PollBegins? ==> SomeAnswered(ls + [x], op)
    ensures SomeAnswered(ls, op) && !x.Registers? ==> SomeAnswered(ls + [x], op)
  {
    var more := ls + [x];
    if SomeAnswered(ls, op) && !x.Registers? {
      var r: nat, i: nat, j: nat :| Answered(ls, op, r, i, j);
      assert more[..i] == ls[..i];
      assert Answered(more, op, r, i, j);
    } else if SomeTaken(ls, op) && x.PollBegins? {
      var r: nat, i: nat :| Taken(ls, op, r, i);
      assert more[..i] == ls[..i];
      assert Answered(more, op, r, i, |ls|);
    }
  }

  lemma PassedGrows(ls: seq<Label>, op: Key, x: Label)
    ensures SomeAnswered(ls, op) && x == Wakes(op) ==> SomePassed(ls + [x], op)
    ensures SomePassed(ls, op) && !x.Registers? ==> SomePassed(ls + [x], op)
  {
    var more := ls + [x];
    if SomePassed(ls, op) && !x.Registers? {
      var r: nat, i: nat, j: nat, k: nat :| Passed(ls, op, r, i, j, k);
      assert more[..i] == ls[..i];
      assert Passed(more, op, r, i, j, k);
    } else if SomeAnswered(ls, op) && x == Wakes(op) {
      var r: nat, i: nat, j: nat :| Answered(ls, op, r, i, j);
      assert more[..i] == ls[..i];
      assert Passed(more, op, r, i, j, |ls|);
    }
  }

  lemma MissedGrows(ls: seq<Label>, op: Key, x: Label)
    ensures SomePassed(ls, op) && x.Registers? ==> SomeMissed(ls + [x], op)
    ensures SomeMissed(ls, op) && !x.Wakes? ==> SomeMissed(ls + [x], op)
  {
    var more := ls + [x];
    if SomeMissed(ls, op) && !x.Wakes? {
      var r: nat, i: nat, j: nat, k: nat, m: nat :| Missed(ls, op, r, i, j, k, m);
      assert more[..m] == ls[..m];
      assert Missed(more, op, r, i, j, k, m);
    } else if SomePassed(ls, op) && x.Registers? {
      var r: nat, i: nat, j: nat, k: nat :| Passed(ls, op, r, i, j, k);
      assert more[..|ls|] == ls;
      assert Missed(more, op, r, i, j, k, |ls|);
    }
  }

  // ---- What the labels say of the slot and the task ---------------------------------------

  lemma LabelTells(s: Event, a: Action, ls: seq<Label>)
    requires Enabled(s, a) && s.waker == Slot(ls) && s.seen.notified == Told(ls)
    ensures Next(s, a).waker == Slot(ls + [LabelOf(s, a)])
    ensures Next(s, a).seen.notified == Told(ls + [LabelOf(s, a)])
  {
    var more := ls + [LabelOf(s, a)];
    assert more[..|more| - 1] == ls;
  }

  lemma {:induction false} LabelsTell(run: seq<Action>)
    requires IsRun(Proper, INIT, run)
    ensures Exec(Proper, INIT, run).waker == Slot(Labels(run))
    ensures Exec(Proper, INIT, run).seen.notified == Told(Labels(run))
  {
    if run != [] {
      var before, a := run[..|run| - 1], run[|run| - 1];
      LabelsTell(before);
      LabelTells(Exec(Proper, INIT, before), a, Labels(before));
    }
  }

  lemma MissedIsNotTold(ls: seq<Label>, op: Key)
    requires SomeMissed(ls, op)
    ensures !Told(ls)
  {
    var r: nat, i: nat, j: nat, k: nat, m: nat :| Missed(ls, op, r, i, j, k, m);
    NobodyTells(ls[..m], i, j);
    NoWakeTells(ls, m);
  }

  // ---- The other direction, over runs ------------------------------------------------------

  /** The operation has registered and its result has not been taken. */
  predicate Live(s: Event) {
    s.pc.SetPending? || s.st.Pending? || s.st.Callback?
    || (s.st.Ready? && (s.pc.Out? || s.pc.Finish? || s.pc.Schedule? || s.pc.Register?))
  }

  predicate OwnWoke(s: Event) {
    s.st.Ready? && s.past.fires !in s.cbs
  }

  ghost predicate Evidence(s: Event, ls: seq<Label>) {
    && (s.waker ==> SomeFilled(ls))
    && (!s.past.ended && Live(s) ==>
          && (!OwnWoke(s) && !s.waker ==>
                && SomeTaken(ls, s.past.ops)
                && (!s.seen.notified ==> SomeAnswered(ls, s.past.ops))
                && (s.pc.Out? || s.pc.SetPending? ==> s.seen.notified))
          && (OwnWoke(s) && !s.seen.notified ==>
                && (s.pc.Schedule? || s.pc.Register? ==> SomePassed(ls, s.past.ops))
                && (s.pc.Out? ==> s.waker && SomeMissed(ls, s.past.ops))))
  }

  lemma Grows(ls: seq<Label>, op: Key, x: Label)
    ensures SomeFilled(ls) && !x.Wakes? ==> SomeFilled(ls + [x])
    ensures x.Registers? ==> SomeFilled(ls + [x])
    ensures SomeFilled(ls) && x.Wakes? && x.k != op ==> SomeTaken(ls + [x], op)
    ensures SomeTaken(ls, op) && !x.Registers? ==> SomeTaken(ls + [x], op)
    ensures SomeTaken(ls, op) && x.PollBegins? ==> SomeAnswered(ls + [x], op)
    ensures SomeAnswered(ls, op) && !x.Registers? ==> SomeAnswered(ls + [x], op)
    ensures SomeAnswered(ls, op) && x == Wakes(op) ==> SomePassed(ls + [x], op)
    ensures SomePassed(ls, op) && !x.Registers? ==> SomePassed(ls + [x], op)
    ensures SomePassed(ls, op) && x.Registers? ==> SomeMissed(ls + [x], op)
    ensures SomeMissed(ls, op) && !x.Wakes? ==> SomeMissed(ls + [x], op)
  {
    FilledGrows(ls, x);
    TakenGrows(ls, op, x);
    AnsweredGrows(ls, op, x);
    PassedGrows(ls, op, x);
    MissedGrows(ls, op, x);
  }

  lemma EvidenceOwner(s: Event, ls: seq<Label>)
    requires T.Inv(s) && Evidence(s, ls) && Enabled(s, OwnerStep)
    ensures Evidence(Next(s, OwnerStep), ls + [LabelOf(s, OwnerStep)])
  {
    Grows(ls, s.past.ops, LabelOf(s, OwnerStep));
  }

  lemma EvidenceCallback(s: Event, ls: seq<Label>, k: Key)
    requires T.Inv(s) && Evidence(s, ls) && k in s.cbs
    ensures Evidence(Next(s, CbStep(k)), ls + [LabelOf(s, CbStep(k))])
  {
    Grows(ls, s.past.ops, LabelOf(s, CbStep(k)));
  }

  lemma EvidenceStep(s: Event, ls: seq<Label>, a: Action)
    requires T.Inv(s) && Evidence(s, ls) && Enabled(s, a) && Allowed(Proper, s, a)
    ensures Evidence(Next(s, a), ls + [LabelOf(s, a)])
  {
    match a
    case OwnerStep => EvidenceOwner(s, ls);
    case CbStep(k) => EvidenceCallback(s, ls, k);
    case PollStart => Grows(ls, s.past.ops, LabelOf(s, a));
    case FireWait => Grows(ls, s.past.ops, LabelOf(s, a));
    case Complete => Grows(ls, s.past.ops, LabelOf(s, a));
    case IssueAsync => Grows(ls, s.past.ops, LabelOf(s, a));
    case IssueInline(_, _) => Grows(ls, s.past.ops, LabelOf(s, a));
  }

  lemma {:induction false} EvidenceHolds(run: seq<Action>)
    requires IsRun(Proper, INIT, run)
    ensures Evidence(Exec(Proper, INIT, run), Labels(run))
  {
    if run != [] {
      var before := run[..|run| - 1];
      T.InvariantHolds(before);
      EvidenceHolds(before);
      EvidenceStep(Exec(Proper, INIT, before), Labels(before), run[|run| - 1]);
    }
  }

  /** The exact condition. In every proper run: at rest in Ready with its callback finished, the
      task has no notification left if and only if an earlier callback's wake took the
      operation's registration, the task answered that wake with a poll that began before the
      operation's own wake and registered after it, and no wake has come since. */
  lemma LostExactlyWhen(run: seq<Action>)
    requires IsRun(Proper, INIT, run)
    requires
      var s := Exec(Proper, INIT, run);
      s.st.Ready? && s.pc.Out? && s.past.fires !in s.cbs
    ensures
      var s := Exec(Proper, INIT, run);
      !s.seen.notified <==> SomeMissed(Labels(run), s.past.ops)
  {
    T.InvariantHolds(run);
    EvidenceHolds(run);
    LabelsTell(run);
    if SomeMissed(Labels(run), Exec(Proper, INIT, run).past.ops) {
      MissedIsNotTold(Labels(run), Exec(Proper, INIT, run).past.ops);
    }
  }
}
