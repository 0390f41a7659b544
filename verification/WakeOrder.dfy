/** The order of registrations, wakes and polls, and what it says of a waker slot: the slot is
    full since a registration with no wake after it, a wake takes what is there and tells the
    task, and a poll answers. */
module WakeOrder {
  import opened IoResults

  /** What a step is to the waker slot and the task. */
  datatype Label = Registers | PollBegins | Schedules | Wakes(k: Key) | Silent

  predicate NoneAfter(ls: seq<Label>, i: nat) {
    forall n :: i < n < |ls| ==> !ls[n].Registers?
  }

  /** The slot is full: a registration, and no wake since. */
  predicate FilledAt(ls: seq<Label>, r: nat) {
    r < |ls| && ls[r].Registers? && forall n :: r < n < |ls| ==> !ls[n].Wakes?
  }

  ghost predicate SomeFilled(ls: seq<Label>) {
    exists r: nat :: FilledAt(ls, r)
  }

  function Slot(ls: seq<Label>): bool {
    if ls == [] then false
    else
      match ls[|ls| - 1]
      case Registers => true
      case Wakes(_) => false
      case _ => Slot(ls[..|ls| - 1])
  }

  function Told(ls: seq<Label>): bool {
    if ls == [] then false
    else
      var before := ls[..|ls| - 1];
      match ls[|ls| - 1]
      case PollBegins => false
      case Wakes(_) => Told(before) || Slot(before)
      case _ => Told(before)
  }

  lemma FilledBefore(ls: seq<Label>, r: nat)
    requires ls != [] && FilledAt(ls, r) && !ls[|ls| - 1].Registers?
    ensures !ls[|ls| - 1].Wakes? && FilledAt(ls[..|ls| - 1], r)
  {
  }

  lemma {:induction false} SlotIsFilled(ls: seq<Label>)
    ensures Slot(ls) <==> SomeFilled(ls)
  {
    if ls != [] {
      var init, last := ls[..|ls| - 1], ls[|ls| - 1];
      SlotIsFilled(init);
      forall r: nat | FilledAt(ls, r) && !last.Registers?
        ensures !last.Wakes? && FilledAt(init, r)
      {
        FilledBefore(ls, r);
      }
      assert last.Registers? ==> FilledAt(ls, |ls| - 1);
      assert forall r: nat :: FilledAt(init, r) && !last.Wakes? ==> FilledAt(ls, r);
    }
  }

  /** A wake that found the slot full, and no poll has begun since. */
  ghost predicate Unanswered(ls: seq<Label>, i: nat) {
    i < |ls| && Took(ls, i) && forall n :: i < n < |ls| ==> !ls[n].PollBegins?
  }

  /** Step `i` is a wake that took a registration. */
  ghost predicate Took(ls: seq<Label>, i: nat)
    requires i < |ls|
  {
    ls[i].Wakes? && SomeFilled(ls[..i])
  }

  lemma {:induction false} ToldIsUnanswered(ls: seq<Label>)
    ensures Told(ls) <==> exists i: nat :: Unanswered(ls, i)
  {
    if ls != [] {
      var init, last := ls[..|ls| - 1], ls[|ls| - 1];
      ToldIsUnanswered(init);
      SlotIsFilled(init);
      forall i: nat | i < |init|
        ensures init[..i] == ls[..i]
        ensures Unanswered(ls, i) <==> Unanswered(init, i) && !last.PollBegins?
      {
        assert init[..i] == ls[..i];
      }
      assert last.Wakes? && Slot(init) ==> Unanswered(ls, |init|);
    }
  }

  /** From `i` on nobody fills the slot, so no wake after the poll at `j` tells the task. */
  lemma {:induction false} NobodyTells(ls: seq<Label>, i: nat, j: nat)
    requires i < j < |ls| && ls[i].Wakes? && ls[j].PollBegins? && NoneAfter(ls, i)
    ensures !Slot(ls) && !Told(ls)
  {
    var init := ls[..|ls| - 1];
    if j < |ls| - 1 {
      NobodyTells(init, i, j);
    } else {
      SlotStaysEmpty(init, i);
    }
  }

  lemma {:induction false} SlotStaysEmpty(ls: seq<Label>, i: nat)
    requires i < |ls| && ls[i].Wakes? && NoneAfter(ls, i)
    ensures !Slot(ls)
  {
    if i < |ls| - 1 {
      SlotStaysEmpty(ls[..|ls| - 1], i);
    }
  }

  lemma {:induction false} NoWakeTells(ls: seq<Label>, m: nat)
    requires m <= |ls| && !Told(ls[..m]) && forall n :: m <= n < |ls| ==> !ls[n].Wakes?
    ensures !Told(ls)
  {
    if m < |ls| {
      var init := ls[..|ls| - 1];
      assert init[..m] == ls[..m];
      NoWakeTells(init, m);
    } else {
      assert ls[..m] == ls;
    }
  }

  /** The last operation was scheduled at `q`. */
  predicate ScheduledAt(ls: seq<Label>, q: nat) {
    q < |ls| && ls[q].Schedules? && forall n :: q < n < |ls| ==> !ls[n].Schedules?
  }

  predicate NoWakeIn(ls: seq<Label>, q: nat, k: nat)
    requires k <= |ls|
  {
    forall n :: q < n < k ==> !ls[n].Wakes?
  }

  /** At `k` there is a registration made since the operation was scheduled at `q`, with no
      wake in between, or one that filled the slot before and no wake since. */
  ghost predicate FullSince(ls: seq<Label>, q: nat, k: nat, fullBefore: bool)
    requires k <= |ls|
  {
    (exists r: nat :: q < r && FilledAt(ls[..k], r)) || (fullBefore && NoWakeIn(ls, q, k))
  }

  lemma FullIsFullSince(ls: seq<Label>, q: nat, k: nat)
    requires q < k <= |ls| && ls[q].Schedules?
    ensures SomeFilled(ls[..k]) <==> FullSince(ls, q, k, Slot(ls[..q]))
  {
    SlotIsFilled(ls[..q]);
    if SomeFilled(ls[..k]) {
      var r: nat :| FilledAt(ls[..k], r);
      if r < q {
        assert FilledAt(ls[..q], r);
        forall n | q < n < k
          ensures !ls[n].Wakes?
        {
          assert !ls[..k][n].Wakes?;
        }
      }
    }
    if Slot(ls[..q]) && NoWakeIn(ls, q, k) {
      var r: nat :| FilledAt(ls[..q], r);
      forall n | r < n < k
        ensures !ls[..k][n].Wakes?
      {
        assert n < q ==> !ls[..q][n].Wakes?;
      }
      assert FilledAt(ls[..k], r);
    }
  }

  /** Told before the operation was scheduled at `q`, and no poll since. */
  lemma ToldBefore(ls: seq<Label>, q: nat)
    requires q < |ls| && ls[q].Schedules?
    ensures (Told(ls[..q]) && forall n :: q < n < |ls| ==> !ls[n].PollBegins?) <==>
            exists i: nat :: i < q && Unanswered(ls, i)
  {
    ToldIsUnanswered(ls[..q]);
    forall i: nat | i < q
      ensures Unanswered(ls, i) <==> Unanswered(ls[..q], i) && forall n :: q < n < |ls| ==> !ls[n].PollBegins?
    {
      assert ls[..q][..i] == ls[..i];
      if Unanswered(ls, i) {
        forall n | i < n < q
          ensures !ls[..q][n].PollBegins?
        {
          assert !ls[n].PollBegins?;
        }
      }
      if Unanswered(ls[..q], i) && forall n :: q < n < |ls| ==> !ls[n].PollBegins? {
        forall n | i < n < |ls|
          ensures !ls[n].PollBegins?
        {
          assert n < q ==> !ls[..q][n].PollBegins?;
        }
      }
    }
  }
}
