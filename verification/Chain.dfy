/** `Chain` (`src/io/read/ext.rs`): one reader after another. Its `chained` flag is never
    set, so every poll asks the first reader again and every cancel goes to the first.

    A reader is the sequence of answers it gives to its polls, whatever they are; the
    buffers offered are not empty, so an answer of no bytes is the end of the stream. */
module Chains {

  datatype Answer = Pending | Bytes(data: seq<int>) | Failed(code: nat)

  function Data(a: Answer): seq<int> {
    if a.Bytes? then a.data else []
  }

  /** All the bytes the answers put into buffers, in order. */
  function Yield(answers: seq<Answer>): seq<int> {
    if answers == [] then [] else Yield(answers[..|answers| - 1]) + Data(answers[|answers| - 1])
  }

  lemma YieldAppend(answers: seq<Answer>, a: Answer)
    ensures Yield(answers + [a]) == Yield(answers) + Data(a)
  {
    assert (answers + [a])[..|answers|] == answers;
  }

  lemma Glue(whole: seq<int>, front: seq<int>, back: seq<int>, more: seq<int>)
    requires whole == front + back
    ensures whole + more == front + (back + more)
  {
  }

  predicate Ends(a: Answer) {
    a == Bytes([])
  }

  /** Nothing but the end once the end has been answered. */
  predicate Sticky(answers: seq<Answer>) {
    forall i, j :: 0 <= i < j < |answers| && Ends(answers[i]) ==> Ends(answers[j])
  }

  /** No bytes once the end has been answered. */
  predicate QuietAtEnd(answers: seq<Answer>) {
    forall i, j :: 0 <= i < j < |answers| && Ends(answers[i]) ==> answers[j].Bytes? ==> Ends(answers[j])
  }

  /** How often the end has been answered: how many polls the second reader gets. */
  function Asked(first: seq<Answer>): nat {
    if first == [] then 0
    else Asked(first[..|first| - 1]) + (if Ends(first[|first| - 1]) then 1 else 0)
  }

  /** What a chain answers to its polls: each asks the first reader, and the second one too
      if the first answers the end. */
  function Chained(first: seq<Answer>, next: seq<Answer>): (answers: seq<Answer>)
    requires |next| >= Asked(first)
    ensures |answers| == |first|
  {
    if first == [] then []
    else
      var init, a := first[..|first| - 1], first[|first| - 1];
      Chained(init, next) + [if Ends(a) then next[Asked(init)] else a]
  }

  /** Poll by poll: what the chain answers is the first reader's answer, or for the first
      reader's `m`-th end the second reader's `m`-th answer. */
  lemma {:induction false} ChainedAt(first: seq<Answer>, next: seq<Answer>, i: nat)
    requires |next| >= Asked(first) && i < |first|
    ensures first[i] != Bytes([]) ==> Chained(first, next)[i] == first[i]
    ensures first[i] == Bytes([]) ==> Asked(first[..i]) < |next| && Chained(first, next)[i] == next[Asked(first[..i])]
    ensures Asked(first[..i + 1]) == Asked(first[..i]) + if first[i] == Bytes([]) then 1 else 0
  {
    assert first[..i + 1][..i] == first[..i];
    if i < |first| - 1 {
      var init := first[..|first| - 1];
      ChainedAt(init, next, i);
      assert init[..i] == first[..i];
    }
  }

  /** The reference: the first reader's bytes and then the second's. */
  predicate Concatenates(first: seq<Answer>, next: seq<Answer>)
    requires |next| >= Asked(first)
  {
    Yield(Chained(first, next)) == Yield(first) + Yield(next[..Asked(first)])
  }

  /** Of a first reader that has never ended the chain is a copy. */
  lemma {:induction false} CopiesFirst(first: seq<Answer>, next: seq<Answer>)
    requires forall i :: 0 <= i < |first| ==> !Ends(first[i])
    ensures Asked(first) == 0 && Chained(first, next) == first
  {
    if first != [] {
      CopiesFirst(first[..|first| - 1], next);
      assert first == first[..|first| - 1] + [first[|first| - 1]];
    }
  }

  lemma {:induction false} AskedOnlyAfterEnd(first: seq<Answer>)
    requires Asked(first) > 0
    ensures exists i :: 0 <= i < |first| && Ends(first[i])
  {
    var init := first[..|first| - 1];
    if Ends(first[|first| - 1]) {
    } else {
      AskedOnlyAfterEnd(init);
      var i :| 0 <= i < |init| && Ends(init[i]);
      assert Ends(first[i]);
    }
  }

  lemma {:induction false} AskedAfterEnd(first: seq<Answer>, i: nat)
    requires i < |first| && Ends(first[i])
    ensures Asked(first) > 0
  {
    if i < |first| - 1 {
      AskedAfterEnd(first[..|first| - 1], i);
    }
  }

  /** One poll more: the second reader's answer, or nothing from the first. */
  lemma ConcatenatesStep(init: seq<Answer>, a: Answer, next: seq<Answer>)
    requires |next| >= Asked(init + [a]) >= Asked(init) && Concatenates(init, next)
    requires Data(a) == []
    ensures Concatenates(init + [a], next)
  {
    var first, answers, used := init + [a], Chained(init, next), Asked(init);
    assert first[..|init|] == init;
    assert Yield(first) == Yield(init) by {
      YieldAppend(init, a);
    }
    if Ends(a) {
      YieldAppend(answers, next[used]);
      assert next[..used + 1] == next[..used] + [next[used]];
      YieldAppend(next[..used], next[used]);
      Glue(Yield(answers), Yield(init), Yield(next[..used]), Data(next[used]));
    } else {
      YieldAppend(answers, a);
    }
  }

  /** The chain is the concatenation, over all chunkings, failures and Pending, if the
      first reader yields nothing more once it has answered the end. */
  lemma {:induction false} QuietConcatenates(first: seq<Answer>, next: seq<Answer>)
    requires |next| >= Asked(first) && QuietAtEnd(first)
    ensures Concatenates(first, next)
  {
    if Asked(first) == 0 {
      forall i | 0 <= i < |first|
        ensures !Ends(first[i])
      {
        if Ends(first[i]) {
          AskedAfterEnd(first, i);
        }
      }
      CopiesFirst(first, next);
      assert next[..0] == [];
    } else {
      var init, a := first[..|first| - 1], first[|first| - 1];
      assert first == init + [a];
      QuietConcatenates(init, next);
      if !Ends(a) {
        AskedOnlyAfterEnd(init);
        var i :| 0 <= i < |init| && Ends(init[i]);
        assert Ends(first[i]);
      }
      ConcatenatesStep(init, a, next);
    }
  }

  lemma ConcatSnoc(a: seq<Answer>, b: seq<Answer>)
    requires b != []
    ensures a + b == (a + b[..|b| - 1]) + [b[|b| - 1]]
  {
  }

  lemma {:induction false} YieldConcat(a: seq<Answer>, b: seq<Answer>)
    ensures Yield(a + b) == Yield(a) + Yield(b)
  {
    if b == [] {
      assert a + b == a;
    } else {
      var init, last := b[..|b| - 1], b[|b| - 1];
      YieldConcat(a, init);
      ConcatSnoc(a, b);
      YieldAppend(a + init, last);
      Glue(Yield(a + init), Yield(a), Yield(init), Data(last));
    }
  }

  /** What a chain has answered depends on the answers it has been given so far only. */
  lemma {:induction false} ChainedGrows(first: seq<Answer>, next: seq<Answer>, k: nat)
    requires k <= |first| && |next| >= Asked(first)
    ensures Asked(first[..k]) <= Asked(first) && Chained(first[..k], next) == Chained(first, next)[..k]
    decreases |first| - k
  {
    if k == |first| {
      assert first[..k] == first;
    } else {
      ChainedGrows(first, next, k + 1);
      assert first[..k + 1][..k] == first[..k];
    }
  }

  /** The first answer of the end, if there is one. */
  lemma FirstEnd(first: seq<Answer>, j: nat) returns (i: nat)
    requires j < |first| && Ends(first[j])
    ensures i <= j && Ends(first[i]) && forall k :: 0 <= k < i ==> !Ends(first[k])
  {
    i := 0;
    while !Ends(first[i])
      invariant i <= j && forall k :: 0 <= k < i ==> !Ends(first[k])
      decreases j - i
    {
      i := i + 1;
    }
  }

  lemma {:induction false} YieldsSomething(answers: seq<Answer>, j: nat)
    requires j < |answers| && answers[j].Bytes? && !Ends(answers[j])
    ensures Yield(answers) != []
  {
    if j < |answers| - 1 {
      YieldsSomething(answers[..|answers| - 1], j);
    }
  }

  lemma {:induction false} YieldGrows(answers: seq<Answer>, k: nat)
    requires k <= |answers|
    ensures Yield(answers[..k]) <= Yield(answers)
  {
    if k == |answers| {
      assert answers[..k] == answers;
    } else {
      var init := answers[..|answers| - 1];
      YieldGrows(init, k);
      assert init[..k] == answers[..k];
    }
  }

  /** Up to its first end and one byte of the second reader. */
  lemma YieldAtEnd(first: seq<Answer>, i: nat, v: int, next: seq<Answer>)
    requires i < |first| && Ends(first[i]) && forall k :: 0 <= k < i ==> !Ends(first[k])
    requires |next| >= Asked(first) && next != [] && next[0] == Bytes([v])
    ensures Yield(first[..i]) + [v] <= Yield(Chained(first, next))
  {
    CopiesFirst(first[..i], next);
    assert first[..i + 1][..i] == first[..i];
    assert Chained(first[..i + 1], next) == first[..i] + [Bytes([v])];
    YieldAppend(first[..i], Bytes([v]));
    ChainedGrows(first, next, i + 1);
    YieldGrows(Chained(first, next), i + 1);
  }

  lemma Differs(whole: seq<int>, before: seq<int>, after: seq<int>, more: seq<int>, v: int)
    requires before + [v] <= whole && after != [] && after[0] != v
    ensures whole != (before + after) + more
  {
    assert whole[|before|] == v;
    assert ((before + after) + more)[|before|] == after[0];
  }

  lemma YieldSplits(answers: seq<Answer>, i: nat)
    requires i <= |answers|
    ensures Yield(answers) == Yield(answers[..i]) + Yield(answers[i..])
  {
    assert answers == answers[..i] + answers[i..];
    YieldConcat(answers[..i], answers[i..]);
  }

  /** A second reader's byte in between that is not what the first yields next. */
  lemma InBetween(first: seq<Answer>, i: nat, v: int, next: seq<Answer>)
    requires i < |first| && Ends(first[i]) && forall k :: 0 <= k < i ==> !Ends(first[k])
    requires |next| > Asked(first) && next[0] == Bytes([v])
    requires Yield(first[i..]) != [] && Yield(first[i..])[0] != v
    ensures !Concatenates(first, next)
  {
    YieldAtEnd(first, i, v, next);
    YieldSplits(first, i);
    Differs(Yield(Chained(first, next)), Yield(first[..i]), Yield(first[i..]), Yield(next[..Asked(first)]), v);
  }

  /** If it does yield more, some second reader's bytes come in between. */
  lemma Interleaves(first: seq<Answer>, i: nat, j: nat) returns (next: seq<Answer>)
    requires i < j < |first| && Ends(first[i]) && first[j].Bytes? && !Ends(first[j])
    requires forall k :: 0 <= k < i ==> !Ends(first[k])
    ensures |next| >= Asked(first) && !Concatenates(first, next)
  {
    YieldsSomething(first[i..], j - i);
    var v := Yield(first[i..])[0] + 1;
    next := seq(Asked(first) + 1, _ => Bytes([v]));
    InBetween(first, i, v, next);
  }

  /** Exactly the first readers that stay quiet at their end chain to a concatenation with
      every second reader. */
  lemma ConcatenatesExactlyWhen(first: seq<Answer>)
    ensures (forall next :: |next| >= Asked(first) ==> Concatenates(first, next)) <==> QuietAtEnd(first)
  {
    if QuietAtEnd(first) {
      forall next: seq<Answer> | |next| >= Asked(first)
        ensures Concatenates(first, next)
      {
        QuietConcatenates(first, next);
      }
    } else {
      var e, j :| 0 <= e < j < |first| && Ends(first[e]) && first[j].Bytes? && !Ends(first[j]);
      var i := FirstEnd(first, e);
      var next := Interleaves(first, i, j);
    }
  }

  predicate Waiting(answers: seq<Answer>) {
    answers != [] && answers[|answers| - 1].Pending?
  }

  /** With a first reader that keeps answering the end, only one operation at a time is
      outstanding on the caller's buffer, and it is the first reader's exactly while that
      has not ended. */
  lemma OneOutstanding(first: seq<Answer>, next: seq<Answer>)
    requires Sticky(first) && |next| == Asked(first) && Waiting(Chained(first, next))
    ensures Waiting(first) != Waiting(next)
    ensures Waiting(first) <==> Asked(first) == 0
  {
    var last := |first| - 1;
    if Asked(first) > 0 {
      AskedOnlyAfterEnd(first);
      var i :| 0 <= i < |first| && Ends(first[i]);
      assert Ends(first[last]);
    }
  }

  /** Two operations can be outstanding on the one buffer exactly if the first reader
      answers Pending after it has answered the end. */
  lemma TwoOutstandingExactlyWhen(first: seq<Answer>)
    ensures (exists next :: |next| == Asked(first) && Waiting(first) && Waiting(next)) <==>
            (Waiting(first) && exists i :: 0 <= i < |first| && Ends(first[i]))
  {
    if i :| 0 <= i < |first| && Ends(first[i]) {
      AskedAfterEnd(first, i);
      if Waiting(first) {
        assert Waiting(seq(Asked(first), _ => Pending));
      }
    } else if Asked(first) > 0 {
      AskedOnlyAfterEnd(first);
    }
  }

  lemma {:induction false} ChainedIgnoresRest(first: seq<Answer>, next: seq<Answer>, rest: seq<Answer>)
    requires |next| >= Asked(first)
    ensures Chained(first, next + rest) == Chained(first, next)
  {
    if first != [] {
      ChainedIgnoresRest(first[..|first| - 1], next, rest);
    }
  }

  /** One more poll of the chain; `b` is the second reader's answer if it is asked. */
  lemma ChainedStep(first: seq<Answer>, next: seq<Answer>, a: Answer, b: Answer)
    requires |next| == Asked(first)
    ensures var next' := if Ends(a) then next + [b] else next;
            && |next'| == Asked(first + [a])
            && Chained(first + [a], next') == Chained(first, next) + [if Ends(a) then b else a]
  {
    assert (first + [a])[..|first|] == first;
    if Ends(a) {
      ChainedIgnoresRest(first, next, [b]);
    }
  }

  lemma QuietSoFar(first: seq<Answer>, next: seq<Answer>)
    requires |next| == Asked(first)
    ensures QuietAtEnd(first) ==> Yield(Chained(first, next)) == Yield(first) + Yield(next)
  {
    if QuietAtEnd(first) {
      QuietConcatenates(first, next);
      assert next[..Asked(first)] == next;
    }
  }

  class Reader {
    var script: seq<Answer>      // what it will answer; then Pending
    var waiting: bool            // an operation is outstanding
    ghost var given: seq<Answer>

    ghost predicate Valid()
      reads this
    {
      waiting == Waiting(given)
    }

    constructor (script: seq<Answer>)
      ensures Valid() && given == [] && this.script == script
    {
      this.script, waiting, given := script, false, [];
    }

    method PollRead() returns (a: Answer)
      requires Valid()
      modifies this
      ensures Valid() && given == old(given) + [a]
      ensures a == (if old(script) == [] then Pending else old(script)[0])
      ensures script == (if old(script) == [] then [] else old(script)[1..])
    {
      a := Pending;
      if script != [] {
        a, script := script[0], script[1..];
      }
      waiting := a.Pending?;
      given := given + [a];
    }

    /** `cancel_read`; `hit` says whether there was an operation to cancel. */
    method CancelRead() returns (hit: bool)
      requires Valid()
      ensures hit == Waiting(given)
    {
      hit := waiting;
    }
  }

  class Chain {
    const first: Reader
    const next: Reader
    var chained: bool
    ghost var answers: seq<Answer>

    ghost predicate Valid()
      reads this, first, next
    {
      && first != next && first.Valid() && next.Valid()
      && (!chained ==> |next.given| == Asked(first.given) && answers == Chained(first.given, next.given))
    }

    constructor (first: Reader, next: Reader)
      requires first != next && first.Valid() && next.Valid() && first.given == next.given == []
      ensures Valid() && !chained && this.first == first && this.next == next && answers == []
    {
      this.first, this.next, chained, answers := first, next, false, [];
    }

    /** `Chain::poll_read`, which never sets `chained`. It returns what the first reader answers,
        or if that is the end, what the second one does; the second is asked only then. If the
        first reader has been quiet since its end, what has been read is the first reader's
        bytes and then the second's. */
    method PollRead() returns (a: Answer)
      requires Valid()
      modifies this`answers, first, next
      ensures Valid() && answers == old(answers) + [a]
      ensures !chained ==> |first.given| == |old(first.given)| + 1 && old(first.given) <= first.given
      ensures !chained && first.given[|first.given| - 1] != Bytes([]) ==>
                a == first.given[|first.given| - 1] && next.given == old(next.given)
      ensures !chained && first.given[|first.given| - 1] == Bytes([]) ==> next.given == old(next.given) + [a]
      ensures chained ==> first.given == old(first.given) && next.given == old(next.given) + [a]
      ensures !chained && QuietAtEnd(first.given) ==> Yield(answers) == Yield(first.given) + Yield(next.given)
    {
      ghost var f, n := first.given, next.given;
      a := Bytes([]);
      if !chained {
        a := first.PollRead();
      }
      ghost var firstAnswer := a;
      if Ends(a) {
        a := next.PollRead();
      }
      answers := answers + [a];
      if !chained {
        ChainedStep(f, n, firstAnswer, a);
        QuietSoFar(first.given, next.given);
      }
    }

    /** `Chain::cancel_read`, which always goes to the first reader. With a first reader that
        keeps answering the end, a waiting chain's operation is reached exactly while the
        second reader has not been asked. */
    method CancelRead() returns (hit: bool)
      requires Valid()
      ensures hit == Waiting(if chained then next.given else first.given)
      ensures !chained && Sticky(first.given) && Waiting(answers) ==> (hit <==> next.given == [])
    {
      if !chained {
        hit := first.CancelRead();
      } else {
        hit := next.CancelRead();
      }
      if !chained && Sticky(first.given) && Waiting(answers) {
        OneOutstanding(first.given, next.given);
      }
    }
  }
}
