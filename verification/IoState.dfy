/** The seven-state atomic word of `src/io/shared/state.rs`.

    Memory is sequentially consistent here: each method below is one indivisible
    access of the atomic, so a method's contract is the whole effect of one step.
    `callback_pending` is two kinds of access, a load repeated while it finds
    `Scheduling` and then a compare-exchange; they are `IsScheduling` and
    `CallbackPendingCas`, and the loop itself is in `HalfObject` and `EventObject`,
    where other threads can run between two loads. */
module IoStates {

  datatype Word =
    | Idle | Scheduling | Pending | Callback | Ready | CancelledNowait | CancelledWait

  /** The word that `cancel(wait)` swaps in. */
  function Swapped(wait: bool): Word {
    if wait then CancelledWait else CancelledNowait
  }

  /** What `is_busy` answers about the word it loads. */
  predicate Busy(w: Word) {
    w != Idle && w != Ready
  }

  class IoState {
    var word: Word

    constructor ()
      ensures word == Idle
    {
      word := Idle;
    }

    method CompareExchange(expected: Word, new_: Word) returns (ok: bool)
      modifies this
      ensures ok == (old(word) == expected)
      ensures word == if ok then new_ else old(word)
    {
      ok := word == expected;
      if ok {
        word := new_;
      }
    }

    method SetIdle()
      modifies this
      ensures word == Idle
    {
      word := Idle;
    }

    method Schedule() returns (ok: bool)
      modifies this
      ensures ok == (old(word) == Idle)
      ensures word == if ok then Scheduling else old(word)
    {
      ok := CompareExchange(Idle, Scheduling);
    }

    method SetPending()
      modifies this
      ensures word == Pending
    {
      word := Pending;
    }

    /** The swap is unconditional: it replaces whatever word is there. */
    method Cancel(wait: bool) returns (call: bool)
      modifies this
      ensures word == Swapped(wait)
      ensures call == (old(word) != CancelledNowait)
    {
      var was := word;
      word := if !wait then CancelledNowait else CancelledWait;
      call := was != CancelledNowait;
    }

    method IsScheduling() returns (b: bool)
      ensures b == (word == Scheduling)
    {
      b := word == Scheduling;
    }

    method CallbackPendingCas() returns (ok: bool)
      modifies this
      ensures ok == (old(word) == Pending)
      ensures word == if ok then Callback else old(word)
    {
      ok := CompareExchange(Pending, Callback);
    }

    method CallbackCancelledNowait() returns (ok: bool)
      modifies this
      ensures ok == (old(word) == CancelledNowait)
      ensures word == if ok then Callback else old(word)
    {
      ok := CompareExchange(CancelledNowait, Callback);
    }

    method CallbackCancelledWait() returns (ok: bool)
      modifies this
      ensures ok == (old(word) == CancelledWait)
      ensures word == if ok then Callback else old(word)
    {
      ok := CompareExchange(CancelledWait, Callback);
    }

    method SetReady()
      modifies this
      ensures word == Ready
    {
      word := Ready;
    }

    /** A compare-exchange from `Ready` to `Ready`: a read with a verdict. */
    method Finish() returns (ok: bool)
      modifies this
      ensures ok == (old(word) == Ready)
      ensures word == old(word)
    {
      ok := CompareExchange(Ready, Ready);
    }

    method IsCancellable() returns (b: bool)
      ensures b == (word == Pending)
    {
      b := word == Pending;
    }

    method IsBusy() returns (b: bool)
      ensures b == Busy(word) && (b <==> !word.Idle? && !word.Ready?)
    {
      b := !(word == Idle || word == Ready);
    }
  }
}
