/** `IoHandle` as an object with its two halves, in the shape of `src/io/shared/handle.rs`.

    While a method works on one half, every thread of the other half runs too, its owner
    included; `others` is what they do. The halves share nothing, so it is played after the
    method's own steps. */
module HandleObject {
  import opened IoStates
  import opened IoResults
  import opened HalfModel
  import opened HalfTheorems
  import opened HalfCancel
  import opened HalfObject
  import opened IoHandles

  ghost predicate Kept(trace: seq<Action>) {
    IsRun(UnderE, INIT, trace)
  }

  class IoHandle {
    const read: IoHalf
    const write: IoHalf
    const addresses: Addresses
    ghost var trace: seq<HandleAction>

    ghost predicate Valid()
      reads this, read, read.state, read.result, write, write.state, write.result
    {
      && read != write && read.state != write.state && read.result != write.result
      && addresses.read != addresses.write
      && read.Valid() && write.Valid()
      && (Kept(read.trace) && Kept(write.trace) ==> Tracks(addresses, trace, read.trace, write.trace))
    }

    function HalfOf(side: Side): IoHalf {
      match side
      case Read => read
      case Write => write
    }

    constructor (addresses: Addresses)
      requires addresses.read != addresses.write
      ensures Valid() && read.Abs() == INIT && write.Abs() == INIT && this.addresses == addresses
      ensures fresh(read) && fresh(read.state) && fresh(read.result)
      ensures fresh(write) && fresh(write.state) && fresh(write.result)
    {
      read := new IoHalf();
      write := new IoHalf();
      this.addresses := addresses;
      trace := [];
    }

    /** As long as E holds, the object is where a run of the handle with its one kernel leads,
        and what the kernel owes is what the halves have queued. */
    lemma IsHandleState()
      requires Valid() && read.withinE && write.withinE
      ensures IsHandleRun(addresses, trace)
      ensures var h := HandleExec(addresses, trace);
              && h.read == read.Abs() && h.write == write.Abs()
              && forall p: Packet :: p in h.kernel <==>
                   && p.overlapped == Address(addresses, p.side)
                   && p.op in On(h, p.side).cbs && On(h, p.side).cbs[p.op].pc.Queued?
    {
      TracedIsRun(addresses, trace, read.trace, write.trace);
      var h := HandleExec(addresses, trace);
      forall p: Packet | p.op in On(h, p.side).cbs
        ensures Accounted(addresses, h, p.side, p.op)
      {
      }
    }

    /** The halves have gone on; notes it in the handle's trace. */
    ghost method Note(first: Side, readBefore: seq<Action>, writeBefore: seq<Action>)
      requires read != write && read.state != write.state && read.result != write.result
      requires addresses.read != addresses.write && read.Valid() && write.Valid()
      requires readBefore <= read.trace && writeBefore <= write.trace
      requires Kept(readBefore) && Kept(writeBefore) ==> Tracks(addresses, trace, readBefore, writeBefore)
      modifies this`trace
      ensures Valid()
      ensures var r, w := read.trace[|readBefore|..], write.trace[|writeBefore|..];
              trace == if first.Read? then Merged(addresses, old(trace), first, r, w)
                       else Merged(addresses, old(trace), first, w, r)
    {
      var r, w := read.trace[|readBefore|..], write.trace[|writeBefore|..];
      if Kept(read.trace) && Kept(write.trace) {
        PrefixOfRun(read.trace, |readBefore|);
        PrefixOfRun(write.trace, |writeBefore|);
        assert read.trace[..|readBefore|] == readBefore && write.trace[..|writeBefore|] == writeBefore;
        MergedTracks(addresses, trace, first, readBefore, writeBefore, read.trace, write.trace);
      }
      trace := if first.Read? then Merged(addresses, trace, first, r, w) else Merged(addresses, trace, first, w, r);
    }

    method PollRead(issued: HalfObject.Issued, env: seq<seq<Action>>, others: seq<Action>)
      returns (r: PollResult)
      requires Valid() && read.pc.Out?
      modifies this`trace, read, read.state, read.result, write, write.state, write.result
      ensures Valid() && write.Abs() == Played(old(write.Abs()), others)
      ensures read.pc.Out? && old(read.trace) + [PollStart] <= read.trace
      ensures r.Pending? ==> read.past.log == old(read.past.log) && read.seen.lastPending
      ensures r.ReadyWith? ==> read.past.log == old(read.past.log) + [Finished(read.past.gen, r.got)]
      ensures r.ReadyInline? ==>
                read.past.log == old(read.past.log) + [Inline(read.past.gen, r.res)]
                && issued.FinishesInline? && issued.res == r.res
      ensures read.withinE && r.ReadyWith? ==> Delivered(read.Abs(), Finished(read.past.gen, r.got))
      ensures read.past.gen == old(read.past.gen) || (read.past.gen == old(read.past.gen) + 1 && !r.ReadyWith?)
      ensures r.ReadyInline? ==> read.past.gen == old(read.past.gen) + 1
      ensures read.past.gen == old(read.past.gen) + 1 ==>
                match issued
                case GoesAsync => r.Pending? && read.past.gen in read.past.asyncOps
                case FinishesInline(res, _) => r == ReadyInline(res)
    {
      ghost var r0, w0 := read.trace, write.trace;
      r := read.Poll(issued, env);
      write.Play(others);
      Note(Read, r0, w0);
    }

    method PollWrite(issued: HalfObject.Issued, env: seq<seq<Action>>, others: seq<Action>)
      returns (r: PollResult)
      requires Valid() && write.pc.Out?
      modifies this`trace, read, read.state, read.result, write, write.state, write.result
      ensures Valid() && read.Abs() == Played(old(read.Abs()), others)
      ensures write.pc.Out? && old(write.trace) + [PollStart] <= write.trace
      ensures r.Pending? ==> write.past.log == old(write.past.log) && write.seen.lastPending
      ensures r.ReadyWith? ==> write.past.log == old(write.past.log) + [Finished(write.past.gen, r.got)]
      ensures r.ReadyInline? ==>
                write.past.log == old(write.past.log) + [Inline(write.past.gen, r.res)]
                && issued.FinishesInline? && issued.res == r.res
      ensures write.withinE && r.ReadyWith? ==> Delivered(write.Abs(), Finished(write.past.gen, r.got))
      ensures write.past.gen == old(write.past.gen) || (write.past.gen == old(write.past.gen) + 1 && !r.ReadyWith?)
      ensures r.ReadyInline? ==> write.past.gen == old(write.past.gen) + 1
      ensures write.past.gen == old(write.past.gen) + 1 ==>
                match issued
                case GoesAsync => r.Pending? && write.past.gen in write.past.asyncOps
                case FinishesInline(res, _) => r == ReadyInline(res)
    {
      ghost var r0, w0 := read.trace, write.trace;
      r := write.Poll(issued, env);
      read.Play(others);
      Note(Write, r0, w0);
    }

    method CancelRead(wait: bool, env: seq<seq<Action>>, rounds: seq<seq<Action>>, others: seq<Action>)
      returns (swapped: bool, done: bool)
      requires Valid() && read.pc.Out?
      modifies this`trace, read, read.state, read.result, write, write.state, write.result
      ensures Valid() && write.Abs() == Played(old(write.Abs()), others)
      ensures (done <==> read.pc.Out?) && old(read.trace) + [CancelStart(wait)] <= read.trace
      ensures read.past.log == old(read.past.log) && read.past.gen == old(read.past.gen)
      ensures if swapped then read.past.gen in read.past.swaps && read.past.swaps[read.past.gen].wait == wait
              else done && read.past.swaps == old(read.past.swaps)
      ensures read.withinE && wait && swapped && done ==> read.Quiet()
      ensures read.withinE && !swapped ==> (StillUnderWay(read.Abs()) <==> PassedBy(read.Abs()))
      ensures !done ==> Times(read.trace, OwnerStep) >= Times(old(read.trace), OwnerStep) + 2 + |rounds|
    {
      ghost var r0, w0 := read.trace, write.trace;
      swapped, done := read.Cancel(wait, env, rounds);
      write.Play(others);
      Note(Read, r0, w0);
    }

    method CancelWrite(wait: bool, env: seq<seq<Action>>, rounds: seq<seq<Action>>, others: seq<Action>)
      returns (swapped: bool, done: bool)
      requires Valid() && write.pc.Out?
      modifies this`trace, read, read.state, read.result, write, write.state, write.result
      ensures Valid() && read.Abs() == Played(old(read.Abs()), others)
      ensures (done <==> write.pc.Out?) && old(write.trace) + [CancelStart(wait)] <= write.trace
      ensures write.past.log == old(write.past.log) && write.past.gen == old(write.past.gen)
      ensures if swapped then write.past.gen in write.past.swaps && write.past.swaps[write.past.gen].wait == wait
              else done && write.past.swaps == old(write.past.swaps)
      ensures write.withinE && wait && swapped && done ==> write.Quiet()
      ensures write.withinE && !swapped ==> (StillUnderWay(write.Abs()) <==> PassedBy(write.Abs()))
      ensures !done ==> Times(write.trace, OwnerStep) >= Times(old(write.trace), OwnerStep) + 2 + |rounds|
    {
      ghost var r0, w0 := read.trace, write.trace;
      swapped, done := write.Cancel(wait, env, rounds);
      read.Play(others);
      Note(Write, r0, w0);
    }

    /** The kernel completes the packet `p`, and the thread pool calls `callback` with its
        address: the half that issued the operation gets it. */
    method Complete(p: Packet, result: nat, transferred: nat, env: seq<seq<Action>>, others: seq<Action>)
      returns (done: bool)
      requires Valid() && p.overlapped == Address(addresses, p.side)
      requires p.op in HalfOf(p.side).cbs && HalfOf(p.side).cbs[p.op].pc.Queued?
      modifies this`trace, read, read.state, read.result, write, write.state, write.result
      ensures Valid() && old(trace) + [HandleAction.Complete(p, p.op, result, transferred)] <= trace
      ensures Completed(HalfOf(p.side), old(HalfOf(p.side).trace), p.op, result, transferred, done)
      ensures Owed(p.op) ==>
                p.op in HalfOf(p.side).past.kernel
                && HalfOf(p.side).past.kernel[p.op] == if result == 0 then Ok(transferred) else Err(result)
      ensures p.side.Read? ==> write.Abs() == Played(old(write.Abs()), others)
      ensures p.side.Write? ==> read.Abs() == Played(old(read.Abs()), others)
    {
      if p.overlapped == addresses.read {
        done := CompleteRead(p.op, result, transferred, env, others);
      } else {
        done := CompleteWrite(p.op, result, transferred, env, others);
      }
    }

    method CompleteRead(k: Key, result: nat, transferred: nat, env: seq<seq<Action>>, others: seq<Action>)
      returns (done: bool)
      requires Valid() && k in read.cbs && read.cbs[k].pc.Queued?
      modifies this`trace, read, read.state, read.result, write, write.state, write.result
      ensures Valid() && old(trace) + [Lift(addresses, Read, Fire(k, result, transferred))] <= trace
      ensures Completed(read, old(read.trace), k, result, transferred, done)
      ensures write.Abs() == Played(old(write.Abs()), others)
    {
      ghost var r0, w0 := read.trace, write.trace;
      done := Callback(read, k, result, transferred, env);
      write.Play(others);
      Note(Read, r0, w0);
      MergedStarts(addresses, old(trace), Read, read.trace[|r0|..], write.trace[|w0|..]);
    }

    method CompleteWrite(k: Key, result: nat, transferred: nat, env: seq<seq<Action>>, others: seq<Action>)
      returns (done: bool)
      requires Valid() && k in write.cbs && write.cbs[k].pc.Queued?
      modifies this`trace, read, read.state, read.result, write, write.state, write.result
      ensures Valid() && old(trace) + [Lift(addresses, Write, Fire(k, result, transferred))] <= trace
      ensures Completed(write, old(write.trace), k, result, transferred, done)
      ensures read.Abs() == Played(old(read.Abs()), others)
    {
      ghost var r0, w0 := read.trace, write.trace;
      done := Callback(write, k, result, transferred, env);
      read.Play(others);
      Note(Write, r0, w0);
      MergedStarts(addresses, old(trace), Write, write.trace[|w0|..], read.trace[|r0|..]);
    }

    /** What a completion leaves: the callback was started and, if done, has retired, having won
        exactly one claim if the operation was pending; and what was reported is on record. */
    static ghost predicate Completed(half: IoHalf, before: seq<Action>, k: Key,
                                     result: nat, transferred: nat, done: bool)
      reads half, half.state, half.result
    {
      && (done <==> k !in half.cbs)
      && before + [Fire(k, result, transferred)] <= half.trace
      && (half.withinE && done && k in half.past.asyncOps ==> Total(Wins(half.Abs(), k)) == 1)
      && (Owed(k) ==> OnRecord(half.Abs(), k, result, transferred))
    }

    /** The callback's tail, in the half that was found. */
    static method Callback(half: IoHalf, k: Key, result: nat, transferred: nat, env: seq<seq<Action>>)
      returns (done: bool)
      requires half.Valid() && k in half.cbs && half.cbs[k].pc.Queued?
      modifies half, half.state, half.result
      ensures half.Valid() && Completed(half, old(half.trace), k, result, transferred, done)
    {
      ghost var before := half.trace;
      half.Other(Fire(k, result, transferred));
      done := half.Callback(k, env);
      RecordIsReported(Anything, half.trace);
      assert half.trace[|before|] == Fire(k, result, transferred);
    }
  }
}
