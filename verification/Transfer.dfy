/** `read_exact` and `write_all` over a byte pipe (`src/io/read/ext.rs`,
    `src/io/write/ext.rs`, and the WSABUF conversions in the two `mod.rs`).

    The pipe's answers to its polls, in order, are given in advance and are arbitrary:
    any chunk sizes, any failures, any number of Pending in between. */
module Transfer {
  import opened Options

  newtype byte = b: int | 0 <= b < 256
  const U32: int := 0x1_0000_0000
  newtype u32 = x: int | 0 <= x < U32

  /** A WSABUF into some array: `buf` is the index its pointer points to. */
  datatype WsaBuf = WsaBuf(len: u32, buf: nat)

  /** `From<&mut [u8]>`: `buf.len() as u32` truncates. */
  function AsWsaBuf(length: nat): (b: WsaBuf)
    ensures b.buf == 0 && b.len as int <= length
    ensures b.len as int == length <==> length < U32
  {
    WsaBuf((length % U32) as u32, 0)
  }

  datatype Polled = Pending | Done(n: u32) | Failed(code: nat)

  /** What the transport does at a poll: nothing yet, fail, move up to `k` bytes, or report
      a transfer of zero bytes. */
  datatype Answer = Blocks | Fails(code: nat) | Moves(k: nat) | MovesNone

  function Min(a: int, b: int): int {
    if a < b then a else b
  }

  /** How many of the answers report a transfer of nothing. */
  function Zeros(answers: seq<Answer>): nat {
    if answers == [] then 0 else (if answers[0].MovesNone? then 1 else 0) + Zeros(answers[1..])
  }

  /** How many of the answers move bytes when there are bytes to move. */
  function Positives(answers: seq<Answer>): nat {
    if answers == [] then 0 else (if answers[0].Moves? && answers[0].k > 0 then 1 else 0) + Positives(answers[1..])
  }

  /** What is left of the answers after some polls. */
  predicate Left(rest: seq<Answer>, answers: seq<Answer>) {
    |rest| <= |answers| && rest == answers[|answers| - |rest|..]
  }

  predicate MovesNext(answers: seq<Answer>) {
    answers != [] && answers[0].Moves? && answers[0].k > 0
  }

  predicate NothingNext(answers: seq<Answer>) {
    answers != [] && answers[0].MovesNone?
  }

  /** A first-in first-out byte pipe. */
  class Pipe {
    var fifo: seq<byte>
    var readAnswers: seq<Answer>
    var writeAnswers: seq<Answer>
    ghost var sent: seq<byte>
    ghost var received: seq<byte>
    ghost var reading: Option<WsaBuf>   // the buffer of a read that is pending
    ghost var writing: Option<WsaBuf>

    ghost predicate Valid()
      reads this
    {
      sent == received + fifo
    }

    constructor (readAnswers: seq<Answer>, writeAnswers: seq<Answer>)
      ensures Valid() && this.readAnswers == readAnswers && this.writeAnswers == writeAnswers
      ensures sent == [] && received == [] && reading == None && writing == None
    {
      fifo, this.readAnswers, this.writeAnswers := [], readAnswers, writeAnswers;
      sent, received, reading, writing := [], [], None, None;
    }

    /** `poll_read`. Its contract: from a Pending to its Ready the buffer stays the same. */
    method PollRead(buf: WsaBuf, mem: array<byte>) returns (r: Polled)
      requires Valid() && buf.buf + buf.len as int <= mem.Length
      requires reading.Some? ==> reading.value == buf
      modifies `fifo, `readAnswers, `received, `reading, mem
      ensures Valid() && reading == (if r.Pending? then Some(buf) else None)
      ensures old(readAnswers) == [] ==> r.Pending? && readAnswers == []
      ensures old(readAnswers) != [] ==> readAnswers == old(readAnswers)[1..]
      ensures r.Failed? ==> old(readAnswers) != [] && old(readAnswers)[0] == Fails(r.code)
      ensures r.Done? ==> r.n <= buf.len && |received| == |old(received)| + r.n as int
      ensures !r.Done? ==> received == old(received)
      ensures old(received) <= received
      ensures mem[buf.buf..buf.buf + (|received| - |old(received)|)] == received[|old(received)|..]
      ensures forall i :: 0 <= i < mem.Length && !(buf.buf <= i < buf.buf + (|received| - |old(received)|)) ==>
                mem[i] == old(mem[i])
      ensures r.Done? && r.n == 0 && buf.len > 0 ==> old(readAnswers)[0] == MovesNone
      ensures NothingNext(old(readAnswers)) ==> r == Done(0)
      ensures MovesNext(old(readAnswers)) && |old(fifo)| > 0 && buf.len > 0 ==>
                r.Done? && r.n > 0
    {
      r := Pending;
      ghost var before := received;
      if readAnswers != [] {
        var a := readAnswers[0];
        readAnswers := readAnswers[1..];
        match a {
          case Blocks =>
          case Fails(code) => r := Failed(code);
          case MovesNone => r := Done(0);
          case Moves(k) =>
            var t := Min(k, Min(buf.len as int, |fifo|));
            if t > 0 || buf.len == 0 {
              forall i | 0 <= i < t {
                mem[buf.buf + i] := fifo[i];
              }
              assert mem[buf.buf..buf.buf + t] == fifo[..t];
              assert (received + fifo[..t])[|before|..] == fifo[..t];
              received := received + fifo[..t];
              fifo := fifo[t..];
              r := Done(t as u32);
            }
        }
      }
      reading := if r.Pending? then Some(buf) else None;
    }

    /** `poll_write`, likewise. */
    method PollWrite(buf: WsaBuf, mem: array<byte>) returns (r: Polled)
      requires Valid() && buf.buf + buf.len as int <= mem.Length
      requires writing.Some? ==> writing.value == buf
      modifies `fifo, `writeAnswers, `sent, `writing
      ensures Valid() && writing == (if r.Pending? then Some(buf) else None)
      ensures old(writeAnswers) == [] ==> r.Pending? && writeAnswers == []
      ensures old(writeAnswers) != [] ==> writeAnswers == old(writeAnswers)[1..]
      ensures r.Failed? ==> old(writeAnswers) != [] && old(writeAnswers)[0] == Fails(r.code)
      ensures r.Done? ==> r.n <= buf.len && sent == old(sent) + mem[buf.buf..buf.buf + r.n as int]
      ensures !r.Done? ==> sent == old(sent)
      ensures r.Done? && r.n == 0 && buf.len > 0 ==> old(writeAnswers)[0] == MovesNone
      ensures NothingNext(old(writeAnswers)) ==> r == Done(0)
      ensures MovesNext(old(writeAnswers)) && buf.len > 0 ==> r.Done? && r.n > 0
    {
      r := Pending;
      if writeAnswers != [] {
        var a := writeAnswers[0];
        writeAnswers := writeAnswers[1..];
        match a {
          case Blocks =>
          case Fails(code) => r := Failed(code);
          case MovesNone => r := Done(0);
          case Moves(k) =>
            var t := Min(k, buf.len as int);
            if t > 0 || buf.len == 0 {
              fifo := fifo + mem[buf.buf..buf.buf + t];
              sent := sent + mem[buf.buf..buf.buf + t];
              r := Done(t as u32);
            }
        }
      }
      writing := if r.Pending? then Some(buf) else None;
    }
  }

  datatype Outcome = StillPending | Complete | Error(code: nat)

  /** The future `read_exact` returns: `rest` is the inner read's buffer, `n` the count. */
  class ReadExact {
    const pipe: Pipe
    const mem: array<byte>
    const buf: WsaBuf
    var rest: WsaBuf
    var n: nat
    ghost const start: nat      // bytes the pipe had delivered before

    /** What holds before every inner poll: bytes done plus bytes left make the whole
        buffer, the pointer is past the bytes done, and those are the bytes delivered. */
    ghost predicate Valid()
      reads this, pipe, mem
    {
      && pipe.Valid() && buf == AsWsaBuf(mem.Length)
      && n + rest.len as int == buf.len as int && rest.buf == n && (n == buf.len as int ==> n == 0)
      && |pipe.received| == start + n && mem[..n] == pipe.received[start..]
      && (pipe.reading.Some? ==> pipe.reading.value == rest)
    }

    ghost predicate Finished()
      reads this, pipe, mem
    {
      && pipe.Valid() && n == buf.len as int && buf == AsWsaBuf(mem.Length)
      && |pipe.received| == start + n && mem[..n] == pipe.received[start..]
    }

    constructor (pipe: Pipe, mem: array<byte>)
      requires pipe.Valid() && pipe.reading == None
      ensures this.pipe == pipe && this.mem == mem && Valid() && n == 0 && start == |pipe.received|
    {
      this.pipe, this.mem := pipe, mem;
      buf, rest := AsWsaBuf(mem.Length), AsWsaBuf(mem.Length);
      n := 0;
      start := |pipe.received|;
    }

    /** One inner poll, and the bookkeeping after it. */
    method Step() returns (r: Outcome, again: bool)
      requires Valid()
      modifies this, pipe`fifo, pipe`readAnswers, pipe`received, pipe`reading, mem
      ensures if r.Complete? then Finished() && !again else Valid()
      ensures old(n) <= n && old(pipe.received) <= pipe.received
      ensures forall i :: n <= i < mem.Length ==> mem[i] == old(mem[i])
      ensures pipe.readAnswers == if old(pipe.readAnswers) == [] then [] else old(pipe.readAnswers)[1..]
      ensures old(pipe.readAnswers) == [] ==> !again && r.StillPending? && n == old(n)
      ensures again ==> n > old(n) || old(pipe.readAnswers)[0].MovesNone?
      ensures r.StillPending? && !again ==> pipe.reading == Some(rest)
      ensures r.Error? ==> !again && old(pipe.readAnswers) != [] && old(pipe.readAnswers)[0] == Fails(r.code)
      ensures buf.len > 0 && NothingNext(old(pipe.readAnswers)) ==> again && r.StillPending? && n == old(n)
      ensures buf.len > 0 && MovesNext(old(pipe.readAnswers)) && old(pipe.fifo) != [] ==> n > old(n)
    {
      ghost var before := pipe.received;
      r, again := StillPending, false;
      var polled := pipe.PollRead(rest, mem);
      match polled {
        case Done(m) =>
          assert mem[..n + m as int] == pipe.received[start..] by {
            assert mem[..n + m as int] == mem[..n] + mem[n..n + m as int];
            assert pipe.received[start..] == before[start..] + pipe.received[|before|..];
          }
          n := n + m as int;
          if n == buf.len as int {
            r := Complete;
          } else {
            rest := WsaBuf(rest.len - m, rest.buf + m as int);
            again := true;
          }
        case Failed(code) => r := Error(code);
        case Pending =>
      }
    }

    /** `ReadExact::poll`, which polls itself again after a partial transfer. It ends with Ok
        exactly when the whole buffer is done. The inner polls it makes are bounded by the
        bytes moved and the transfers of nothing; transfers of nothing alone keep it going
        for as long as they come. */
    method Poll() returns (r: Outcome)
      requires Valid()
      modifies this, pipe`fifo, pipe`readAnswers, pipe`received, pipe`reading, mem
      ensures if r.Complete? then Finished() else Valid()
      ensures old(n) <= n && old(pipe.received) <= pipe.received
      ensures forall i :: n <= i < mem.Length ==> mem[i] == old(mem[i])
      ensures r.StillPending? ==> pipe.reading == Some(rest)
      ensures r.Error? ==> Fails(r.code) in old(pipe.readAnswers)
      ensures Left(pipe.readAnswers, old(pipe.readAnswers))
      ensures old(pipe.readAnswers) != [] ==> |pipe.readAnswers| < |old(pipe.readAnswers)|
      ensures |old(pipe.readAnswers)| - |pipe.readAnswers| <= n - old(n) +
                Zeros(old(pipe.readAnswers)) - Zeros(pipe.readAnswers) + 1
      ensures buf.len > 0 && |pipe.sent| >= start + buf.len as int ==>
                Positives(old(pipe.readAnswers)) - Positives(pipe.readAnswers) <= n - old(n)
      ensures buf.len > 0 && (forall a :: a in old(pipe.readAnswers) ==> a.MovesNone?) ==>
                r.StillPending? && n == old(n) && pipe.readAnswers == []
      ensures buf.len > 0 && MovesNext(old(pipe.readAnswers)) && old(pipe.fifo) != [] ==> n > old(n)
      decreases |pipe.readAnswers|
    {
      var again: bool;
      r, again := Step();
      assert Left(pipe.readAnswers, old(pipe.readAnswers));
      if again {
        r := Poll();
      }
    }
  }

  /** The future `write_all` returns. */
  class WriteAll {
    const pipe: Pipe
    const mem: array<byte>
    const buf: WsaBuf
    var rest: WsaBuf
    var n: nat
    ghost const start: nat

    ghost predicate Valid()
      reads this, pipe, mem
    {
      && pipe.Valid() && buf == AsWsaBuf(mem.Length)
      && n + rest.len as int == buf.len as int && rest.buf == n && (n == buf.len as int ==> n == 0)
      && |pipe.sent| == start + n && pipe.sent[start..] == mem[..n]
      && (pipe.writing.Some? ==> pipe.writing.value == rest)
    }

    ghost predicate Finished()
      reads this, pipe, mem
    {
      && pipe.Valid() && n == buf.len as int && buf == AsWsaBuf(mem.Length)
      && |pipe.sent| == start + n && pipe.sent[start..] == mem[..n]
    }

    constructor (pipe: Pipe, mem: array<byte>)
      requires pipe.Valid() && pipe.writing == None
      ensures this.pipe == pipe && this.mem == mem && Valid() && n == 0 && start == |pipe.sent|
    {
      this.pipe, this.mem := pipe, mem;
      buf, rest := AsWsaBuf(mem.Length), AsWsaBuf(mem.Length);
      n := 0;
      start := |pipe.sent|;
    }

    /** One inner poll, and the bookkeeping after it. */
    method Step() returns (r: Outcome, again: bool)
      requires Valid()
      modifies this, pipe`fifo, pipe`writeAnswers, pipe`sent, pipe`writing
      ensures if r.Complete? then Finished() && !again else Valid()
      ensures old(n) <= n
      ensures pipe.writeAnswers == if old(pipe.writeAnswers) == [] then [] else old(pipe.writeAnswers)[1..]
      ensures old(pipe.writeAnswers) == [] ==> !again && r.StillPending? && n == old(n)
      ensures again ==> n > old(n) || old(pipe.writeAnswers)[0].MovesNone?
      ensures r.StillPending? && !again ==> pipe.writing == Some(rest)
      ensures r.Error? ==> !again && old(pipe.writeAnswers) != [] && old(pipe.writeAnswers)[0] == Fails(r.code)
      ensures buf.len > 0 && NothingNext(old(pipe.writeAnswers)) ==> again && r.StillPending? && n == old(n)
      ensures buf.len > 0 && MovesNext(old(pipe.writeAnswers)) ==> n > old(n)
    {
      ghost var before := pipe.sent;
      r, again := StillPending, false;
      var polled := pipe.PollWrite(rest, mem);
      match polled {
        case Done(m) =>
          assert mem[..n + m as int] == mem[..n] + mem[n..n + m as int];
          assert pipe.sent[start..] == before[start..] + mem[n..n + m as int];
          n := n + m as int;
          if n == buf.len as int {
            r := Complete;
          } else {
            rest := WsaBuf(rest.len - m, rest.buf + m as int);
            again := true;
          }
        case Failed(code) => r := Error(code);
        case Pending =>
      }
    }

    /** `WriteAll::poll`, which polls itself again after a partial transfer. It ends with Ok
        exactly when the whole buffer is done. The inner polls it makes are bounded by the
        bytes moved and the transfers of nothing; transfers of nothing alone keep it going
        for as long as they come. */
    method Poll() returns (r: Outcome)
      requires Valid()
      modifies this, pipe`fifo, pipe`writeAnswers, pipe`sent, pipe`writing
      ensures if r.Complete? then Finished() else Valid()
      ensures old(n) <= n
      ensures r.StillPending? ==> pipe.writing == Some(rest)
      ensures r.Error? ==> Fails(r.code) in old(pipe.writeAnswers)
      ensures Left(pipe.writeAnswers, old(pipe.writeAnswers))
      ensures old(pipe.writeAnswers) != [] ==> |pipe.writeAnswers| < |old(pipe.writeAnswers)|
      ensures |old(pipe.writeAnswers)| - |pipe.writeAnswers| <= n - old(n) +
                Zeros(old(pipe.writeAnswers)) - Zeros(pipe.writeAnswers) + 1
      ensures buf.len > 0 ==> Positives(old(pipe.writeAnswers)) - Positives(pipe.writeAnswers) <= n - old(n)
      ensures buf.len > 0 && (forall a :: a in old(pipe.writeAnswers) ==> a.MovesNone?) ==>
                r.StillPending? && n == old(n) && pipe.writeAnswers == []
      ensures buf.len > 0 && MovesNext(old(pipe.writeAnswers)) ==> n > old(n)
      decreases |pipe.writeAnswers|
    {
      var again: bool;
      r, again := Step();
      assert Left(pipe.writeAnswers, old(pipe.writeAnswers));
      if again {
        r := Poll();
      }
    }
  }

  lemma FirstBytes(source: seq<byte>, written: nat, received: seq<byte>, fifo: seq<byte>)
    requires written <= |source| && source[..written] == received + fifo
    ensures |received| <= written && received == source[..|received|]
  {
    assert source[..|received|] == source[..written][..|received|];
  }

  /** How many of the turns are the writer's, or the reader's. */
  function Turns(turns: seq<bool>, writers: bool): nat {
    multiset(turns)[writers]
  }

  lemma OneMoreTurn(turns: seq<bool>, i: nat, writers: bool)
    requires i < |turns|
    ensures Turns(turns[..i + 1], writers) == Turns(turns[..i], writers) + if turns[i] == writers then 1 else 0
  {
    assert turns[..i + 1] == turns[..i] + [turns[i]];
  }

  /** Every poll takes an answer while there is one. */
  predicate TookAnswers(before: seq<Answer>, now: seq<Answer>, polls: nat) {
    |now| <= |before| && (now == [] || |before| - |now| >= polls)
  }

  /** The two ends of one pipe and how their futures stand. */
  ghost predicate Ends(w: WriteAll, r: ReadExact, written: Outcome, read: Outcome)
    reads w, r, w.pipe, w.mem, r.mem
  {
    && w.pipe == r.pipe && w.mem != r.mem && w.start == 0 && r.start == 0
    && (if written.Complete? then w.Finished() else w.Valid())
    && (if read.Complete? then r.Finished() else r.Valid())
  }

  method WriterTurn(w: WriteAll, r: ReadExact, read: Outcome) returns (written: Outcome)
    requires Ends(w, r, StillPending, read)
    modifies w, w.pipe`fifo, w.pipe`writeAnswers, w.pipe`sent, w.pipe`writing
    ensures Ends(w, r, written, read) && old(w.n) <= w.n
    ensures written.Error? ==> Fails(written.code) in old(w.pipe.writeAnswers)
    ensures forall a :: a in w.pipe.writeAnswers ==> a in old(w.pipe.writeAnswers)
    ensures TookAnswers(old(w.pipe.writeAnswers), w.pipe.writeAnswers, 1)
    ensures w.buf.len > 0 ==> Positives(old(w.pipe.writeAnswers)) - Positives(w.pipe.writeAnswers) <= w.n - old(w.n)
  {
    written := w.Poll();
  }

  method ReaderTurn(w: WriteAll, r: ReadExact, written: Outcome) returns (read: Outcome)
    requires Ends(w, r, written, StillPending)
    modifies r, r.pipe`fifo, r.pipe`readAnswers, r.pipe`received, r.pipe`reading, r.mem
    ensures Ends(w, r, written, read)
    ensures forall k :: r.n <= k < r.mem.Length ==> r.mem[k] == old(r.mem[k])
    ensures old(r.n) <= r.n
    ensures read.Error? ==> Fails(read.code) in old(r.pipe.readAnswers)
    ensures forall a :: a in r.pipe.readAnswers ==> a in old(r.pipe.readAnswers)
    ensures TookAnswers(old(r.pipe.readAnswers), r.pipe.readAnswers, 1)
    ensures r.buf.len > 0 && |r.pipe.sent| >= r.buf.len as int ==>
              Positives(old(r.pipe.readAnswers)) - Positives(r.pipe.readAnswers) <= r.n - old(r.n)
  {
    read := r.Poll();
  }

  /** One turn: the future whose turn it is is polled, unless it has ended. */
  method Turn(w: WriteAll, r: ReadExact, writers: bool, written0: Outcome, read0: Outcome)
    returns (written: Outcome, read: Outcome)
    requires Ends(w, r, written0, read0)
    modifies w, r, w.pipe, r.mem
    ensures Ends(w, r, written, read)
    ensures !(writers && written0.StillPending?) ==>
              written == written0 && w.n == old(w.n) && w.pipe.writeAnswers == old(w.pipe.writeAnswers)
    ensures !(!writers && read0.StillPending?) ==>
              read == read0 && r.n == old(r.n) && r.pipe.readAnswers == old(r.pipe.readAnswers)
    ensures forall k :: r.n <= k < r.mem.Length ==> r.mem[k] == old(r.mem[k])
    ensures old(w.n) <= w.n && old(r.n) <= r.n
    ensures written.Error? && !written0.Error? ==> Fails(written.code) in old(w.pipe.writeAnswers)
    ensures read.Error? && !read0.Error? ==> Fails(read.code) in old(r.pipe.readAnswers)
    ensures forall a :: a in w.pipe.writeAnswers ==> a in old(w.pipe.writeAnswers)
    ensures forall a :: a in r.pipe.readAnswers ==> a in old(r.pipe.readAnswers)
    ensures writers && written0.StillPending? ==> TookAnswers(old(w.pipe.writeAnswers), w.pipe.writeAnswers, 1)
    ensures !writers && read0.StillPending? ==> TookAnswers(old(r.pipe.readAnswers), r.pipe.readAnswers, 1)
    ensures writers && written0.StillPending? && w.buf.len > 0 ==>
              Positives(old(w.pipe.writeAnswers)) - Positives(w.pipe.writeAnswers) <= w.n - old(w.n)
    ensures !writers && read0.StillPending? && r.buf.len > 0 && |r.pipe.sent| >= r.buf.len as int ==>
              Positives(old(r.pipe.readAnswers)) - Positives(r.pipe.readAnswers) <= r.n - old(r.n)
  {
    written, read := written0, read0;
    if writers && written.StillPending? {
      written := WriterTurn(w, r, read);
    } else if !writers && read.StillPending? {
      read := ReaderTurn(w, r, written);
    }
  }

  /** The two futures, polled in the order `turns` says until each has ended. */
  method Converse(w: WriteAll, r: ReadExact, turns: seq<bool>) returns (written: Outcome, read: Outcome)
    requires Ends(w, r, StillPending, StillPending)
    modifies w, r, w.pipe, r.mem
    ensures Ends(w, r, written, read)
    ensures forall k :: r.n <= k < r.mem.Length ==> r.mem[k] == old(r.mem[k])
    ensures written.Error? ==> Fails(written.code) in old(w.pipe.writeAnswers)
    ensures read.Error? ==> Fails(read.code) in old(r.pipe.readAnswers)
    ensures written.StillPending? ==> TookAnswers(old(w.pipe.writeAnswers), w.pipe.writeAnswers, Turns(turns, true))
    ensures read.StillPending? ==> TookAnswers(old(r.pipe.readAnswers), r.pipe.readAnswers, Turns(turns, false))
  {
    written, read := StillPending, StillPending;
    for i := 0 to |turns|
      invariant Ends(w, r, written, read)
      invariant forall k :: r.n <= k < r.mem.Length ==> r.mem[k] == old(r.mem[k])
      invariant forall a :: a in w.pipe.readAnswers ==> a in old(w.pipe.readAnswers)
      invariant forall a :: a in w.pipe.writeAnswers ==> a in old(w.pipe.writeAnswers)
      invariant written.Error? ==> Fails(written.code) in old(w.pipe.writeAnswers)
      invariant read.Error? ==> Fails(read.code) in old(r.pipe.readAnswers)
      invariant written.StillPending? ==>
                  TookAnswers(old(w.pipe.writeAnswers), w.pipe.writeAnswers, Turns(turns[..i], true))
      invariant read.StillPending? ==>
                  TookAnswers(old(r.pipe.readAnswers), r.pipe.readAnswers, Turns(turns[..i], false))
    {
      OneMoreTurn(turns, i, true);
      OneMoreTurn(turns, i, false);
      written, read := Turn(w, r, turns[i], written, read);
    }
    assert turns[..|turns|] == turns;
  }

  /** A writer and a reader on the two ends of a pipe, polled in the order `turns` says
      (true for the writer) until each has ended. Whatever the pipe does, the bytes read so
      far are the source's first bytes, each once and in order; a reader that completes has
      all of them. */
  method RoundTrip(source: array<byte>, dest: array<byte>,
                   readAnswers: seq<Answer>, writeAnswers: seq<Answer>, turns: seq<bool>)
      returns (written: Outcome, read: Outcome, n: nat, readLeft: seq<Answer>, writeLeft: seq<Answer>)
    requires source != dest
    modifies dest
    ensures n <= dest.Length && n <= source.Length && dest[..n] == source[..n]
    ensures forall k :: n <= k < dest.Length ==> dest[k] == old(dest[k])
    ensures read.Complete? ==> n == dest.Length % U32 <= source.Length % U32
    ensures read.Complete? && dest.Length == source.Length < U32 ==>
              dest[..] == source[..] && (source.Length > 0 ==> written.Complete?)
    ensures written.Error? ==> Fails(written.code) in writeAnswers
    ensures read.Error? ==> Fails(read.code) in readAnswers
    ensures written.StillPending? ==> TookAnswers(writeAnswers, writeLeft, Turns(turns, true))
    ensures read.StillPending? ==> TookAnswers(readAnswers, readLeft, Turns(turns, false))
  {
    var pipe := new Pipe(readAnswers, writeAnswers);
    var w := new WriteAll(pipe, source);
    var r := new ReadExact(pipe, dest);
    written, read := Converse(w, r, turns);
    n, readLeft, writeLeft := r.n, pipe.readAnswers, pipe.writeAnswers;
    assert pipe.received[0..] == pipe.received && pipe.sent[0..] == pipe.sent;
    FirstBytes(source[..], w.n, dest[..n], pipe.fifo);
  }

  /** From wherever an exchange stands, with transports that do not fail, and in whatever
      order the two ends are polled: the writer is done unless its transport has moved bytes
      fewer times than it had bytes left, and once the writer is done the same holds of the
      reader. However many Pending and transfers of nothing come in between, nothing else
      can keep an end from completing. */
  method Exchange(w: WriteAll, r: ReadExact, turns: seq<bool>, written0: Outcome, read0: Outcome)
    returns (written: Outcome, read: Outcome)
    requires Ends(w, r, written0, read0) && 0 < w.mem.Length == r.mem.Length < U32
    requires !written0.Error? && !read0.Error?
    requires forall a :: a in w.pipe.writeAnswers || a in r.pipe.readAnswers ==> !a.Fails?
    modifies w, r, w.pipe, r.mem
    ensures Ends(w, r, written, read) && !written.Error? && !read.Error?
    ensures written.StillPending? ==>
              Positives(old(w.pipe.writeAnswers)) - Positives(w.pipe.writeAnswers) < w.mem.Length - old(w.n)
    ensures written0.Complete? && read.StillPending? ==>
              Positives(old(r.pipe.readAnswers)) - Positives(r.pipe.readAnswers) < r.mem.Length - old(r.n)
    ensures read.Complete? ==> r.mem[..] == w.mem[..]
    ensures written.StillPending? ==> TookAnswers(old(w.pipe.writeAnswers), w.pipe.writeAnswers, Turns(turns, true))
    ensures read.StillPending? ==> TookAnswers(old(r.pipe.readAnswers), r.pipe.readAnswers, Turns(turns, false))
  {
    written, read := written0, read0;
    for i := 0 to |turns|
      invariant Ends(w, r, written, read) && !written.Error? && !read.Error?
      invariant forall a :: a in w.pipe.writeAnswers || a in r.pipe.readAnswers ==> !a.Fails?
      invariant written0.Complete? ==> written.Complete?
      invariant written.StillPending? ==>
                  Positives(old(w.pipe.writeAnswers)) - Positives(w.pipe.writeAnswers) <= w.n - old(w.n)
      invariant written0.Complete? && read.StillPending? ==>
                  Positives(old(r.pipe.readAnswers)) - Positives(r.pipe.readAnswers) <= r.n - old(r.n)
      invariant written.StillPending? ==>
                  TookAnswers(old(w.pipe.writeAnswers), w.pipe.writeAnswers, Turns(turns[..i], true))
      invariant read.StillPending? ==>
                  TookAnswers(old(r.pipe.readAnswers), r.pipe.readAnswers, Turns(turns[..i], false))
    {
      OneMoreTurn(turns, i, true);
      OneMoreTurn(turns, i, false);
      written, read := Turn(w, r, turns[i], written, read);
    }
    assert turns[..|turns|] == turns;
    assert w.pipe.received[0..] == w.pipe.received && w.pipe.sent[0..] == w.pipe.sent;
    FirstBytes(w.mem[..], w.n, r.mem[..r.n], w.pipe.fifo);
  }

  /** However far an exchange has come: if from now on neither transport fails and each moves
      bytes at least as often as bytes are left, both ends complete, however many Pending
      and transfers of nothing come in between. */
  method Finish(w: WriteAll, r: ReadExact)
    requires Ends(w, r, StillPending, StillPending) && 0 < w.mem.Length == r.mem.Length < U32
    requires forall a :: a in w.pipe.writeAnswers || a in r.pipe.readAnswers ==> !a.Fails?
    requires Positives(w.pipe.writeAnswers) >= w.mem.Length - w.n
    requires Positives(r.pipe.readAnswers) >= r.mem.Length - r.n
    modifies w, r, w.pipe, r.mem
    ensures Ends(w, r, Complete, Complete) && r.mem[..] == w.mem[..]
  {
    var written, read := StillPending, StillPending;
    while written.StillPending? && w.pipe.writeAnswers != []
      invariant Ends(w, r, written, StillPending) && !written.Error?
      invariant forall a :: a in w.pipe.writeAnswers ==> !a.Fails?
      invariant r.n == old(r.n) && w.pipe.readAnswers == old(w.pipe.readAnswers)
      invariant written.StillPending? ==> Positives(w.pipe.writeAnswers) >= w.mem.Length - w.n
      decreases |w.pipe.writeAnswers|
    {
      written := WriterTurn(w, r, StillPending);
    }
    while read.StillPending? && r.pipe.readAnswers != []
      invariant Ends(w, r, Complete, read) && !read.Error?
      invariant forall a :: a in r.pipe.readAnswers ==> !a.Fails?
      invariant read.StillPending? ==> Positives(r.pipe.readAnswers) >= r.mem.Length - r.n
      decreases |r.pipe.readAnswers|
    {
      read := ReaderTurn(w, r, Complete);
    }
    assert w.pipe.received[0..] == w.pipe.received && w.pipe.sent[0..] == w.pipe.sent;
  }
}
