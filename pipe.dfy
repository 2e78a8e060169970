/** The bounded byte pipe of `ioutils/Pipe.java`: a fixed-capacity circular
    buffer with a write end (`PipedOutputStream`) and a read end
    (`PipedInputStream`).  A call that would wait on the monitor returns a
    "blocked" outcome instead and leaves the pipe unchanged from that point. */
module Pipes {
  import opened Common

  // ---------------------------------------------------------------------------
  // Abstract view: the bytes in FIFO order and the two closed flags.

  datatype PipeState = PipeState(capacity: nat, buffered: seq<JByte>, inputClosed: bool, outputClosed: bool)

  /** Readable bytes never exceed the capacity, which is positive (the constructor rejects 0). */
  predicate Inv(s: PipeState)
  {
    s.capacity > 0 && |s.buffered| <= s.capacity
  }

  /** What `read(buffer, offset, length)` reports: an IndexOutOfBoundsException,
      a wait for data, end of stream (-1) or a byte count. */
  datatype ReadResult = ReadIndexError | ReadBlocked | ReadEof | ReadCount(n: nat)

  /** What `write(buffer, offset, count)` reports: an IndexOutOfBoundsException,
      "Pipe closed" after `written` bytes, a wait for space after `written` bytes,
      or completion. */
  datatype WriteResult = WriteIndexError | WriteClosed(written: nat) | WriteBlocked(written: nat) | WriteDone

  /** One `read(buffer, offset, length)` on a caller buffer of `bufferLength` bytes. */
  function ReadCall(s: PipeState, bufferLength: int, offset: int, length: int): (PipeState, ReadResult)
  {
    if offset < 0 || length <= 0 || offset + length > bufferLength then (s, ReadIndexError)
    else if |s.buffered| == 0 then (s, if s.outputClosed then ReadEof else ReadBlocked)
    else
      var n := Min(Min(length, s.capacity), |s.buffered|);
      (s.(buffered := s.buffered[n..]), ReadCount(n))
  }

  /** The transfer part of `write`, once the arguments are checked: nothing if the
      read end is closed, otherwise as many bytes as there is free space, after
      which the writer waits for the rest. */
  function WriteBytes(s: PipeState, bytes: seq<JByte>): (PipeState, WriteResult)
    requires Inv(s)
  {
    if s.inputClosed then (s, WriteClosed(0))
    else
      var n := Min(|bytes|, s.capacity - |s.buffered|);
      (s.(buffered := s.buffered + bytes[..n]), if n == |bytes| then WriteDone else WriteBlocked(n))
  }

  /** One `write(src, offset, count)`. */
  function WriteCall(s: PipeState, src: seq<JByte>, offset: int, count: int): (PipeState, WriteResult)
    requires Inv(s)
  {
    if offset < 0 || count <= 0 || offset + count > |src| then (s, WriteIndexError)
    else WriteBytes(s, src[offset..offset + count])
  }

  lemma {:induction false} ReadCallProperties(s: PipeState, bufferLength: int, offset: int, length: int)
    requires Inv(s)
    ensures var (s', r) := ReadCall(s, bufferLength, offset, length);
      && Inv(s')
      && s'.capacity == s.capacity && s'.inputClosed == s.inputClosed && s'.outputClosed == s.outputClosed
      && (r == ReadIndexError <==> offset < 0 || length <= 0 || offset + length > bufferLength)
      && (r == ReadEof <==> r != ReadIndexError && s.buffered == [] && s.outputClosed)
      && (r == ReadBlocked <==> r != ReadIndexError && s.buffered == [] && !s.outputClosed)
      && (r.ReadCount? <==> r != ReadIndexError && s.buffered != [])
      && (r.ReadCount? ==> 0 < r.n <= length && r.n <= s.capacity && s.buffered == s.buffered[..r.n] + s'.buffered)
      && (r.ReadCount? ==> r.n == Min(Min(length, s.capacity), |s.buffered|))
  {
    var (s', r) := ReadCall(s, bufferLength, offset, length);
    if r.ReadCount? {
      assert s.buffered == s.buffered[..r.n] + s.buffered[r.n..];
    }
  }

  /** A write that has moved `written` bytes and found no space left waits. */
  lemma {:induction false} WriteBlocksAt(s: PipeState, src: seq<JByte>, offset: int, count: int, written: int)
    requires Inv(s) && !s.inputClosed
    requires 0 <= offset && offset + count <= |src| && 0 <= written < count
    requires |s.buffered| + written == s.capacity
    ensures WriteCall(s, src, offset, count)
         == (s.(buffered := s.buffered + src[offset..offset + count][..written]), WriteBlocked(written))
  {
  }

  /** A write whose bytes all fit completes. */
  lemma {:induction false} WriteCompletes(s: PipeState, src: seq<JByte>, offset: int, count: int)
    requires Inv(s) && !s.inputClosed
    requires 0 <= offset && 0 < count && offset + count <= |src|
    requires |s.buffered| + count <= s.capacity
    ensures WriteCall(s, src, offset, count)
         == (s.(buffered := s.buffered + src[offset..offset + count][..count]), WriteDone)
  {
  }

  lemma {:induction false} WriteCallProperties(s: PipeState, src: seq<JByte>, offset: int, count: int)
    requires Inv(s)
    ensures var (s', r) := WriteCall(s, src, offset, count);
      && Inv(s')
      && s'.capacity == s.capacity && s'.inputClosed == s.inputClosed && s'.outputClosed == s.outputClosed
      && (r == WriteIndexError <==> offset < 0 || count <= 0 || offset + count > |src|)
      && (r != WriteIndexError && s.inputClosed ==> r == WriteClosed(0) && s' == s)
      && (r.WriteBlocked? ==> r.written == s.capacity - |s.buffered| < count && |s'.buffered| == s.capacity)
      && (r == WriteDone ==> s'.buffered == s.buffered + src[offset..offset + count])
      && (r.WriteBlocked? ==> s'.buffered == s.buffered + src[offset..offset + r.written])
  {
  }

  // ---------------------------------------------------------------------------
  // Round trip over any interleaving of writes, reads and closes.

  datatype Op = OpWrite(bytes: seq<JByte>) | OpRead(length: int) | OpCloseInput | OpCloseOutput

  /** The effect of one operation: the new state, the bytes the pipe accepted from
      the writer, the bytes it delivered to the reader, and whether the reader saw
      end of stream. */
  datatype Step = Step(state: PipeState, accepted: seq<JByte>, delivered: seq<JByte>, eof: bool)

  function Apply(s: PipeState, op: Op): (st: Step)
    requires Inv(s)
  {
    match op
    case OpWrite(bytes) =>
      var (s', r) := WriteCall(s, bytes, 0, |bytes|);
      var n := match r
        case WriteBlocked(k) => k
        case WriteDone => |bytes|
        case _ => 0;
      Step(s', bytes[..n], [], false)
    case OpRead(length) =>
      var (s', r) := ReadCall(s, length, 0, length);
      (match r
       case ReadCount(n) => Step(s', [], s.buffered[..n], false)
       case ReadEof => Step(s', [], [], true)
       case _ => Step(s', [], [], false))
    case OpCloseInput => Step(s.(inputClosed := true), [], [], false)
    case OpCloseOutput => Step(s.(outputClosed := true), [], [], false)
  }

  lemma {:induction false} ApplyConserves(s: PipeState, op: Op)
    requires Inv(s)
    ensures var st := Apply(s, op);
      Inv(st.state) && st.state.capacity == s.capacity
      && st.delivered + st.state.buffered == s.buffered + st.accepted
      && (st.eof ==> s.buffered == [] && st.state.buffered == [] && st.state.outputClosed)
      && (op.OpWrite? && s.inputClosed ==> st.accepted == [])
  {
    match op
    case OpWrite(bytes) =>
      WriteCallProperties(s, bytes, 0, |bytes|);
      assert bytes[0..|bytes|] == bytes;
    case OpRead(length) =>
      ReadCallProperties(s, length, 0, length);
    case OpCloseInput =>
    case OpCloseOutput =>
  }

  /** Replays `ops` from `s`: the final state, everything accepted from the
      writer, everything delivered to the reader, and whether the last operation
      was a read that saw end of stream. */
  function Replay(s: PipeState, ops: seq<Op>): (st: Step)
    requires Inv(s)
    decreases |ops|
  {
    if ops == [] then Step(s, [], [], false)
    else
      ApplyConserves(s, ops[0]);
      var first := Apply(s, ops[0]);
      var rest := Replay(first.state, ops[1..]);
      Step(rest.state, first.accepted + rest.accepted, first.delivered + rest.delivered,
           if |ops| == 1 then first.eof else rest.eof)
  }

  lemma {:induction false} Regroup<T>(d1: seq<T>, d2: seq<T>, b2: seq<T>, b1: seq<T>, b0: seq<T>, a1: seq<T>, a2: seq<T>)
    requires d1 + b1 == b0 + a1 && d2 + b2 == b1 + a2
    ensures (d1 + d2) + b2 == b0 + (a1 + a2)
  {
    calc {
      (d1 + d2) + b2;
      d1 + (d2 + b2);
      d1 + (b1 + a2);
      (d1 + b1) + a2;
      (b0 + a1) + a2;
    }
  }

  /** Nothing is lost, duplicated or reordered: what was delivered, followed by
      what is still buffered, is what was buffered before followed by what was
      accepted. */
  lemma {:induction false} ReplayConserves(s: PipeState, ops: seq<Op>)
    requires Inv(s)
    ensures var st := Replay(s, ops);
      Inv(st.state) && st.delivered + st.state.buffered == s.buffered + st.accepted
      && (st.eof ==> st.state.buffered == [] && st.state.outputClosed)
    decreases |ops|
  {
    if ops != [] {
      ApplyConserves(s, ops[0]);
      var first := Apply(s, ops[0]);
      ReplayConserves(first.state, ops[1..]);
      var rest := Replay(first.state, ops[1..]);
      var eof := if |ops| == 1 then first.eof else rest.eof;
      assert Replay(s, ops) == Step(rest.state, first.accepted + rest.accepted, first.delivered + rest.delivered, eof);
      Regroup(first.delivered, rest.delivered, rest.state.buffered, first.state.buffered, s.buffered, first.accepted, rest.accepted);
      if |ops| == 1 {
        assert ops[1..] == [];
        assert rest.state == first.state;
      }
    }
  }

  /** The pipe's round trip: for any capacity and any interleaving of writes,
      reads and closes that starts on an empty pipe and ends with the reader
      seeing end of stream, the bytes read are exactly the bytes written, in
      order. */
  lemma {:induction false} PipeRoundTrip(capacity: nat, ops: seq<Op>)
    requires capacity > 0
    requires Replay(PipeState(capacity, [], false, false), ops).eof
    ensures var st := Replay(PipeState(capacity, [], false, false), ops);
      st.delivered == st.accepted
  {
    ReplayConserves(PipeState(capacity, [], false, false), ops);
    var st := Replay(PipeState(capacity, [], false, false), ops);
    assert st.delivered + [] == st.delivered;
    assert [] + st.accepted == st.accepted;
  }

  // ---------------------------------------------------------------------------
  // Sequence helpers for the circular array.

  /** The index `i` places after `start` in an array of `length` slots, wrapping
      once: `(start + i) % length` for the ranges the pipe uses. */
  function Slot(start: int, i: int, length: int): int
  {
    if start + i < length then start + i else start + i - length
  }

  lemma {:induction false} SlotIsMod(start: int, i: int, length: int)
    requires 0 <= start < length && 0 <= i <= length
    ensures Slot(start, i, length) == (start + i) % length
  {
    if start + i >= length {
      assert (start + i - length) + length * 1 == start + i;
    }
  }

  /** The `n` bytes of `a` starting at `start`, wrapping at the end. */
  function Circular(a: seq<JByte>, start: int, n: int): (r: seq<JByte>)
    requires 0 <= start < |a| && 0 <= n <= |a|
    ensures |r| == n
  {
    if start + n <= |a| then a[start..start + n] else a[start..] + a[..start + n - |a|]
  }

  /** `a` with `bs` stored from index `p` on. */
  function Splice(a: seq<JByte>, p: int, bs: seq<JByte>): (r: seq<JByte>)
    requires 0 <= p && p + |bs| <= |a|
    ensures |r| == |a|
  {
    a[..p] + bs + a[p + |bs|..]
  }

  /** `a` with `bs` stored from index `p` on, wrapping at the end. */
  function Overwrite(a: seq<JByte>, p: int, bs: seq<JByte>): (r: seq<JByte>)
    requires 0 <= p < |a| && |bs| <= |a|
    ensures |r| == |a|
  {
    if p + |bs| <= |a| then Splice(a, p, bs)
    else Splice(Splice(a, p, bs[..|a| - p]), 0, bs[|a| - p..])
  }

  lemma {:induction false} CircularAt(a: seq<JByte>, start: int, n: int, i: int)
    requires 0 <= start < |a| && 0 <= n <= |a| && 0 <= i < n
    ensures Circular(a, start, n)[i] == a[Slot(start, i, |a|)]
  {
  }

  lemma {:induction false} OverwriteAt(a: seq<JByte>, p: int, bs: seq<JByte>, j: int)
    requires 0 <= p < |a| && |bs| <= |a| && 0 <= j < |a|
    ensures Overwrite(a, p, bs)[Slot(p, j, |a|)] == if j < |bs| then bs[j] else a[Slot(p, j, |a|)]
  {
  }

  lemma {:induction false} SpliceConcat(b: seq<JByte>, p: int, xs: seq<JByte>, ys: seq<JByte>)
    requires 0 <= p && p + |xs| + |ys| <= |b|
    ensures Splice(Splice(b, p, xs), p + |xs|, ys) == Splice(b, p, xs + ys)
  {
  }

  /** The two copies of `writeCircular` when the bytes wrap: the head up to
      the end of the array, then the rest from index 0. */
  lemma {:induction false} CopyWrapsIn(a0: seq<JByte>, a1: seq<JByte>, a2: seq<JByte>, src: seq<JByte>, offset: int, p: int, length: int)
    requires 0 <= p < |a0| && |a0| - p < length <= |a0| && 0 <= offset && offset + length <= |src|
    requires a1 == Splice(a0, p, src[offset..offset + |a0| - p])
    requires a2 == Splice(a1, 0, src[offset + |a0| - p..offset + length])
    ensures a2 == Overwrite(a0, p, src[offset..offset + length])
  {
    var bs := src[offset..offset + length];
    assert bs[..|a0| - p] == src[offset..offset + |a0| - p];
    assert bs[|a0| - p..] == src[offset + |a0| - p..offset + length];
  }

  /** The two copies of `readCircular` when the bytes wrap. */
  lemma {:induction false} CopyWrapsOut(a: seq<JByte>, b0: seq<JByte>, b1: seq<JByte>, b2: seq<JByte>, start: int, offset: int, length: int)
    requires 0 <= start < |a| && |a| - start < length <= |a| && 0 <= offset && offset + length <= |b0|
    requires b1 == Splice(b0, offset, a[start..|a|])
    requires b2 == Splice(b1, offset + |a| - start, a[0..start + length - |a|])
    ensures b2 == Splice(b0, offset, Circular(a, start, length))
  {
    assert a[start..|a|] == a[start..];
    assert a[0..start + length - |a|] == a[..start + length - |a|];
    SpliceConcat(b0, offset, a[start..], a[..start + length - |a|]);
  }

  lemma {:induction false} SpliceStep(a: seq<JByte>, p: int, bs: seq<JByte>, x: JByte)
    requires 0 <= p && p + |bs| < |a|
    ensures Splice(a, p, bs)[p + |bs| := x] == Splice(a, p, bs + [x])
  {
  }

  lemma {:induction false} SliceOfSlice(s: seq<JByte>, p: int, q: int, i: int, j: int)
    requires 0 <= p <= q <= |s| && 0 <= i <= j <= q - p
    ensures s[p..q][i..j] == s[p + i..p + j]
  {
    assert forall k :: 0 <= k < j - i ==> s[p..q][i..j][k] == s[p + i + k];
  }

  /** Reading `n` bytes leaves the rest of the readable bytes after the new read cursor. */
  lemma {:induction false} CircularAdvance(a: seq<JByte>, start: int, total: int, n: int)
    requires 0 <= start < |a| && 0 <= n <= total <= |a|
    ensures Slot(start, n, |a|) < |a|
    ensures Circular(a, start, total)[..n] == Circular(a, start, n)
    ensures Circular(a, start, total)[n..] == Circular(a, Slot(start, n, |a|), total - n)
  {
    var c, d := Circular(a, start, total), Circular(a, start, n);
    var mid := Slot(start, n, |a|);
    var e := Circular(a, mid, total - n);
    forall i | 0 <= i < n
      ensures c[i] == d[i]
    {
      CircularAt(a, start, total, i);
      CircularAt(a, start, n, i);
    }
    assert c[..n] == d;
    forall i | 0 <= i < total - n
      ensures c[n + i] == e[i]
    {
      CircularAt(a, start, total, n + i);
      CircularAt(a, mid, total - n, i);
      assert Slot(mid, i, |a|) == Slot(start, n + i, |a|);
    }
    assert c[n..] == e;
  }

  lemma {:induction false} OverwriteKeepsAt(a: seq<JByte>, start: int, count: int, bs: seq<JByte>, i: int)
    requires 0 <= start < |a| && 0 <= count && count + |bs| <= |a| && 0 <= i < count
    ensures Circular(Overwrite(a, Slot(start, count, |a|), bs), start, count + |bs|)[i] == Circular(a, start, count)[i]
  {
    var L := |a|;
    var wp := Slot(start, count, L);
    var j := i - count + L;
    assert |bs| <= j < L;
    assert Slot(wp, j, L) == Slot(start, i, L);
    OverwriteAt(a, wp, bs, j);
    CircularAt(Overwrite(a, wp, bs), start, count + |bs|, i);
    CircularAt(a, start, count, i);
  }

  lemma {:induction false} OverwriteAddsAt(a: seq<JByte>, start: int, count: int, bs: seq<JByte>, i: int)
    requires 0 <= start < |a| && 0 <= count && count + |bs| <= |a| && 0 <= i < |bs|
    ensures Circular(Overwrite(a, Slot(start, count, |a|), bs), start, count + |bs|)[count + i] == bs[i]
  {
    var L := |a|;
    var wp := Slot(start, count, L);
    CircularAt(Overwrite(a, wp, bs), start, count + |bs|, count + i);
    assert Slot(wp, i, L) == Slot(start, count + i, L);
    OverwriteAt(a, wp, bs, i);
  }

  /** Storing bytes at the write cursor appends them to the readable bytes and
      keeps the readable ones. */
  lemma {:induction false} OverwriteAppends(a: seq<JByte>, start: int, count: int, bs: seq<JByte>)
    requires 0 <= start < |a| && 0 <= count && count + |bs| <= |a|
    ensures Slot(start, count, |a|) < |a|
    ensures Circular(Overwrite(a, Slot(start, count, |a|), bs), start, count + |bs|) == Circular(a, start, count) + bs
  {
    var after := Circular(Overwrite(a, Slot(start, count, |a|), bs), start, count + |bs|);
    var before := Circular(a, start, count);
    forall i | 0 <= i < count
      ensures after[i] == before[i]
    {
      OverwriteKeepsAt(a, start, count, bs, i);
    }
    forall i | 0 <= i < |bs|
      ensures after[count + i] == bs[i]
    {
      OverwriteAddsAt(a, start, count, bs, i);
    }
    assert after == before + bs;
  }

  // ---------------------------------------------------------------------------
  // The implementation: one array updated in place, two cursors, two counters.

  /** `System.arraycopy(src, srcPos, dst, dstPos, length)` for distinct arrays. */
  method ArrayCopy(src: array<JByte>, srcPos: int, dst: array<JByte>, dstPos: int, length: int)
    requires src != dst
    requires 0 <= srcPos && 0 <= dstPos && 0 <= length
    requires srcPos + length <= src.Length && dstPos + length <= dst.Length
    modifies dst
    ensures dst[..] == Splice(old(dst[..]), dstPos, src[srcPos..srcPos + length])
    ensures src[..] == old(src[..])
  {
    var i := 0;
    while i < length
      invariant 0 <= i <= length
      invariant dst[..] == Splice(old(dst[..]), dstPos, src[srcPos..srcPos + i])
    {
      SpliceStep(old(dst[..]), dstPos, src[srcPos..srcPos + i], src[srcPos + i]);
      assert src[srcPos..srcPos + i] + [src[srcPos + i]] == src[srcPos..srcPos + i + 1];
      dst[dstPos + i] := src[srcPos + i];
      i := i + 1;
    }
  }

  class Pipe {
    var dataBuffer: array<JByte>
    var availableDataCnt: int
    var availableBufferSpace: int
    var readPos: int
    var writePos: int
    /** `PipedInputStream.isClosed`: the read end was closed. */
    var inputClosed: bool
    /** `PipedOutputStream.isClosed`: the write end was closed. */
    var outputClosed: bool
    /** The readable bytes in FIFO order. */
    ghost var buffered: seq<JByte>

    /** The invariant the source asserts after every transfer
        (`availableDataCnt + availableBufferSpace == dataBuffer.length`), both
        cursors in `[0, dataBuffer.length)`, the write cursor
        `availableDataCnt` slots after the read cursor, and the readable bytes
        stored from the read cursor on, wrapping at the end of the array. */
    ghost predicate Valid()
      reads this, dataBuffer
    {
      && dataBuffer.Length > 0
      && 0 <= readPos < dataBuffer.Length
      && 0 <= writePos < dataBuffer.Length
      && 0 <= availableDataCnt && 0 <= availableBufferSpace
      && availableDataCnt + availableBufferSpace == dataBuffer.Length
      && writePos == Slot(readPos, availableDataCnt, dataBuffer.Length)
      && buffered == Circular(dataBuffer[..], readPos, availableDataCnt)
    }

    ghost function State(): (s: PipeState)
      reads this
    {
      PipeState(dataBuffer.Length, buffered, inputClosed, outputClosed)
    }

    /** `new Pipe(bufferSize)` for a size the constructor accepts. */
    constructor Init(bufferSize: int)
      requires bufferSize > 0
      ensures Valid() && fresh(dataBuffer)
      ensures State() == PipeState(bufferSize, [], false, false)
      ensures readPos == 0 && writePos == 0
      ensures availableDataCnt == 0 && availableBufferSpace == bufferSize
    {
      dataBuffer := new JByte[bufferSize];
      readPos := 0;
      writePos := 0;
      availableDataCnt := 0;
      availableBufferSpace := bufferSize;
      inputClosed := false;
      outputClosed := false;
      buffered := [];
    }

    /** `read(buffer, offset, length)`. */
    method Read(buffer: array<JByte>, offset: int, length: int) returns (r: ReadResult)
      requires Valid() && buffer != dataBuffer
      modifies this, buffer
      ensures Valid() && dataBuffer == old(dataBuffer) && dataBuffer[..] == old(dataBuffer[..])
      ensures (State(), r) == ReadCall(old(State()), buffer.Length, offset, length)
      ensures r.ReadCount? ==> buffer[..] == Splice(old(buffer[..]), offset, old(buffered)[..r.n])
      ensures !r.ReadCount? ==> buffer[..] == old(buffer[..])
      ensures r.ReadCount? ==> readPos == (old(readPos) + r.n) % dataBuffer.Length
    {
      ghost var a := dataBuffer[..];
      if offset < 0 || length <= 0 || offset + length > buffer.Length {
        return ReadIndexError;
      }
      var len := if length <= dataBuffer.Length then length else dataBuffer.Length;
      if availableDataCnt <= 0 {
        if outputClosed {
          return ReadEof;
        }
        return ReadBlocked;
      }
      var readCnt;
      CircularAdvance(dataBuffer[..], readPos, availableDataCnt, if availableDataCnt < len then availableDataCnt else len);
      if availableDataCnt < len {
        ReadCircular(buffer, offset, availableDataCnt);
        readCnt := availableDataCnt;
      } else {
        ReadCircular(buffer, offset, len);
        readCnt := len;
      }
      Consume(readCnt);
      r := ReadCount(readCnt);
    }

    /** The cursor update after a read of `n` bytes: the read cursor moves
        `n` slots on, `n` bytes of data become free space. */
    method Consume(n: int)
      requires Valid() && 0 <= n <= availableDataCnt
      modifies this
      ensures Valid() && dataBuffer == old(dataBuffer)
      ensures buffered == old(buffered)[n..]
      ensures readPos == (old(readPos) + n) % dataBuffer.Length
      ensures writePos == old(writePos) && inputClosed == old(inputClosed) && outputClosed == old(outputClosed)
    {
      ghost var a := dataBuffer[..];
      CircularAdvance(a, readPos, availableDataCnt, n);
      SlotIsMod(readPos, n, dataBuffer.Length);
      assert writePos == Slot(Slot(readPos, n, |a|), availableDataCnt - n, |a|);
      readPos := (readPos + n) % dataBuffer.Length;
      availableDataCnt := availableDataCnt - n;
      availableBufferSpace := availableBufferSpace + n;
      buffered := buffered[n..];
    }

    /** `readCircular`: copies `length` bytes starting at `readPos`, wrapping at
        the end of the array, into `buffer` at `offset`. */
    method ReadCircular(buffer: array<JByte>, offset: int, length: int)
      requires buffer != dataBuffer && 0 <= readPos < dataBuffer.Length
      requires 0 <= length <= dataBuffer.Length && 0 <= offset && offset + length <= buffer.Length
      modifies buffer
      ensures buffer[..] == Splice(old(buffer[..]), offset, Circular(dataBuffer[..], readPos, length))
    {
      ghost var b0 := buffer[..];
      var distToEnd := dataBuffer.Length - readPos;
      if distToEnd < length {
        var len1 := distToEnd;
        var len2 := length - len1;
        ArrayCopy(dataBuffer, readPos, buffer, offset, len1);
        ghost var b1 := buffer[..];
        ArrayCopy(dataBuffer, 0, buffer, offset + len1, len2);
        CopyWrapsOut(dataBuffer[..], b0, b1, buffer[..], readPos, offset, length);
      } else {
        ArrayCopy(dataBuffer, readPos, buffer, offset, length);
      }
    }

    /** `read()`: one byte, returned as 0..255, or -1 at end of stream.  This
        is the corrected read; the as-written signed read is `SignedByteResult`. */
    method ReadByte() returns (blocked: bool, v: int)
      requires Valid()
      modifies this
      ensures Valid() && dataBuffer == old(dataBuffer)
      ensures blocked <==> old(buffered) == [] && !outputClosed
      ensures !blocked && old(buffered) == [] ==> v == -1
      ensures !blocked && old(buffered) != [] ==> v == UnsignedByteResult(old(buffered)[0]) && buffered == old(buffered)[1..]
      ensures inputClosed == old(inputClosed) && outputClosed == old(outputClosed)
    {
      var oneByteBuffer := new JByte[1];
      var r := Read(oneByteBuffer, 0, 1);
      blocked := false;
      v := -1;
      match r {
        case ReadCount(n) =>
          v := UnsignedByteResult(oneByteBuffer[0]);
        case ReadEof =>
        case ReadBlocked =>
          blocked := true;
        case ReadIndexError =>
      }
    }

    /** `write(buffer, offset, count)`: repeats transfer steps while bytes remain. */
    method Write(buffer: array<JByte>, offset: int, count: int) returns (r: WriteResult)
      requires Valid() && buffer != dataBuffer
      modifies this, dataBuffer
      ensures Valid() && dataBuffer == old(dataBuffer)
      ensures (State(), r) == WriteCall(old(State()), buffer[..], offset, count)
      ensures readPos == old(readPos)
    {
      if offset < 0 || count <= 0 || offset + count > buffer.Length {
        return WriteIndexError;
      }
      ghost var all := buffer[..];
      ghost var src := all[offset..offset + count];
      ghost var s0 := State();
      ghost var space0 := availableBufferSpace;
      assert |s0.buffered| + space0 == s0.capacity;
      var off, cnt, written := offset, count, 0;
      while cnt > 0
        invariant Valid() && dataBuffer == old(dataBuffer) && readPos == old(readPos)
        invariant 0 <= written <= count && off == offset + written && cnt == count - written
        invariant availableBufferSpace == space0 - written
        invariant State() == s0.(buffered := s0.buffered + src[..written])
        invariant inputClosed ==> written == 0
        invariant buffer[..] == all
        decreases cnt
      {
        if availableBufferSpace <= 0 && !inputClosed {
          WriteBlocksAt(s0, all, offset, count, written);
          return WriteBlocked(written);
        }
        if inputClosed {
          return WriteClosed(written);
        }
        var writeCnt := if cnt <= availableBufferSpace then cnt else availableBufferSpace;
        SliceOfSlice(all, offset, offset + count, written, written + writeCnt);
        TransferMore(buffer, off, writeCnt, s0, src, written);
        cnt := cnt - writeCnt;
        off := off + writeCnt;
        written := written + writeCnt;
      }
      WriteCompletes(s0, all, offset, count);
      return WriteDone;
    }

    /** A pass of the transfer loop in `write` that carries on from `written`
        bytes of `src` already in the pipe. */
    method TransferMore(buffer: array<JByte>, offset: int, n: int, ghost s0: PipeState, ghost src: seq<JByte>, ghost written: int)
      requires Valid() && buffer != dataBuffer
      requires 0 <= n <= availableBufferSpace && 0 <= offset && offset + n <= buffer.Length
      requires 0 <= written && written + n <= |src| && src[written..written + n] == buffer[offset..offset + n]
      requires State() == s0.(buffered := s0.buffered + src[..written])
      modifies this, dataBuffer
      ensures Valid() && dataBuffer == old(dataBuffer) && readPos == old(readPos)
      ensures State() == s0.(buffered := s0.buffered + src[..written + n])
      ensures availableBufferSpace == old(availableBufferSpace) - n
    {
      Transfer(buffer, offset, n);
      assert src[..written + n] == src[..written] + src[written..written + n];
      assert buffered == s0.buffered + src[..written + n];
    }

    /** One pass of the transfer loop in `write`: `n` bytes of `buffer` from
        `offset` go in at the write cursor and become readable. */
    method Transfer(buffer: array<JByte>, offset: int, n: int)
      requires Valid() && buffer != dataBuffer
      requires 0 <= n <= availableBufferSpace && 0 <= offset && offset + n <= buffer.Length
      modifies this, dataBuffer
      ensures Valid() && dataBuffer == old(dataBuffer)
      ensures buffered == old(buffered) + buffer[offset..offset + n]
      ensures availableBufferSpace == old(availableBufferSpace) - n
      ensures readPos == old(readPos)
      ensures inputClosed == old(inputClosed) && outputClosed == old(outputClosed)
    {
      ghost var a := dataBuffer[..];
      WriteCircular(buffer, offset, n);
      OverwriteAppends(a, readPos, availableDataCnt, buffer[offset..offset + n]);
      SlotIsMod(writePos, n, dataBuffer.Length);
      assert Slot(writePos, n, |a|) == Slot(readPos, availableDataCnt + n, |a|);
      buffered := buffered + buffer[offset..offset + n];
      writePos := (writePos + n) % dataBuffer.Length;
      availableBufferSpace := availableBufferSpace - n;
      availableDataCnt := availableDataCnt + n;
    }

    /** `writeCircular`: stores `length` bytes of `buffer` from `offset` at
        `writePos`, wrapping at the end of the array. */
    method WriteCircular(buffer: array<JByte>, offset: int, length: int)
      requires buffer != dataBuffer && 0 <= writePos < dataBuffer.Length
      requires 0 <= length <= dataBuffer.Length && 0 <= offset && offset + length <= buffer.Length
      modifies dataBuffer
      ensures dataBuffer[..] == Overwrite(old(dataBuffer[..]), writePos, buffer[offset..offset + length])
    {
      ghost var a0 := dataBuffer[..];
      var distToEnd := dataBuffer.Length - writePos;
      if distToEnd < length {
        var len1 := distToEnd;
        var len2 := length - len1;
        ArrayCopy(buffer, offset, dataBuffer, writePos, len1);
        ghost var a1 := dataBuffer[..];
        ArrayCopy(buffer, offset + len1, dataBuffer, 0, len2);
        CopyWrapsIn(a0, a1, dataBuffer[..], buffer[..], offset, writePos, length);
      } else {
        ArrayCopy(buffer, offset, dataBuffer, writePos, length);
      }
    }

    /** `write(int oneByte)`: the low eight bits of `oneByte`. */
    method WriteByte(oneByte: int) returns (r: WriteResult)
      requires Valid()
      modifies this, dataBuffer
      ensures Valid() && dataBuffer == old(dataBuffer)
      ensures (State(), r) == WriteBytes(old(State()), [ToJByte(oneByte)])
    {
      var oneByteBuffer := new JByte[1];
      oneByteBuffer[0] := ToJByte(oneByte);
      r := Write(oneByteBuffer, 0, 1);
      assert oneByteBuffer[..][0..1] == [ToJByte(oneByte)];
    }

    /** `PipedInputStream.close()`: idempotent; only the read end's flag changes. */
    method CloseInput()
      requires Valid()
      modifies this
      ensures Valid() && dataBuffer == old(dataBuffer)
      ensures State() == old(State()).(inputClosed := true)
      ensures readPos == old(readPos) && writePos == old(writePos)
    {
      inputClosed := true;
    }

    /** `PipedOutputStream.close()`: idempotent; only the write end's flag changes. */
    method CloseOutput()
      requires Valid()
      modifies this
      ensures Valid() && dataBuffer == old(dataBuffer)
      ensures State() == old(State()).(outputClosed := true)
      ensures readPos == old(readPos) && writePos == old(writePos)
    {
      outputClosed := true;
    }
  }

  /** `new Pipe(bufferSize)`: a non-positive size raises InvalidParameterException. */
  method NewPipe(bufferSize: int) returns (p: Option<Pipe>)
    ensures p.None? <==> bufferSize <= 0
    ensures p.Some? ==> fresh(p.value) && fresh(p.value.dataBuffer) && p.value.Valid()
    ensures p.Some? ==> p.value.State() == PipeState(bufferSize, [], false, false)
    ensures p.Some? ==> p.value.readPos == 0 && p.value.writePos == 0
    ensures p.Some? ==> p.value.availableDataCnt == 0 && p.value.availableBufferSpace == bufferSize
  {
    if bufferSize <= 0 {
      return None;
    }
    var pipe := new Pipe.Init(bufferSize);
    return Some(pipe);
  }

  // ---------------------------------------------------------------------------
  // The single-byte read.

  /** What `read()` returns for a stored byte as written: `return oneByteBuffer[0]`
      widens the signed byte, so 0x80..0xFF come back negative. */
  function SignedByteResult(b: JByte): (v: int)
    ensures -128 <= v < 128
    ensures (v - b as int) % 256 == 0
  {
    b as int
  }

  /** `InputStream.read()` promises 0..255 for a byte and -1 only at end of
      stream: the stored byte's unsigned value. */
  function UnsignedByteResult(b: JByte): (v: int)
    ensures 0 <= v < 256
    ensures (v - b as int) % 256 == 0
  {
    if b < 0 then b as int + 256 else b as int
  }

  /** As written, a stored 0xFF byte reads back as -1, the end-of-stream value. */
  lemma {:induction false} SignedByteCollidesWithEof()
    ensures SignedByteResult(ToJByte(0xFF)) == -1
  {
  }

  /** With the unsigned value, no stored byte is mistaken for end of stream,
      and distinct bytes stay distinct. */
  lemma {:induction false} UnsignedByteNeverEof(b: JByte, c: JByte)
    ensures UnsignedByteResult(b) != -1
    ensures UnsignedByteResult(b) == UnsignedByteResult(c) ==> b == c
  {
  }
}
