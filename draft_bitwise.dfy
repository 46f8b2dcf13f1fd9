/*
 * The earlier draft of the engine, bitwise.c at the top of the repository:
 * the `bw_generic_byte` macro and the operations built on it, the recursive
 * end-of-operand resolver `read_operand`, `or_file`, and the operations that
 * are still empty.
 *
 * The draft reports no errors to its caller: the byte form stops at any
 * empty read and ignores what `fwrite` returns, and `read_operand` ends the
 * process through the `error` macro of error.h.
 */
module DraftBitwise {
  import opened Streams
  import opened BitwiseCore
  import opened ErrorCodes
  import ByteEngine
  import FileEngine

  // The byte form

  /**
   * What the `bw_generic_byte` loop does from the given stream values on:
   * read up to `bufSize` bytes, stop when nothing was read, otherwise write
   * the mapped chunk (whatever the device takes of it) and go on.
   */
  function GenericByteRun(i: InState, o: OutState, operand: byte, op: Operation, bufSize: BufSize)
    : (InState, OutState)
    requires i.Valid()
    decreases i.Avail()
  {
    var i1 := i.AfterRead(bufSize);
    if i.ReadCount(bufSize) == 0 then (i1, o)
    else GenericByteRun(i1, o.AfterWrite(MapByte(i.ReadBytes(bufSize), operand, op)), operand, op, bufSize)
  }

  /**
   * The draft byte form consumes the whole input, whether the input ends
   * normally or in a read error, and the output receives every input byte
   * mapped, as far as the device takes them; the chunk size plays no part.
   */
  lemma {:induction false} GenericByteOutcome(i: InState, o: OutState, operand: byte, op: Operation, bufSize: BufSize)
    requires i.Valid()
    ensures GenericByteRun(i, o, operand, op, bufSize).1 == o.AfterWrite(MapByte(i.data[i.pos..], operand, op))
    ensures var i' := GenericByteRun(i, o, operand, op, bufSize).0;
      i'.Valid() && i'.data == i.data && i'.pos == |i.data|
    decreases i.Avail()
  {
    var i1 := i.AfterRead(bufSize);
    if i.ReadCount(bufSize) != 0 {
      var bytes := i.ReadBytes(bufSize);
      var rest := i1.data[i1.pos..];
      assert i.data[i.pos..] == bytes + rest;
      ByteEngine.MapByteSplit(bytes, rest, operand, op);
      WritesCompose(o, MapByte(bytes, operand, op), MapByte(rest, operand, op));
      GenericByteOutcome(i1, o.AfterWrite(MapByte(bytes, operand, op)), operand, op, bufSize);
    }
  }

  /**
   * The draft and the current byte form leave the same output behind: the
   * current one stops at a short write or a read error where the draft goes
   * on or stops silently, and after a short write the device takes nothing.
   */
  lemma GenericByteMatchesCurrent(i: InState, o: OutState, operand: byte, op: Operation, bufSize: BufSize, errno: int)
    requires i.Valid()
    ensures GenericByteRun(i, o, operand, op, bufSize).1 == ByteEngine.ByteFormRun(i, o, operand, op, bufSize, errno).1
  {
    GenericByteOutcome(i, o, operand, op, bufSize);
    ByteEngine.ByteFormOutcome(i, o, operand, op, bufSize, errno);
  }

  /** The `bw_generic_byte(in, out, operator, operand)` macro, with `op` for the compound assignment. */
  method GenericByte(input: Input, output: Output, operand: byte, op: Operation, bufSize: BufSize)
    requires input.Valid()
    modifies input, output
    ensures input.Valid()
    ensures (input.State(), output.State()) == GenericByteRun(old(input.State()), old(output.State()), operand, op, bufSize)
  {
    var buf := new byte[bufSize];
    while true
      invariant input.Valid()
      invariant GenericByteRun(input.State(), output.State(), operand, op, bufSize)
             == GenericByteRun(old(input.State()), old(output.State()), operand, op, bufSize)
      decreases input.State().Avail()
    {
      ghost var i0 := input.State();
      var read := input.Read(buf, 0, bufSize);
      if read == 0 {
        return;
      }
      assert buf[..read] == i0.ReadBytes(bufSize);
      ByteEngine.MapInPlace(buf, read, operand, op);
      var ignored := output.Write(buf, 0, read);
    }
  }

  /** `or_byte` of the draft */
  method OrByte(input: Input, output: Output, operand: byte, bufSize: BufSize)
    requires input.Valid()
    modifies input, output
    ensures input.Valid()
    ensures (input.State(), output.State()) == GenericByteRun(old(input.State()), old(output.State()), operand, BwOr, bufSize)
  {
    GenericByte(input, output, operand, BwOr, bufSize);
  }

  /** `and_byte` of the draft */
  method AndByte(input: Input, output: Output, operand: byte, bufSize: BufSize)
    requires input.Valid()
    modifies input, output
    ensures input.Valid()
    ensures (input.State(), output.State()) == GenericByteRun(old(input.State()), old(output.State()), operand, BwAnd, bufSize)
  {
    GenericByte(input, output, operand, BwAnd, bufSize);
  }

  /** `xor_byte` of the draft */
  method XorByte(input: Input, output: Output, operand: byte, bufSize: BufSize)
    requires input.Valid()
    modifies input, output
    ensures input.Valid()
    ensures (input.State(), output.State()) == GenericByteRun(old(input.State()), old(output.State()), operand, BwXor, bufSize)
  {
    GenericByte(input, output, operand, BwXor, bufSize);
  }

  /** `not` of the draft: the byte form with `^=` and the all-ones byte. */
  method Not(input: Input, output: Output, bufSize: BufSize)
    requires input.Valid()
    modifies input, output
    ensures input.Valid()
    ensures (input.State(), output.State()) == GenericByteRun(old(input.State()), old(output.State()), 0xFF, BwXor, bufSize)
  {
    GenericByte(input, output, 0xFF, BwXor, bufSize);
  }

  /** XOR with the all-ones byte complements: the draft `not` writes what the current `not` writes. */
  lemma NotMatchesCurrent(i: InState, o: OutState, bufSize: BufSize, errno: int)
    requires i.Valid()
    ensures GenericByteRun(i, o, 0xFF, BwXor, bufSize).1 == ByteEngine.ByteFormRun(i, o, 0, BwNot, bufSize, errno).1
  {
    var x := i.data[i.pos..];
    GenericByteOutcome(i, o, 0xFF, BwXor, bufSize);
    ByteEngine.ByteFormOutcome(i, o, 0, BwNot, bufSize, errno);
    assert MapByte(x, 0xFF, BwXor) == MapByte(x, 0, BwNot) by {
      forall k | 0 <= k < |x|
        ensures MapByte(x, 0xFF, BwXor)[k] == MapByte(x, 0, BwNot)[k]
      {
        var b := x[k];
        assert b ^ 0xFF == !b;
      }
    }
  }

  // read_operand

  /**
   * Whether `read_operand` returns at all: in LOOP mode an empty operand
   * that can be sought is sought back and read again without end.
   */
  predicate LoopCanEnd(s: InState, eof: EofMode)
  {
    eof == Loop && s.seekable && !s.failing ==> |s.data| > 0
  }

  /**
   * `read_operand(buf, count, operand, eof)`: the operand stream afterwards,
   * the bytes placed at `buf[0..read)`, and whether the call returned `read`
   * or ended the process.  A short read that is not at end-of-file exits with
   * code 3; at end-of-file TRUNCATE keeps the short count, ZERO and ONE fill
   * the rest of the buffer, ERROR exits with code 4, and LOOP seeks back to the
   * start (exiting with code 5 when that fails) and reads the rest recursively.
   */
  function ReadOperandSpec(s: InState, count: nat, eof: EofMode): (r: (InState, seq<byte>, Status))
    requires s.Valid() && (count == 0 || LoopCanEnd(s, eof))
    ensures r.0.Valid() && r.0.data == s.data && r.0.failing == s.failing && r.0.seekable == s.seekable
    ensures |r.1| <= count
    ensures r.2 == Returned && eof != Truncate ==> |r.1| == count
    ensures r.2 == Returned && eof == Truncate ==> r.1 == s.ReadBytes(count)
    ensures (eof == Zero || eof == One) && !s.failing ==>
      && r.2 == Returned
      && r.1[..s.ReadCount(count)] == s.ReadBytes(count)
      && forall k :: s.ReadCount(count) <= k < count ==> r.1[k] == (if eof == One then 0xFF else 0)
    decreases count, if s.pos == 0 then 0 else 1
  {
    var got := s.ReadBytes(count);
    var s1 := s.AfterRead(count);
    if |got| == count then (s1, got, Returned)
    else if !s1.eof then (s1, got, Exited(OperandReadFailed))
    else match eof
      case Truncate => (s1, got, Returned)
      case Loop =>
        if !s1.seekable then (s1, got, Exited(OperandNotSeekable))
        else
          var r := ReadOperandSpec(s1.Rewound(), count - |got|, eof);
          (r.0, got + r.1, r.2)
      case Zero => (s1, got + Repeat(0, count - |got|), Returned)
      case One => (s1, got + Repeat(0xFF, count - |got|), Returned)
      case Error => (s1, got, Exited(OperandUnderflow))
  }

  /**
   * In LOOP mode an empty operand that can be sought never lets
   * `read_operand` return: each call reads nothing, seeks back, and calls
   * itself with the same count on the same stream.
   */
  lemma EmptyLoopRecursesForever(s: InState, count: nat)
    requires s.Valid() && |s.data| == 0 && s.seekable && !s.failing && count > 0
    ensures s.ReadCount(count) == 0 && s.AfterRead(count).eof
    ensures s.AfterRead(count).Rewound() == s.Rewound()
    ensures s.Rewound().AfterRead(count).Rewound() == s.Rewound()
  {
  }

  /** `read_operand` on the operand stream, into `buf[off..off + count)`. */
  method ReadOperand(operand: Input, buf: array<byte>, off: nat, count: nat, eof: EofMode)
    returns (read: nat, st: Status)
    requires operand.Valid() && off + count <= buf.Length && (count == 0 || LoopCanEnd(operand.State(), eof))
    modifies operand, buf
    ensures operand.Valid() && read <= count
    ensures (operand.State(), buf[off..off + read], st) == ReadOperandSpec(old(operand.State()), count, eof)
    ensures buf[..off] == old(buf[..off])
    decreases count, if operand.pos == 0 then 0 else 1, 2
  {
    ghost var rank := if operand.pos == 0 then 0 else 1;
    ghost var s := operand.State();
    read := operand.Read(buf, off, count);
    assert buf[off..off + read] == s.ReadBytes(count);
    st := Returned;
    if read < count {
      read, st := ShortRead(operand, buf, off, count, read, eof, s, rank);
    }
  }

  /**
   * The part of `read_operand` after a short read of `read` bytes from the
   * operand stream `s`: a read error exits with code 3; at end-of-file the
   * mode decides.
   */
  method ShortRead(operand: Input, buf: array<byte>, off: nat, count: nat, read: nat, eof: EofMode,
                   ghost s: InState, ghost rank: nat)
    returns (total: nat, st: Status)
    requires s.Valid() && LoopCanEnd(s, eof) && read == s.ReadCount(count) < count && off + count <= buf.Length
    requires operand.Valid() && operand.State() == s.AfterRead(count) && buf[off..off + read] == s.ReadBytes(count)
    requires rank == if s.pos == 0 then 0 else 1
    modifies operand, buf
    ensures operand.Valid() && total <= count
    ensures (operand.State(), buf[off..off + total], st) == ReadOperandSpec(s, count, eof)
    ensures buf[..off] == old(buf[..off])
    decreases count, rank, 1
  {
    total, st := read, Returned;
    if !operand.eof {
      st := Exited(OperandReadFailed);
      return;
    }
    match eof
    case Truncate =>
    case Loop =>
      ghost var got := buf[off..off + read];
      assert got + [] == got;
      total, st := ReadAgain(operand, buf, off, count, read, rank);
    case Zero =>
      FillFrom(buf, off, read, count, 0);
      total := count;
    case One =>
      FillFrom(buf, off, read, count, 0xFF);
      total := count;
    case Error =>
      st := Exited(OperandUnderflow);
  }

  /**
   * The LOOP case of `read_operand`, after a short read of `read` bytes at
   * end-of-file: seek back to the start, exiting with code 5 when that fails,
   * and read the missing bytes recursively.  `rank` is the second component of
   * the caller's termination measure.
   */
  method ReadAgain(operand: Input, buf: array<byte>, off: nat, count: nat, read: nat, ghost rank: nat)
    returns (total: nat, st: Status)
    requires operand.Valid() && operand.eof && read < count && off + count <= buf.Length
    requires LoopCanEnd(operand.State(), Loop)
    requires read == 0 && operand.seekable ==> rank == 1
    modifies operand, buf
    ensures operand.Valid() && total <= count
    ensures var s := old(operand.State());
      var r := if !s.seekable then (s, [], Exited(OperandNotSeekable))
               else ReadOperandSpec(s.Rewound(), count - read, Loop);
      (operand.State(), buf[off..off + total], st) == (r.0, old(buf[off..off + read]) + r.1, r.2)
    ensures buf[..off] == old(buf[..off])
    decreases count, rank, 0
  {
    ghost var got := buf[off..off + read];
    var ok := operand.Rewind();
    if !ok {
      assert got + [] == got;
      return read, Exited(OperandNotSeekable);
    }
    var more;
    more, st := ReadOperand(operand, buf, off + read, count - read, Loop);
    total := read + more;
    assert buf[off..off + read] == buf[..off + read][off..] == got;
    assert buf[off..off + total] == buf[off..off + read] + buf[off + read..off + total];
  }

  /** The `memset` of `read_operand`: `buf[off + read..off + count)` becomes `b`. */
  method FillFrom(buf: array<byte>, off: nat, read: nat, count: nat, b: byte)
    requires read <= count && off + count <= buf.Length
    modifies buf
    ensures buf[..off] == old(buf[..off])
    ensures buf[off..off + count] == old(buf[off..off + read]) + Repeat(b, count - read)
  {
    FileEngine.Fill(buf, off + read, off + count, b);
    assert buf[..off + count][off..] == buf[off..off + count];
  }

  /** The code the draft exits with where the current engine reports the operand error `t`. */
  function ExitCode(t: ErrorType): nat
  {
    match t
    case OperandRead => OperandReadFailed
    case OperandEof => OperandUnderflow
    case OperandSeek => OperandNotSeekable
    case _ => 0
  }

  /**
   * From an operand at end-of-file that can be sought, the draft's recursion
   * reads what the refill loop of the current `handle_eof` reads.
   */
  lemma {:induction false} LoopReadsAgree(op: InState, inRead: nat, got: seq<byte>, errno: int)
    requires op.Valid() && |got| < inRead && op.seekable && !op.failing && |op.data| > 0
    ensures var d := ReadOperandSpec(op.Rewound(), inRead - |got|, Loop);
      var c := FileEngine.LoopRefill(op, inRead, got, errno);
      d.2 == Returned && c.2 == NoError && d.0 == c.0 && got + d.1 == c.1
    decreases inRead - |got|
  {
    var op0 := op.Rewound();
    var need := inRead - |got|;
    var more := op0.ReadBytes(need);
    var op1 := op0.AfterRead(need);
    assert FileEngine.LoopRefill(op, inRead, got, errno) == FileEngine.LoopRefill(op1, inRead, got + more, errno);
    if |more| < need {
      LoopReadsAgree(op1, inRead, got + more, errno);
      assert got + more + ReadOperandSpec(op1.Rewound(), need - |more|, Loop).1
          == got + (more + ReadOperandSpec(op1.Rewound(), need - |more|, Loop).1);
    }
  }

  /**
   * The draft `read_operand` resolves a chunk as the current engine does: it
   * returns exactly when the current engine reports no error, and then with
   * the same operand bytes and the same operand stream; otherwise it exits
   * with the error.h code of the error the current engine reports.
   */
  lemma ReadOperandMatchesCurrent(s: InState, count: nat, eof: EofMode, errno: int)
    requires s.Valid() && (count == 0 || LoopCanEnd(s, eof))
    ensures var d := ReadOperandSpec(s, count, eof);
      var c := FileEngine.OperandChunk(s, eof, count, errno);
      && (d.2 == Returned <==> c.2 == NoError)
      && (d.2 == Returned ==> d.0 == c.0 && d.1 == c.1)
      && (d.2 != Returned ==> d.2 == Exited(ExitCode(c.2.kind)))
  {
    var got := s.ReadBytes(count);
    var s1 := s.AfterRead(count);
    if |got| < count && s1.eof && eof == Loop && s1.seekable {
      assert s1.pos == |s.data| > 0;
      LoopReadsAgree(s1, count, got, errno);
      var r := ReadOperandSpec(s1.Rewound(), count - |got|, Loop);
      assert ReadOperandSpec(s, count, eof) == (r.0, got + r.1, r.2);
      assert FileEngine.OperandChunk(s, eof, count, errno) == FileEngine.LoopRefill(s1, count, got, errno);
    }
  }

  // or_file

  /**
   * What the loop of the draft `or_file` does from the given stream values
   * on: read an input chunk, resolve as many operand bytes, stop when either
   * is empty, and otherwise write the OR of the two (whatever the device
   * takes of it) and go on.  The run ends early when `read_operand` exits.
   */
  function OrFileRun(i: InState, op: InState, o: OutState, eof: EofMode, bufSize: BufSize)
    : (InState, InState, OutState, Status)
    requires i.Valid() && op.Valid() && LoopCanEnd(op, eof)
    decreases i.Avail()
  {
    var n := i.ReadCount(bufSize);
    var i1 := i.AfterRead(bufSize);
    if n == 0 then (i1, op, o, Returned)
    else
      var r := ReadOperandSpec(op, n, eof);
      if r.2 != Returned then (i1, r.0, o, r.2)
      else if |r.1| == 0 then (i1, r.0, o, Returned)
      else OrFileRun(i1, r.0, o.AfterWrite(Combine(i.ReadBytes(bufSize)[..|r.1|], r.1, BwOr)), eof, bufSize)
  }

  /**
   * How the draft `or_file` ends, whatever the chunk size: it exits with the
   * code of the operand's end exactly when the operand covers fewer input
   * bytes than there are and its end is an error under the mode.
   */
  function OrFileStatus(i: InState, op: InState, eof: EofMode): (st: Status)
    ensures st != Returned ==> FileEngine.Resolvable(op, eof, i.Avail()) < i.Avail()
  {
    var t := FileEngine.ShortError(op, eof);
    if FileEngine.Resolvable(op, eof, i.Avail()) < i.Avail() && t != None then Exited(ExitCode(t)) else Returned
  }

  /**
   * The outcome of the draft `or_file` is the closed form of the current
   * `bw_file`: it ends as `OrFileStatus` says, and when it returns the output
   * has received the OR of the input with the operand stream, over the input
   * bytes the operand covers.
   */
  lemma {:induction false} OrFileOutcome(i: InState, op: InState, o: OutState, eof: EofMode, bufSize: BufSize)
    requires i.Valid() && op.Valid() && LoopCanEnd(op, eof)
    ensures OrFileRun(i, op, o, eof, bufSize).3 == OrFileStatus(i, op, eof)
    ensures OrFileRun(i, op, o, eof, bufSize).3 == Returned ==>
      OrFileRun(i, op, o, eof, bufSize).2 == FileEngine.ClosedOutput(i, op, o, eof, BwOr)
    decreases i.Avail()
  {
    var n := i.ReadCount(bufSize);
    if n == 0 {
      FileEngine.ClosedOutputIs(i, op, o, eof, BwOr, 0, [], []);
      FullDeviceTakesNothing(o.(room := 0), []);
      assert o.AfterWrite(Combine([], [], BwOr)) == o;
    } else {
      var r := ReadOperandSpec(op, n, eof);
      if r.2 == Returned && |r.1| == n {
        var i1 := i.AfterRead(bufSize);
        var o1 := o.AfterWrite(Combine(i.ReadBytes(bufSize)[..n], r.1, BwOr));
        OrFileOutcome(i1, r.0, o1, eof, bufSize);
        FullChunkCase(i, op, o, eof, bufSize);
      } else {
        OtherChunkCase(i, op, o, eof, bufSize);
      }
    }
  }

  /**
   * After a chunk the operand resolves in full, the run, its closed status
   * and its closed output all continue from the streams the chunk leaves.
   */
  lemma FullChunkCase(i: InState, op: InState, o: OutState, eof: EofMode, bufSize: BufSize)
    requires i.Valid() && op.Valid() && LoopCanEnd(op, eof) && i.ReadCount(bufSize) > 0
    requires var r := ReadOperandSpec(op, i.ReadCount(bufSize), eof);
      r.2 == Returned && |r.1| == i.ReadCount(bufSize)
    ensures var n := i.ReadCount(bufSize);
      var r := ReadOperandSpec(op, n, eof);
      var i1 := i.AfterRead(bufSize);
      var o1 := o.AfterWrite(Combine(i.ReadBytes(bufSize)[..n], r.1, BwOr));
      && LoopCanEnd(r.0, eof)
      && OrFileRun(i, op, o, eof, bufSize) == OrFileRun(i1, r.0, o1, eof, bufSize)
      && OrFileStatus(i, op, eof) == OrFileStatus(i1, r.0, eof)
      && FileEngine.ClosedOutput(i, op, o, eof, BwOr) == FileEngine.ClosedOutput(i1, r.0, o1, eof, BwOr)
  {
    var n := i.ReadCount(bufSize);
    var r := ReadOperandSpec(op, n, eof);
    ReadOperandMatchesCurrent(op, n, eof, 0);
    FileEngine.OperandChunkMeaning(op, eof, n, i.Avail(), 0);
    FullChunkClosed(i, op, r.0, o, eof, bufSize);
  }

  /**
   * A chunk the operand does not resolve in full ends the run, as the closed
   * status and output say.
   */
  lemma OtherChunkCase(i: InState, op: InState, o: OutState, eof: EofMode, bufSize: BufSize)
    requires i.Valid() && op.Valid() && LoopCanEnd(op, eof) && i.ReadCount(bufSize) > 0
    requires var r := ReadOperandSpec(op, i.ReadCount(bufSize), eof);
      !(r.2 == Returned && |r.1| == i.ReadCount(bufSize))
    ensures OrFileRun(i, op, o, eof, bufSize).3 == OrFileStatus(i, op, eof)
    ensures OrFileRun(i, op, o, eof, bufSize).3 == Returned ==>
      OrFileRun(i, op, o, eof, bufSize).2 == FileEngine.ClosedOutput(i, op, o, eof, BwOr)
  {
    var n := i.ReadCount(bufSize);
    var r := ReadOperandSpec(op, n, eof);
    ReadOperandMatchesCurrent(op, n, eof, 0);
    FileEngine.OperandChunkMeaning(op, eof, n, i.Avail(), 0);
    if r.2 == Returned {
      ShortChunkClosed(i, op, o, eof, bufSize, r);
    }
  }

  /** A full chunk continues the closed form, whether or not the device took it. */
  lemma FullChunkClosed(i: InState, op: InState, op2: InState, o: OutState, eof: EofMode, bufSize: BufSize)
    requires i.Valid() && op.Valid() && op2.failing == op.failing && op2.seekable == op.seekable
    requires var c := i.ReadCount(bufSize);
      && 0 < c
      && FileEngine.Resolvable(op, eof, i.Avail()) == c + FileEngine.Resolvable(op2, eof, i.Avail() - c)
      && forall k: nat :: FileEngine.OperandByte(op2, eof, k) == FileEngine.OperandByte(op, eof, c + k)
    ensures var c := i.ReadCount(bufSize);
      var i1 := i.AfterRead(bufSize);
      var o1 := o.AfterWrite(Combine(i.ReadBytes(bufSize)[..c], FileEngine.OperandStream(op, eof, c), BwOr));
      && OrFileStatus(i, op, eof) == OrFileStatus(i1, op2, eof)
      && FileEngine.ClosedOutput(i, op, o, eof, BwOr) == FileEngine.ClosedOutput(i1, op2, o1, eof, BwOr)
  {
    var c := i.ReadCount(bufSize);
    var i1 := i.AfterRead(bufSize);
    var m' := FileEngine.Resolvable(op2, eof, i.Avail() - c);
    assert i.ReadBytes(bufSize)[..c] == i.ReadBytes(bufSize);
    FileEngine.StreamSplit(op, op2, eof, c, m');
    FileEngine.FullChunkOutput(i, op, op2, o, eof, BwOr, bufSize);
    var o1 := o.AfterWrite(Combine(i.ReadBytes(bufSize), FileEngine.OperandStream(op, eof, c), BwOr));
    if o.room < c {
      FullDeviceTakesNothing(o1, Combine(i1.data[i1.pos..i1.pos + m'], FileEngine.OperandStream(op2, eof, m'), BwOr));
    }
  }

  /** A device with no room left takes nothing. */
  lemma FullDeviceTakesNothing(o: OutState, bytes: seq<byte>)
    requires o.room == 0
    ensures o.AfterWrite(bytes) == o
  {
    assert bytes[..0] == [];
  }

  /**
   * A chunk the operand covers only in part ends the closed form: what the
   * chunk writes is all the output receives, and the run stops after it,
   * which happens only in TRUNCATE mode.
   */
  lemma ShortChunkClosed(i: InState, op: InState, o: OutState, eof: EofMode, bufSize: BufSize,
                         r: (InState, seq<byte>, Status))
    requires i.Valid() && op.Valid() && LoopCanEnd(op, eof)
    requires var n := i.ReadCount(bufSize);
      && 0 < n && r == ReadOperandSpec(op, n, eof) && r.2 == Returned && |r.1| < n
      && r.1 == FileEngine.OperandStream(op, eof, Min(n, FileEngine.Resolvable(op, eof, i.Avail())))
      && FileEngine.Resolvable(op, eof, i.Avail()) == |r.1|
      && FileEngine.ShortError(op, eof) == None
    ensures var n := i.ReadCount(bufSize);
      var o1 := o.AfterWrite(Combine(i.ReadBytes(bufSize)[..|r.1|], r.1, BwOr));
      var run := if |r.1| == 0 then (i.AfterRead(bufSize), r.0, o, Returned)
                 else OrFileRun(i.AfterRead(bufSize), r.0, o1, eof, bufSize);
      && run.3 == OrFileStatus(i, op, eof)
      && run.2 == FileEngine.ClosedOutput(i, op, o, eof, BwOr)
  {
    var n := i.ReadCount(bufSize);
    var m := |r.1|;
    FileEngine.ShortChunkClosed(i, op, o, eof, BwOr, bufSize, r.1, 0);
    if m == 0 {
      assert o.AfterWrite(Combine(i.ReadBytes(bufSize)[..0], r.1, BwOr)) == o;
    } else {
      var o1 := o.AfterWrite(Combine(i.ReadBytes(bufSize)[..m], r.1, BwOr));
      TruncatedRunStops(i.AfterRead(bufSize), r.0, o1, bufSize);
    }
  }

  /** Once the operand is exhausted in TRUNCATE mode, the draft `or_file` writes nothing more. */
  lemma TruncatedRunStops(i: InState, op: InState, o: OutState, bufSize: BufSize)
    requires i.Valid() && op.Valid() && op.Avail() == 0 && !op.failing
    ensures OrFileRun(i, op, o, Truncate, bufSize).2 == o
    ensures OrFileRun(i, op, o, Truncate, bufSize).3 == Returned
  {
  }

  /**
   * In TRUNCATE mode over an operand that ends normally, the draft `or_file`
   * returns, and the output receives the OR of the input and the operand
   * over the length of the shorter of the two.
   */
  lemma OrFileTruncate(i: InState, op: InState, o: OutState, bufSize: BufSize)
    requires i.Valid() && op.Valid() && !op.failing
    ensures var m := Min(i.Avail(), op.Avail());
      var r := OrFileRun(i, op, o, Truncate, bufSize);
      && r.3 == Returned
      && r.2 == o.AfterWrite(Combine(i.data[i.pos..i.pos + m], op.data[op.pos..op.pos + m], BwOr))
  {
    var m := Min(i.Avail(), op.Avail());
    OrFileOutcome(i, op, o, Truncate, bufSize);
    FileEngine.OperandBytesWithin(op, Truncate, m);
  }

  /**
   * When the draft `or_file` returns, its output is the output of the
   * current `or_file` on the same streams.
   */
  lemma OrFileMatchesCurrent(i: InState, op: InState, o: OutState, eof: EofMode, bufSize: BufSize, errno: int)
    requires i.Valid() && op.Valid() && LoopCanEnd(op, eof)
    ensures OrFileRun(i, op, o, eof, bufSize).3 == Returned ==>
      OrFileRun(i, op, o, eof, bufSize).2 == FileEngine.FileFormRun(i, op, o, eof, BwOr, bufSize, errno).2
  {
    OrFileOutcome(i, op, o, eof, bufSize);
    FileEngine.FileFormOutcome(i, op, o, eof, BwOr, bufSize, errno);
  }

  /**
   * The body of the draft `or_file` loop after an input chunk of `read`
   * bytes has been read into `in_buf`: whether the loop stops, and how.
   */
  method OrChunk(output: Output, operand: Input, eof: EofMode, inBuf: array<byte>, opBuf: array<byte>, read: nat)
    returns (stop: bool, st: Status)
    requires operand.Valid() && inBuf != opBuf && 0 < read <= inBuf.Length && read <= opBuf.Length
    requires LoopCanEnd(operand.State(), eof)
    modifies output, operand, inBuf, opBuf
    ensures operand.Valid()
    ensures var r := ReadOperandSpec(old(operand.State()), read, eof);
      && operand.State() == r.0 && st == r.2
      && stop == (r.2 != Returned || |r.1| == 0)
      && output.State() == if stop then old(output.State())
                           else old(output.State()).AfterWrite(Combine(old(inBuf[..read])[..|r.1|], r.1, BwOr))
  {
    ghost var chunk, o0 := inBuf[..read], output.State();
    ghost var r := ReadOperandSpec(operand.State(), read, eof);
    var opRead;
    opRead, st := ReadOperand(operand, opBuf, 0, read, eof);
    assert opBuf[..opRead] == r.1;
    if st != Returned || opRead == 0 {
      return true, st;
    }
    assert inBuf[..opRead] == chunk[..opRead];
    FileEngine.CombineInPlace(inBuf, opBuf, opRead, BwOr);
    assert inBuf[..opRead] == Combine(chunk[..|r.1|], r.1, BwOr);
    var ignored := output.Write(inBuf, 0, opRead);
    assert output.State() == o0.AfterWrite(Combine(chunk[..|r.1|], r.1, BwOr));
    stop := false;
  }

  /** `or_file` of the draft */
  method OrFile(input: Input, output: Output, operand: Input, eof: EofMode, bufSize: BufSize)
    returns (st: Status)
    requires input.Valid() && operand.Valid() && input != operand && LoopCanEnd(operand.State(), eof)
    modifies input, output, operand
    ensures input.Valid() && operand.Valid()
    ensures (input.State(), operand.State(), output.State(), st)
         == OrFileRun(old(input.State()), old(operand.State()), old(output.State()), eof, bufSize)
  {
    var inBuf := new byte[bufSize];
    var opBuf := new byte[bufSize];
    while true
      invariant input.Valid() && operand.Valid() && LoopCanEnd(operand.State(), eof)
      invariant OrFileRun(input.State(), operand.State(), output.State(), eof, bufSize)
             == OrFileRun(old(input.State()), old(operand.State()), old(output.State()), eof, bufSize)
      decreases input.State().Avail()
    {
      ghost var i0 := input.State();
      var read := input.Read(inBuf, 0, bufSize);
      if read == 0 {
        return Returned;
      }
      assert inBuf[..read] == i0.ReadBytes(bufSize);
      var stop;
      stop, st := OrChunk(output, operand, eof, inBuf, opBuf, read);
      if stop {
        return;
      }
    }
  }

  // The operations the draft leaves empty

  /** `and_file` of the draft: an empty body, which reads and writes nothing. */
  method AndFile(input: Input, output: Output, operand: Input, eof: EofMode)
    ensures input.State() == old(input.State()) && operand.State() == old(operand.State())
    ensures output.State() == old(output.State())
  {
  }

  /** `xor_file` of the draft: an empty body. */
  method XorFile(input: Input, output: Output, operand: Input, eof: EofMode)
    ensures input.State() == old(input.State()) && operand.State() == old(operand.State())
    ensures output.State() == old(output.State())
  {
  }

  /** `lshift` of the draft: an empty body. */
  method LShift(input: Input, output: Output, amount: nat)
    ensures input.State() == old(input.State()) && output.State() == old(output.State())
  {
  }

  /** `rshift` of the draft: an empty body. */
  method RShift(input: Input, output: Output, amount: nat)
    ensures input.State() == old(input.State()) && output.State() == old(output.State())
  {
  }
}
