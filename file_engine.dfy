/*
 * The file form of src/bitwise.c: `handle_eof`, `bw_file` and the operations
 * built on it (`or_file`, `and_file`, `xor_file`).
 *
 * The source reads each operand chunk into `in_buf`, over the input chunk
 * (src/bitwise.c:158), although the operand buffer `op_buf` is where every
 * other line expects it.  This model reads it into `op_buf`, as the header
 * describes the operations; `ChunkAsWritten` records what the line as
 * written computes.
 */
module FileEngine {
  import opened Streams
  import opened BitwiseCore

  /** The byte `memset` fills the rest of `op_buf` with in the ZERO and ONE modes. */
  function FillByte(eof: EofMode): (b: byte)
    ensures b == (if eof == One then 0xFF else 0)
  {
    if eof == One then 0xFF else 0
  }

  /**
   * The refill loop of `handle_eof` in LOOP mode: while fewer than `inRead`
   * operand bytes are at hand, seek the operand back to its start (giving up
   * with a seek error when that fails) and read the missing bytes.
   */
  function LoopRefill(op: InState, inRead: nat, got: seq<byte>, errno: int): (r: (InState, seq<byte>, BwError))
    requires op.Valid() && |got| <= inRead
    requires op.seekable ==> |op.data| > 0
    ensures r.0.Valid() && r.0.data == op.data && r.0.failing == op.failing && r.0.seekable == op.seekable
    ensures |got| <= |r.1| <= inRead && r.1[..|got|] == got
    decreases inRead - |got|
  {
    if |got| >= inRead then (op, got, NoError)
    else if !op.seekable then (op, got, CreateError(OperandSeek, errno))
    else
      var op0 := op.Rewound();
      var need := inRead - |got|;
      var more := op0.ReadBytes(need);
      var r := LoopRefill(op0.AfterRead(need), inRead, got + more, errno);
      assert r.1[..|got|] == (r.1[..|got + more|])[..|got|];
      r
  }

  /**
   * `handle_eof(operand, eof, in_read, op_buf, &op_read)` on the operand
   * bytes `got` already in `op_buf`: the new operand stream, the operand
   * bytes then in `op_buf[0..op_read)`, and the error to report.
   */
  function HandleEofSpec(op: InState, eof: EofMode, inRead: nat, got: seq<byte>, errno: int)
    : (r: (InState, seq<byte>, BwError))
    requires op.Valid() && |got| <= inRead
    ensures r.0.Valid() && r.0.data == op.data && r.0.failing == op.failing && r.0.seekable == op.seekable
    ensures |got| <= |r.1| <= inRead && r.1[..|got|] == got
  {
    match eof
    case Error => (op, got, CreateError(OperandEof, errno))
    case Loop =>
      if (if op.seekable then op.pos else -1) == 0 then (op, got, CreateError(OperandEof, errno))
      else LoopRefill(op, inRead, got, errno)
    case Zero => (op, got + Repeat(FillByte(eof), inRead - |got|), NoError)
    case One => (op, got + Repeat(FillByte(eof), inRead - |got|), NoError)
    case Truncate => (op, got, NoError)
  }

  /** The refill loop of `handle_eof`, on the operand stream and `op_buf`. */
  method Refill(operand: Input, inRead: nat, opBuf: array<byte>, opRead: nat, errno: int)
    returns (e: BwError, newRead: nat)
    requires operand.Valid() && opRead <= inRead <= opBuf.Length
    requires operand.seekable ==> |operand.data| > 0
    modifies operand, opBuf
    ensures operand.Valid() && newRead <= inRead
    ensures (operand.State(), opBuf[..newRead], e)
         == LoopRefill(old(operand.State()), inRead, old(opBuf[..opRead]), errno)
    ensures opBuf[inRead..] == old(opBuf[inRead..])
  {
    newRead := opRead;
    while newRead < inRead
      invariant operand.Valid() && opRead <= newRead <= inRead
      invariant operand.seekable ==> |operand.data| > 0
      invariant LoopRefill(operand.State(), inRead, opBuf[..newRead], errno)
             == LoopRefill(old(operand.State()), inRead, old(opBuf[..opRead]), errno)
      invariant opBuf[inRead..] == old(opBuf[inRead..])
      decreases inRead - newRead
    {
      ghost var s0, prefix := operand.State(), opBuf[..newRead];
      var ok := operand.Rewind();
      if !ok {
        return CreateError(OperandSeek, errno), newRead;
      }
      var got := operand.Read(opBuf, newRead, inRead - newRead);
      assert opBuf[..newRead + got] == prefix + s0.Rewound().ReadBytes(inRead - newRead);
      newRead := newRead + got;
    }
    e := NoError;
  }

  /** `handle_eof`, on the operand stream and the buffer `op_buf`. */
  method HandleEof(operand: Input, eof: EofMode, inRead: nat, opBuf: array<byte>, opRead: nat, errno: int)
    returns (e: BwError, newRead: nat)
    requires operand.Valid() && opRead <= inRead <= opBuf.Length
    modifies operand, opBuf
    ensures operand.Valid() && newRead <= inRead
    ensures (operand.State(), opBuf[..newRead], e)
         == HandleEofSpec(old(operand.State()), eof, inRead, old(opBuf[..opRead]), errno)
    ensures opBuf[inRead..] == old(opBuf[inRead..])
  {
    newRead := opRead;
    match eof
    case Error =>
      e := CreateError(OperandEof, errno);
    case Loop =>
      if operand.Tell() == 0 {
        e := CreateError(OperandEof, errno);
      } else {
        e, newRead := Refill(operand, inRead, opBuf, opRead, errno);
      }
    case Zero =>
      Fill(opBuf, opRead, inRead, FillByte(eof));
      e, newRead := NoError, inRead;
    case One =>
      Fill(opBuf, opRead, inRead, FillByte(eof));
      e, newRead := NoError, inRead;
    case Truncate =>
      e := NoError;
  }

  /** `memset(buf + from, b, to - from)` */
  method Fill(buf: array<byte>, from: nat, to: nat, b: byte)
    requires from <= to <= buf.Length
    modifies buf
    ensures buf[..to] == old(buf[..from]) + Repeat(b, to - from)
    ensures buf[to..] == old(buf[to..])
  {
    forall k | from <= k < to {
      buf[k] := b;
    }
  }

  /**
   * One operand chunk of `bw_file`: read `inRead` operand bytes; on a short
   * read, hand over to `handle_eof` if the operand is at end-of-file and
   * report an operand read error otherwise.
   */
  function OperandChunk(op: InState, eof: EofMode, inRead: nat, errno: int): (r: (InState, seq<byte>, BwError))
    requires op.Valid()
    ensures r.0.Valid() && r.0.data == op.data && r.0.failing == op.failing && r.0.seekable == op.seekable
    ensures |r.1| <= inRead
  {
    var got := op.ReadBytes(inRead);
    var op1 := op.AfterRead(inRead);
    if |got| < inRead then
      if op1.eof then HandleEofSpec(op1, eof, inRead, got, errno)
      else (op1, got, CreateError(OperandRead, errno))
    else (op1, got, NoError)
  }

  /** The operand half of one `bw_file` iteration, into `op_buf`. */
  method ReadOperandChunk(operand: Input, eof: EofMode, inRead: nat, opBuf: array<byte>, errno: int)
    returns (opError: BwError, opRead: nat)
    requires operand.Valid() && inRead <= opBuf.Length
    modifies operand, opBuf
    ensures operand.Valid() && opRead <= inRead
    ensures (operand.State(), opBuf[..opRead], opError) == OperandChunk(old(operand.State()), eof, inRead, errno)
  {
    ghost var p0 := operand.State();
    opRead := operand.Read(opBuf, 0, inRead);
    assert opBuf[..opRead] == p0.ReadBytes(inRead);
    opError := NoError;
    if opRead < inRead {
      if operand.eof {
        opError, opRead := HandleEof(operand, eof, inRead, opBuf, opRead, errno);
      } else {
        opError := CreateError(OperandRead, errno);
      }
    }
  }

  /**
   * One iteration of `bw_file` after the input chunk `chunk` has been read:
   * the operand stream, the output stream, whether the loop stops, and the
   * error it then returns.  The chunk is combined with the operand bytes
   * resolved for it and written; a short write stops with an output error,
   * and so does an operand error or a short operand (with that error).
   */
  function ChunkStep(op: InState, o: OutState, chunk: seq<byte>, eof: EofMode, operation: Operation, errno: int)
    : (r: (InState, OutState, bool, BwError))
    requires op.Valid()
    ensures r.0.Valid() && r.0.data == op.data && r.0.failing == op.failing && r.0.seekable == op.seekable
  {
    var (op2, opBytes, opErr) := OperandChunk(op, eof, |chunk|, errno);
    var opRead := |opBytes|;
    var o1 := o.AfterWrite(Combine(chunk[..opRead], opBytes, operation));
    if o.WriteCount(opRead) != opRead then (op2, o1, true, CreateError(OutputWrite, errno))
    else if opErr.kind != None || opRead < |chunk| then (op2, o1, true, opErr)
    else (op2, o1, false, NoError)
  }

  /**
   * The bytes one iteration of `bw_file` combines as src/bitwise.c:158 is
   * written.  The first operand read puts its `got` bytes into `in_buf`, over
   * the input chunk, while `handle_eof` completes `op_buf` from index `got`
   * on; `resolved` are all the operand bytes at hand afterwards and `stale`
   * what `op_buf` held before.
   */
  function ChunkAsWritten(chunk: seq<byte>, resolved: seq<byte>, got: nat, stale: seq<byte>, operation: Operation)
    : (r: seq<byte>)
    requires got <= |resolved| <= |chunk| && got <= |stale|
    ensures |r| == |resolved|
    ensures forall k {:trigger r[k]} :: 0 <= k < got ==> r[k] == operation(resolved[k], stale[k])
    ensures forall k {:trigger r[k]} :: got <= k < |resolved| ==> r[k] == operation(chunk[k], resolved[k])
  {
    Combine(resolved[..got] + chunk[got..|resolved|], stale[..got] + resolved[got..], operation)
  }

  /** When the first operand read returns nothing, the line as written does what `ChunkStep` does. */
  lemma ChunkAsWrittenWithoutRead(chunk: seq<byte>, resolved: seq<byte>, stale: seq<byte>, operation: Operation)
    requires |resolved| <= |chunk|
    ensures ChunkAsWritten(chunk, resolved, 0, stale, operation) == Combine(chunk[..|resolved|], resolved, operation)
  {
    var r := ChunkAsWritten(chunk, resolved, 0, stale, operation);
    assert forall k :: 0 <= k < |r| ==> r[k] == Combine(chunk[..|resolved|], resolved, operation)[k];
  }

  /**
   * Otherwise the input bytes under the first read are lost: input 0x0F
   * ORed with operand 0xF0 gives 0xF0 (the operand ORed with the stale
   * 0x00) instead of 0xFF.
   */
  lemma ChunkAsWrittenLosesInput(chunk: seq<byte>, resolved: seq<byte>, stale: seq<byte>)
    requires chunk == [0x0F] && resolved == [0xF0] && stale == [0x00]
    ensures ChunkAsWritten(chunk, resolved, 1, stale, BwOr) == [0xF0]
    ensures Combine(chunk, resolved, BwOr) == [0xFF]
  {
    assert BwOr(0xF0, 0x00) == 0xF0 && BwOr(0x0F, 0xF0) == 0xFF;
  }

  /**
   * What `bw_file` does from the given stream values on, chunk by chunk:
   * the input stream, the operand stream, the output stream and the result.
   * An empty input read ends the run, with an input error when the input's
   * error indicator is set.
   */
  function FileFormRun(i: InState, op: InState, o: OutState, eof: EofMode, operation: Operation,
                       bufSize: BufSize, errno: int): (InState, InState, OutState, BwError)
    requires i.Valid() && op.Valid()
    decreases i.Avail()
  {
    var i1 := i.AfterRead(bufSize);
    if i.ReadCount(bufSize) == 0 then
      (i1, op, o, if i1.err then CreateError(InputRead, errno) else NoError)
    else
      var (op2, o1, stop, e) := ChunkStep(op, o, i.ReadBytes(bufSize), eof, operation, errno);
      if stop then (i1, op2, o1, e)
      else FileFormRun(i1, op2, o1, eof, operation, bufSize, errno)
  }

  /** The loop of `bw_file` that combines `in_buf[0..n)` with `op_buf[0..n)` in place. */
  method CombineInPlace(inBuf: array<byte>, opBuf: array<byte>, n: nat, operation: Operation)
    requires n <= inBuf.Length && n <= opBuf.Length && inBuf != opBuf
    modifies inBuf
    ensures inBuf[..n] == Combine(old(inBuf[..n]), opBuf[..n], operation)
  {
    for k := 0 to n
      invariant forall j :: 0 <= j < k ==> inBuf[j] == operation(old(inBuf[j]), opBuf[j])
      invariant forall j :: k <= j < inBuf.Length ==> inBuf[j] == old(inBuf[j])
    {
      inBuf[k] := operation(inBuf[k], opBuf[k]);
    }
  }

  /**
   * The body of the loop of `bw_file` after the input read: the input chunk
   * is `in_buf[0..inRead)`.
   */
  method ProcessChunk(output: Output, operand: Input, eof: EofMode, operation: Operation, errno: int,
                      inBuf: array<byte>, opBuf: array<byte>, inRead: nat)
    returns (stop: bool, e: BwError)
    requires operand.Valid() && inBuf != opBuf && inRead <= inBuf.Length && inRead <= opBuf.Length
    modifies output, operand, inBuf, opBuf
    ensures operand.Valid()
    ensures (operand.State(), output.State(), stop, e)
         == ChunkStep(old(operand.State()), old(output.State()), old(inBuf[..inRead]), eof, operation, errno)
  {
    ghost var chunk := inBuf[..inRead];
    var opError, opRead := ReadOperandChunk(operand, eof, inRead, opBuf, errno);
    assert inBuf[..opRead] == chunk[..opRead];
    CombineInPlace(inBuf, opBuf, opRead, operation);
    var written := output.Write(inBuf, 0, opRead);
    if written != opRead {
      return true, CreateError(OutputWrite, errno);
    }
    if opError.kind != None || opRead < inRead {
      return true, opError;
    }
    return false, NoError;
  }

  /** `bw_file(input, output, operand, eof, operation)` */
  method FileForm(input: Input, output: Output, operand: Input, eof: EofMode, operation: Operation,
                  bufSize: BufSize, errno: int) returns (e: BwError)
    requires input.Valid() && operand.Valid() && input != operand
    modifies input, output, operand
    ensures input.Valid() && operand.Valid()
    ensures (input.State(), operand.State(), output.State(), e)
         == FileFormRun(old(input.State()), old(operand.State()), old(output.State()), eof, operation, bufSize, errno)
  {
    var inBuf := new byte[bufSize];
    var opBuf := new byte[bufSize];
    while true
      invariant input.Valid() && operand.Valid()
      invariant FileFormRun(input.State(), operand.State(), output.State(), eof, operation, bufSize, errno)
             == FileFormRun(old(input.State()), old(operand.State()), old(output.State()), eof, operation, bufSize, errno)
      decreases input.State().Avail()
    {
      ghost var i0 := input.State();
      var inRead := input.Read(inBuf, 0, bufSize);
      if inRead == 0 {
        if input.err {
          return CreateError(InputRead, errno);
        } else {
          return NoError;
        }
      }
      assert inBuf[..inRead] == i0.ReadBytes(bufSize);
      var stop;
      stop, e := ProcessChunk(output, operand, eof, operation, errno, inBuf, opBuf, inRead);
      if stop {
        return;
      }
    }
  }

  /** `or_file` */
  method OrFile(input: Input, output: Output, operand: Input, eof: EofMode, bufSize: BufSize, errno: int)
    returns (e: BwError)
    requires input.Valid() && operand.Valid() && input != operand
    modifies input, output, operand
    ensures input.Valid() && operand.Valid()
    ensures (input.State(), operand.State(), output.State(), e)
         == FileFormRun(old(input.State()), old(operand.State()), old(output.State()), eof, BwOr, bufSize, errno)
  {
    e := FileForm(input, output, operand, eof, BwOr, bufSize, errno);
  }

  /** `and_file` */
  method AndFile(input: Input, output: Output, operand: Input, eof: EofMode, bufSize: BufSize, errno: int)
    returns (e: BwError)
    requires input.Valid() && operand.Valid() && input != operand
    modifies input, output, operand
    ensures input.Valid() && operand.Valid()
    ensures (input.State(), operand.State(), output.State(), e)
         == FileFormRun(old(input.State()), old(operand.State()), old(output.State()), eof, BwAnd, bufSize, errno)
  {
    e := FileForm(input, output, operand, eof, BwAnd, bufSize, errno);
  }

  /** `xor_file` */
  method XorFile(input: Input, output: Output, operand: Input, eof: EofMode, bufSize: BufSize, errno: int)
    returns (e: BwError)
    requires input.Valid() && operand.Valid() && input != operand
    modifies input, output, operand
    ensures input.Valid() && operand.Valid()
    ensures (input.State(), operand.State(), output.State(), e)
         == FileFormRun(old(input.State()), old(operand.State()), old(output.State()), eof, BwXor, bufSize, errno)
  {
    e := FileForm(input, output, operand, eof, BwXor, bufSize, errno);
  }

  // Closed form of the file form

  /** `(L + j) % L == j % L`: adding one period does not change a residue. */
  lemma ModAddPeriod(j: int, L: int)
    requires L > 0
    ensures (L + j) % L == j % L
  {
    ModUnique(L + j, j / L + 1, j % L, L);
  }

  /** Equal residues stay equal when the same amount is added to both. */
  lemma ModCongruent(a: int, b: int, k: int, L: int)
    requires L > 0 && a % L == b % L
    ensures (a + k) % L == (b + k) % L
  {
    var r := (a % L + k) % L;
    ModUnique(a + k, a / L + (a % L + k) / L, r, L);
    ModUnique(b + k, b / L + (b % L + k) / L, r, L);
  }

  /** The remainder is the only `r` in `[0, L)` with `a == q * L + r`. */
  lemma ModUnique(a: int, q: int, r: int, L: int)
    requires L > 0 && a == q * L + r && 0 <= r < L
    ensures a % L == r
  {
    var d, m := a / L, a % L;
    assert a == d * L + m;
    assert (q - d) * L == m - r;
    if q - d >= 1 {
      MulAtLeast(q - d, L);
    } else if q - d <= -1 {
      MulAtLeast(d - q, L);
    }
  }

  lemma MulAtLeast(x: int, L: int)
    requires x >= 1 && L > 0
    ensures x * L >= L
  {
  }

  /**
   * After the operand stream `op` (from its current position on), how many
   * of `n` input bytes receive an operand byte under the given eof mode.
   * A read error on the operand, the ERROR and TRUNCATE modes, and a LOOP
   * over an empty or unseekable operand stop at the operand's end; ZERO and
   * ONE, and a LOOP that can seek back over a non-empty operand, cover all
   * `n` bytes.
   */
  function Resolvable(op: InState, eof: EofMode, n: nat): (m: nat)
    ensures m <= n
    ensures m == n || m == op.Avail()
  {
    if n <= op.Avail() then n
    else if op.failing then op.Avail()
    else match eof
      case Error => op.Avail()
      case Truncate => op.Avail()
      case Zero => n
      case One => n
      case Loop => if op.seekable && |op.data| > 0 then n else op.Avail()
  }

  /** The error tag reported when the operand covers fewer bytes than the input has. */
  function ShortError(op: InState, eof: EofMode): (t: ErrorType)
    ensures t == None <==> !op.failing && (eof == Truncate || eof == Zero || eof == One)
  {
    if op.failing then OperandRead
    else match eof
      case Error => OperandEof
      case Loop => if op.seekable then OperandEof else OperandSeek
      case Truncate => None
      case Zero => None
      case One => None
  }

  /**
   * The operand byte paired with the input byte `k` places on: in LOOP mode
   * the operand repeats from its start; otherwise the operand's remaining
   * bytes are followed by the fill byte of ZERO or ONE.
   */
  function OperandByte(op: InState, eof: EofMode, k: nat): byte
  {
    if eof == Loop && |op.data| > 0 then op.data[(op.pos + k) % |op.data|]
    else if k < op.Avail() then op.data[op.pos + k]
    else FillByte(eof)
  }

  /** The first `m` operand bytes as `OperandByte` pairs them with input bytes. */
  function OperandStream(op: InState, eof: EofMode, m: nat): (r: seq<byte>)
    ensures |r| == m && forall k {:trigger r[k]} :: 0 <= k < m ==> r[k] == OperandByte(op, eof, k)
  {
    seq(m, k requires 0 <= k => OperandByte(op, eof, k))
  }

  /**
   * The LOOP refill of `handle_eof` on a seekable, non-empty operand always
   * completes the chunk, without error.
   */
  lemma {:induction false} LoopRefillCompletes(op: InState, inRead: nat, got: seq<byte>, errno: int)
    requires op.Valid() && |got| <= inRead && op.seekable && |op.data| > 0
    ensures LoopRefill(op, inRead, got, errno).2 == NoError
    ensures |LoopRefill(op, inRead, got, errno).1| == inRead
    decreases inRead - |got|
  {
    if |got| < inRead {
      var need := inRead - |got|;
      LoopRefillCompletes(op.Rewound().AfterRead(need), inRead, got + op.Rewound().ReadBytes(need), errno);
      LoopRefillStep(op, inRead, got, errno);
    }
  }

  /** The bytes the LOOP refill adds are the operand from its start, repeated. */
  lemma {:induction false} LoopRefillBytes(op: InState, inRead: nat, got: seq<byte>, errno: int)
    requires op.Valid() && |got| <= inRead && op.seekable && |op.data| > 0
    ensures |LoopRefill(op, inRead, got, errno).1| == inRead
    ensures forall j :: 0 <= j < inRead - |got| ==>
      LoopRefill(op, inRead, got, errno).1[|got| + j] == op.data[j % |op.data|]
    decreases inRead - |got|
  {
    LoopRefillCompletes(op, inRead, got, errno);
    if |got| < inRead {
      var need := inRead - |got|;
      var more := op.Rewound().ReadBytes(need);
      var op1 := op.Rewound().AfterRead(need);
      var got' := got + more;
      LoopRefillBytes(op1, inRead, got', errno);
      LoopRefillStep(op, inRead, got, errno);
      var r := LoopRefill(op1, inRead, got', errno);
      assert op1.data == op.data;
      assert |got'| == inRead || |more| == |op.data|;
      assert more == op.data[..|more|];
      RefillRound(op.data, got, more, r.1, inRead);
    }
  }

  /**
   * One round of the LOOP refill, on the bytes alone: `more` is a prefix of
   * the operand `data`, the whole of it unless it completes the chunk, and
   * what follows it repeats `data`.
   */
  lemma RefillRound(data: seq<byte>, got: seq<byte>, more: seq<byte>, bytes: seq<byte>, inRead: nat)
    requires 0 < |data| && |more| <= |data| && |got| + |more| <= inRead == |bytes|
    requires |got| + |more| == inRead || |more| == |data|
    requires bytes[..|got| + |more|] == got + more && more == data[..|more|]
    requires forall j :: 0 <= j < inRead - |got + more| ==> bytes[|got + more| + j] == data[j % |data|]
    ensures forall j :: 0 <= j < inRead - |got| ==> bytes[|got| + j] == data[j % |data|]
  {
    AppendedPrefix(bytes, got, more, data);
    CyclicExtend(data, bytes, |got|, |got| + |more|, inRead);
  }

  /** The LOOP refill leaves the operand where the repetition of its bytes stops. */
  lemma {:induction false} LoopRefillPosition(op: InState, inRead: nat, got: seq<byte>, errno: int)
    requires op.Valid() && |got| < inRead && op.seekable && |op.data| > 0
    ensures LoopRefill(op, inRead, got, errno).0.pos % |op.data| == (inRead - |got|) % |op.data|
    decreases inRead - |got|
  {
    var L := |op.data|;
    var need := inRead - |got|;
    var more := op.Rewound().ReadBytes(need);
    var op1 := op.Rewound().AfterRead(need);
    LoopRefillStep(op, inRead, got, errno);
    if |got| + |more| < inRead {
      LoopRefillPosition(op1, inRead, got + more, errno);
      assert |more| == L;
      ModAddPeriod(need - L, L);
    }
  }

  /**
   * The bytes of `r` from `at` to `total` are the operand `data` from its
   * start, repeated, when those up to `rest` are `data` itself and those
   * from `rest` on, should `rest` be short of `total`, repeat it again.
   */
  lemma CyclicExtend(data: seq<byte>, r: seq<byte>, at: nat, rest: nat, total: nat)
    requires 0 < |data| && at <= rest <= total <= |r| && rest - at <= |data|
    requires rest == total || rest - at == |data|
    requires forall j :: 0 <= j < rest - at ==> r[at + j] == data[j]
    requires forall j :: 0 <= j < total - rest ==> r[rest + j] == data[j % |data|]
    ensures forall j :: 0 <= j < total - at ==> r[at + j] == data[j % |data|]
  {
    var L := |data|;
    forall j | 0 <= j < total - at
      ensures r[at + j] == data[j % L]
    {
      if j < rest - at {
        ModUnique(j, 0, j, L);
      } else {
        assert r[rest + (j - L)] == data[(j - L) % L];
        ModAddPeriod(j - L, L);
      }
    }
  }

  /** Bytes appended after `got` are read back at their offsets. */
  lemma AppendedPrefix(r: seq<byte>, got: seq<byte>, more: seq<byte>, data: seq<byte>)
    requires |got| + |more| <= |r| && |more| <= |data|
    requires r[..|got| + |more|] == got + more && more == data[..|more|]
    ensures forall j :: 0 <= j < |more| ==> r[|got| + j] == data[j]
  {
    forall j | 0 <= j < |more|
      ensures r[|got| + j] == data[j]
    {
      assert r[..|got| + |more|][|got| + j] == (got + more)[|got| + j];
    }
  }

  /** One round of the LOOP refill: seek back to the start and read what is missing. */
  lemma LoopRefillStep(op: InState, inRead: nat, got: seq<byte>, errno: int)
    requires op.Valid() && |got| < inRead && op.seekable && |op.data| > 0
    ensures var need := inRead - |got|;
      LoopRefill(op, inRead, got, errno)
      == LoopRefill(op.Rewound().AfterRead(need), inRead, got + op.Rewound().ReadBytes(need), errno)
  {
  }

  /** Within the operand's remaining bytes, every mode pairs the input with those bytes. */
  lemma OperandBytesWithin(op: InState, eof: EofMode, m: nat)
    requires op.Valid() && m <= op.Avail()
    ensures op.data[op.pos..op.pos + m] == OperandStream(op, eof, m)
  {
    forall k | 0 <= k < m
      ensures OperandByte(op, eof, k) == op.data[op.pos + k]
    {
      if eof == Loop {
        ModUnique(op.pos + k, 0, op.pos + k, |op.data|);
      }
    }
  }

  /**
   * One operand chunk of `c <= n` bytes, against the closed form for `n`
   * input bytes: the bytes it resolves are the first of the operand stream;
   * a short chunk resolves exactly what the closed form does and reports its
   * error; a full chunk leaves an operand whose closed form for the rest of
   * the input continues this one.
   */
  lemma OperandChunkMeaning(op: InState, eof: EofMode, c: nat, n: nat, errno: int)
    requires op.Valid() && 0 < c <= n
    ensures var r := OperandChunk(op, eof, c, errno);
      r.1 == OperandStream(op, eof, Min(c, Resolvable(op, eof, n)))
    ensures var r := OperandChunk(op, eof, c, errno);
      |r.1| < c ==> Resolvable(op, eof, n) == |r.1| && r.2 == CreateError(ShortError(op, eof), errno)
    ensures var r := OperandChunk(op, eof, c, errno);
      |r.1| == c ==> && r.2 == NoError
                     && Resolvable(op, eof, n) == c + Resolvable(r.0, eof, n - c)
                     && forall k: nat :: OperandByte(r.0, eof, k) == OperandByte(op, eof, c + k)
  {
    var avail := op.Avail();
    var r := OperandChunk(op, eof, c, errno);
    var got := op.ReadBytes(c);
    var op1 := op.AfterRead(c);
    if c <= avail {
      OperandBytesWithin(op, eof, c);
    } else {
      OperandBytesWithin(op, eof, avail);
      assert got == op.data[op.pos..op.pos + avail];
      if !op.failing && eof == Loop && op.seekable && |op.data| > 0 {
        LoopChunkMeaning(op, c, n, errno);
      } else if !op.failing && (eof == Zero || eof == One) {
        var fill := Repeat(FillByte(eof), c - avail);
        assert r.1 == got + fill;
        assert r.1 == OperandStream(op, eof, c);
      }
    }
  }

  /** The LOOP case of `OperandChunkMeaning` where the refill succeeds. */
  lemma LoopChunkMeaning(op: InState, c: nat, n: nat, errno: int)
    requires op.Valid() && 0 < c <= n && op.Avail() < c
    requires !op.failing && op.seekable && |op.data| > 0
    ensures var r := OperandChunk(op, Loop, c, errno);
      && r.1 == OperandStream(op, Loop, c)
      && r.2 == NoError
      && Resolvable(op, Loop, n) == c + Resolvable(r.0, Loop, n - c)
      && forall k: nat :: OperandByte(r.0, Loop, k) == OperandByte(op, Loop, c + k)
  {
    var r := OperandChunk(op, Loop, c, errno);
    LoopChunkBytes(op, c, errno);
    LoopContinues(op, r.0, c);
  }

  /**
   * A LOOP chunk that runs past the operand's end: the operand from its
   * position to its end, then from its start again, and the position the
   * operand is left at, modulo its length.
   */
  lemma LoopChunkBytes(op: InState, c: nat, errno: int)
    requires op.Valid() && 0 < c && op.Avail() < c
    requires !op.failing && op.seekable && |op.data| > 0
    ensures var r := OperandChunk(op, Loop, c, errno);
      && r.1 == OperandStream(op, Loop, c)
      && r.2 == NoError
      && r.0.data == op.data && r.0.Valid()
      && r.0.pos % |op.data| == (c - op.Avail()) % |op.data|
  {
    var L := |op.data|;
    var avail := op.Avail();
    var got := op.ReadBytes(c);
    var op1 := op.AfterRead(c);
    LoopRefillCompletes(op1, c, got, errno);
    LoopRefillBytes(op1, c, got, errno);
    LoopRefillPosition(op1, c, got, errno);
    var r := LoopRefill(op1, c, got, errno);
    OperandBytesWithin(op, Loop, avail);
    LoopBytesAgree(op, r.1, c);
  }

  /** Bytes that run from the operand's position to its end, then repeat it from its start, are the LOOP stream. */
  lemma LoopBytesAgree(op: InState, bytes: seq<byte>, c: nat)
    requires op.Valid() && op.Avail() < c && |op.data| > 0 && |bytes| == c
    requires bytes[..op.Avail()] == OperandStream(op, Loop, op.Avail())
    requires forall j :: 0 <= j < c - op.Avail() ==> bytes[op.Avail() + j] == op.data[j % |op.data|]
    ensures bytes == OperandStream(op, Loop, c)
  {
    var L, avail := |op.data|, op.Avail();
    forall k | 0 <= k < c
      ensures bytes[k] == OperandByte(op, Loop, k)
    {
      if k < avail {
        assert bytes[..avail][k] == OperandStream(op, Loop, avail)[k];
      } else {
        assert bytes[avail + (k - avail)] == op.data[(k - avail) % L];
        ModAddPeriod(k - avail, L);
        assert op.pos + k == L + (k - avail);
      }
    }
  }

  /** An operand left at `c - avail` modulo its length continues the LOOP stream after `c` bytes. */
  lemma LoopContinues(op: InState, op2: InState, c: nat)
    requires op.Valid() && op.Avail() < c && |op.data| > 0
    requires op2.data == op.data && op2.pos % |op.data| == (c - op.Avail()) % |op.data|
    ensures forall k: nat :: OperandByte(op2, Loop, k) == OperandByte(op, Loop, c + k)
  {
    var L := |op.data|;
    forall k: nat
      ensures OperandByte(op2, Loop, k) == OperandByte(op, Loop, c + k)
    {
      ModAddPeriod(c - op.Avail(), L);
      ModCongruent(op2.pos, L + (c - op.Avail()), k, L);
      assert op.pos + (c + k) == L + (c - op.Avail()) + k;
    }
  }

  /** Combining distributes over concatenation. */
  lemma CombineSplit(a: seq<byte>, b: seq<byte>, c: seq<byte>, d: seq<byte>, operation: Operation)
    requires |a| == |c| && |b| == |d|
    ensures Combine(a + b, c + d, operation) == Combine(a, c, operation) + Combine(b, d, operation)
  {
    assert forall k :: 0 <= k < |a + b| ==>
      Combine(a + b, c + d, operation)[k] == (Combine(a, c, operation) + Combine(b, d, operation))[k];
  }

  /**
   * What the output receives in the closed form of `bw_file`: with `m` of the
   * input's remaining bytes resolvable against the operand, the first `m`
   * input bytes combined with the operand stream, as far as the device takes
   * them.
   */
  function ClosedOutput(i: InState, op: InState, o: OutState, eof: EofMode, operation: Operation): OutState
    requires i.Valid()
  {
    var m := Resolvable(op, eof, i.Avail());
    o.AfterWrite(Combine(i.data[i.pos..i.pos + m], OperandStream(op, eof, m), operation))
  }

  /**
   * The result in the closed form of `bw_file`: an output error when the
   * device takes fewer than the `m` resolvable bytes; otherwise, when the
   * operand covers fewer than the input's bytes, the error of the operand's
   * end (none for TRUNCATE, ZERO and ONE); otherwise an input error when the
   * input ends in a read error, and no error when it ends normally.
   */
  function ClosedError(i: InState, op: InState, o: OutState, eof: EofMode, errno: int): BwError
  {
    var m := Resolvable(op, eof, i.Avail());
    CreateError(if o.room < m then OutputWrite
                else if m < i.Avail() then ShortError(op, eof)
                else if i.failing then InputRead
                else None, errno)
  }

  /** The outcome of `bw_file` does not depend on the chunk size: it is the closed form. */
  lemma {:induction false} FileFormOutcome(i: InState, op: InState, o: OutState, eof: EofMode, operation: Operation,
                                           bufSize: BufSize, errno: int)
    requires i.Valid() && op.Valid()
    ensures FileFormRun(i, op, o, eof, operation, bufSize, errno).2 == ClosedOutput(i, op, o, eof, operation)
    ensures FileFormRun(i, op, o, eof, operation, bufSize, errno).3 == ClosedError(i, op, o, eof, errno)
    decreases i.Avail()
  {
    var c := i.ReadCount(bufSize);
    if c == 0 {
      EmptyInputClosed(i, op, o, eof, operation, bufSize, errno);
    } else {
      var r := OperandChunk(op, eof, c, errno);
      var o1 := o.AfterWrite(Combine(i.ReadBytes(bufSize)[..|r.1|], r.1, operation));
      var next := FileFormRun(i.AfterRead(bufSize), r.0, o1, eof, operation, bufSize, errno);
      RunAfterChunk(i, op, o, eof, operation, bufSize, errno);
      if |r.1| == c && o.room >= c {
        FileFormOutcome(i.AfterRead(bufSize), r.0, o1, eof, operation, bufSize, errno);
      }
      ChunkClosed(i, op, o, eof, operation, bufSize, errno, next.2, next.3);
    }
  }

  /** With no input left, the closed form is an unchanged output and the input's end. */
  lemma EmptyInputClosed(i: InState, op: InState, o: OutState, eof: EofMode, operation: Operation,
                         bufSize: BufSize, errno: int)
    requires i.Valid() && op.Valid() && i.ReadCount(bufSize) == 0
    ensures FileFormRun(i, op, o, eof, operation, bufSize, errno).2 == ClosedOutput(i, op, o, eof, operation)
    ensures FileFormRun(i, op, o, eof, operation, bufSize, errno).3 == ClosedError(i, op, o, eof, errno)
  {
    ClosedOutputIs(i, op, o, eof, operation, 0, [], []);
  }

  /**
   * `FileFormRun` after a non-empty input chunk, in terms of the operand
   * chunk: a short write, an operand error or a short operand chunk stop the
   * run; otherwise it goes on from the streams the chunk leaves.
   */
  lemma RunAfterChunk(i: InState, op: InState, o: OutState, eof: EofMode, operation: Operation,
                      bufSize: BufSize, errno: int)
    requires i.Valid() && op.Valid() && i.ReadCount(bufSize) > 0
    ensures var c := i.ReadCount(bufSize);
      var r := OperandChunk(op, eof, c, errno);
      var o1 := o.AfterWrite(Combine(i.ReadBytes(bufSize)[..|r.1|], r.1, operation));
      var run := FileFormRun(i, op, o, eof, operation, bufSize, errno);
      var next := FileFormRun(i.AfterRead(bufSize), r.0, o1, eof, operation, bufSize, errno);
      var stop := o.room < |r.1| || r.2.kind != None || |r.1| < c;
      && run.2 == (if stop then o1 else next.2)
      && run.3 == (if o.room < |r.1| then CreateError(OutputWrite, errno)
                   else if stop then r.2 else next.3)
  {
  }

  /**
   * One chunk against the closed form: given that the run after a full,
   * written chunk ends in the closed form for the rest, what the run does
   * after this chunk is the closed form from here.
   */
  lemma ChunkClosed(i: InState, op: InState, o: OutState, eof: EofMode, operation: Operation,
                    bufSize: BufSize, errno: int, nextOut: OutState, nextError: BwError)
    requires i.Valid() && op.Valid() && i.ReadCount(bufSize) > 0
    requires var c := i.ReadCount(bufSize);
      var r := OperandChunk(op, eof, c, errno);
      var o1 := o.AfterWrite(Combine(i.ReadBytes(bufSize)[..|r.1|], r.1, operation));
      |r.1| == c && o.room >= c ==>
        && nextOut == ClosedOutput(i.AfterRead(bufSize), r.0, o1, eof, operation)
        && nextError == ClosedError(i.AfterRead(bufSize), r.0, o1, eof, errno)
    ensures var c := i.ReadCount(bufSize);
      var r := OperandChunk(op, eof, c, errno);
      var o1 := o.AfterWrite(Combine(i.ReadBytes(bufSize)[..|r.1|], r.1, operation));
      var stop := o.room < |r.1| || r.2.kind != None || |r.1| < c;
      && (if stop then o1 else nextOut) == ClosedOutput(i, op, o, eof, operation)
      && (if o.room < |r.1| then CreateError(OutputWrite, errno) else if stop then r.2 else nextError)
         == ClosedError(i, op, o, eof, errno)
  {
    var c := i.ReadCount(bufSize);
    var r := OperandChunk(op, eof, c, errno);
    OperandChunkMeaning(op, eof, c, i.Avail(), errno);
    if |r.1| < c {
      ShortChunkClosed(i, op, o, eof, operation, bufSize, r.1, errno);
    } else {
      FullChunkClosed(i, op, o, eof, operation, bufSize, errno, nextOut, nextError);
    }
  }

  /** `ChunkClosed` when the operand resolves the whole chunk. */
  lemma FullChunkClosed(i: InState, op: InState, o: OutState, eof: EofMode, operation: Operation,
                        bufSize: BufSize, errno: int, nextOut: OutState, nextError: BwError)
    requires i.Valid() && op.Valid() && i.ReadCount(bufSize) > 0
    requires |OperandChunk(op, eof, i.ReadCount(bufSize), errno).1| == i.ReadCount(bufSize)
    requires var c := i.ReadCount(bufSize);
      var r := OperandChunk(op, eof, c, errno);
      var o1 := o.AfterWrite(Combine(i.ReadBytes(bufSize)[..|r.1|], r.1, operation));
      |r.1| == c && o.room >= c ==>
        && nextOut == ClosedOutput(i.AfterRead(bufSize), r.0, o1, eof, operation)
        && nextError == ClosedError(i.AfterRead(bufSize), r.0, o1, eof, errno)
    ensures var c := i.ReadCount(bufSize);
      var r := OperandChunk(op, eof, c, errno);
      var o1 := o.AfterWrite(Combine(i.ReadBytes(bufSize)[..|r.1|], r.1, operation));
      var stop := o.room < |r.1| || r.2.kind != None || |r.1| < c;
      && (if stop then o1 else nextOut) == ClosedOutput(i, op, o, eof, operation)
      && (if o.room < |r.1| then CreateError(OutputWrite, errno) else if stop then r.2 else nextError)
         == ClosedError(i, op, o, eof, errno)
  {
    var c := i.ReadCount(bufSize);
    var r := OperandChunk(op, eof, c, errno);
    OperandChunkMeaning(op, eof, c, i.Avail(), errno);
    assert i.ReadBytes(bufSize)[..c] == i.ReadBytes(bufSize);
    StreamSplit(op, r.0, eof, c, Resolvable(r.0, eof, i.Avail() - c));
    FullChunkOutput(i, op, r.0, o, eof, operation, bufSize);
    FullChunkError(i, op, r.0, o, o.AfterWrite(Combine(i.ReadBytes(bufSize), r.1, operation)), eof, bufSize, errno);
  }

  /** The closed form when the operand resolves fewer bytes than the chunk has. */
  lemma ShortChunkClosed(i: InState, op: InState, o: OutState, eof: EofMode, operation: Operation,
                         bufSize: BufSize, s: seq<byte>, errno: int)
    requires i.Valid() && |s| < i.ReadCount(bufSize)
    requires Resolvable(op, eof, i.Avail()) == |s| && s == OperandStream(op, eof, |s|)
    ensures ClosedOutput(i, op, o, eof, operation) == o.AfterWrite(Combine(i.ReadBytes(bufSize)[..|s|], s, operation))
    ensures ClosedError(i, op, o, eof, errno)
         == (if o.room < |s| then CreateError(OutputWrite, errno) else CreateError(ShortError(op, eof), errno))
  {
    ClosedOutputIs(i, op, o, eof, operation, |s|, i.ReadBytes(bufSize)[..|s|], s);
  }

  /**
   * The closed output when the operand resolves the whole chunk and leaves
   * the operand `op2`: a device that cannot take the chunk stops the output
   * there; otherwise it is that of the rest of the input against `op2`,
   * after the chunk.
   */
  lemma FullChunkOutput(i: InState, op: InState, op2: InState, o: OutState, eof: EofMode, operation: Operation,
                        bufSize: BufSize)
    requires i.Valid() && op.Valid()
    requires var c := i.ReadCount(bufSize);
      && 0 < c
      && Resolvable(op, eof, i.Avail()) == c + Resolvable(op2, eof, i.Avail() - c)
      && var m' := Resolvable(op2, eof, i.Avail() - c);
         OperandStream(op, eof, c + m') == OperandStream(op, eof, c) + OperandStream(op2, eof, m')
    ensures var c := i.ReadCount(bufSize);
      var o1 := o.AfterWrite(Combine(i.ReadBytes(bufSize), OperandStream(op, eof, c), operation));
      ClosedOutput(i, op, o, eof, operation)
      == (if o.room < c then o1 else ClosedOutput(i.AfterRead(bufSize), op2, o1, eof, operation))
  {
    var c := i.ReadCount(bufSize);
    var i1 := i.AfterRead(bufSize);
    InputSplit(i, bufSize, 0);
    var m' := Resolvable(op2, eof, i1.Avail());
    InputSplit(i, bufSize, m');
    var chunk, rest := i.ReadBytes(bufSize), i1.data[i1.pos..i1.pos + m'];
    var s1, s2 := OperandStream(op, eof, c), OperandStream(op2, eof, m');
    ClosedOutputIs(i, op, o, eof, operation, c + m', chunk + rest, s1 + s2);
    ClosedOutputIs(i1, op2, o.AfterWrite(Combine(chunk, s1, operation)), eof, operation, m', rest, s2);
    WriteThenRest(o, chunk, rest, s1, s2, operation);
  }

  /** `ClosedOutput` from its parts. */
  lemma ClosedOutputIs(i: InState, op: InState, o: OutState, eof: EofMode, operation: Operation,
                       m: nat, x: seq<byte>, y: seq<byte>)
    requires i.Valid() && Resolvable(op, eof, i.Avail()) == m
    requires i.data[i.pos..i.pos + m] == x && OperandStream(op, eof, m) == y
    ensures ClosedOutput(i, op, o, eof, operation) == o.AfterWrite(Combine(x, y, operation))
  {
  }

  /**
   * Writing a combined concatenation is writing the two combined parts in
   * turn; a device that cannot take the first part takes nothing of the
   * second.
   */
  lemma WriteThenRest(o: OutState, a: seq<byte>, b: seq<byte>, c: seq<byte>, d: seq<byte>, operation: Operation)
    requires |a| == |c| && |b| == |d|
    ensures var o1 := o.AfterWrite(Combine(a, c, operation));
      o.AfterWrite(Combine(a + b, c + d, operation))
      == (if o.room < |a| then o1 else o1.AfterWrite(Combine(b, d, operation)))
  {
    OutputAlgebra(o, a, b, c, d, operation);
  }

  /** The closed error when the operand resolves the whole chunk and leaves the operand `op2`. */
  lemma FullChunkError(i: InState, op: InState, op2: InState, o: OutState, o1: OutState, eof: EofMode,
                       bufSize: BufSize, errno: int)
    requires i.Valid() && op2.failing == op.failing && op2.seekable == op.seekable
    requires var c := i.ReadCount(bufSize);
      && 0 < c
      && Resolvable(op, eof, i.Avail()) == c + Resolvable(op2, eof, i.Avail() - c)
      && (o.room >= c ==> o1.room == o.room - c)
    ensures ClosedError(i, op, o, eof, errno)
         == (if o.room < i.ReadCount(bufSize) then CreateError(OutputWrite, errno)
             else ClosedError(i.AfterRead(bufSize), op2, o1, eof, errno))
  {
    assert i.AfterRead(bufSize).Avail() == i.Avail() - i.ReadCount(bufSize);
  }

  /** The input bytes a chunk leaves are the ones after the chunk. */
  lemma InputSplit(i: InState, bufSize: BufSize, m': nat)
    requires i.Valid() && i.ReadCount(bufSize) + m' <= i.Avail()
    ensures var i1 := i.AfterRead(bufSize);
      && i1.Avail() == i.Avail() - i.ReadCount(bufSize)
      && i.data[i.pos..i.pos + i.ReadCount(bufSize) + m'] == i.ReadBytes(bufSize) + i1.data[i1.pos..i1.pos + m']
  {
  }

  /** Writing a combined concatenation is writing the two combined parts in turn. */
  lemma OutputAlgebra(o: OutState, a: seq<byte>, b: seq<byte>, c: seq<byte>, d: seq<byte>, operation: Operation)
    requires |a| == |c| && |b| == |d|
    ensures o.AfterWrite(Combine(a + b, c + d, operation))
         == o.AfterWrite(Combine(a, c, operation)).AfterWrite(Combine(b, d, operation))
  {
    CombineSplit(a, b, c, d, operation);
    WritesCompose(o, Combine(a, c, operation), Combine(b, d, operation));
  }

  /** The operand stream continues in the operand a full chunk leaves behind. */
  lemma StreamSplit(op: InState, op2: InState, eof: EofMode, c: nat, m': nat)
    requires forall k: nat :: OperandByte(op2, eof, k) == OperandByte(op, eof, c + k)
    ensures OperandStream(op, eof, c + m') == OperandStream(op, eof, c) + OperandStream(op2, eof, m')
  {
    forall k | 0 <= k < c + m'
      ensures OperandStream(op, eof, c + m')[k] == (OperandStream(op, eof, c) + OperandStream(op2, eof, m'))[k]
    {
      if k >= c {
        assert OperandByte(op2, eof, k - c) == OperandByte(op, eof, c + (k - c));
      }
    }
  }
}
