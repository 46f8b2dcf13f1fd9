/*
 * The bit-shift drivers of src/bitwise.c: `lshift` and `rshift`.
 *
 * Both keep one buffer of `bufSize` bytes, zeroed once, across all chunks,
 * and shift it in place.  C promotes a byte to `int` (or `size_t`) before
 * shifting and truncates the result when it is stored back into a byte; on
 * `bv8` that is exactly `<<` and `>>`, including a shift by 8, which gives 0.
 */
module ShiftEngine {
  import opened Streams
  import opened BitwiseCore
  import opened Utils

  /** `buf[i] << k | buf[i + 1] >> (8 - k)`, stored in a byte. */
  function LeftPair(a: byte, b: byte, k: nat): byte
    requires k < 8
  {
    (a << k) | (b >> (8 - k))
  }

  /** `buf[i - 1] << (8 - k) | buf[i] >> k`, stored in a byte. */
  function RightPair(a: byte, b: byte, k: nat): byte
    requires k < 8
  {
    (a << (8 - k)) | (b >> k)
  }

  /** The buffer after the forward loop of `lshift` over its first `n` places. */
  function LShiftBuf(b: seq<byte>, n: nat, k: nat): (r: seq<byte>)
    requires n < |b| && k < 8
    ensures |r| == |b|
    ensures forall j {:trigger r[j]} :: 0 <= j < |b| ==> r[j] == if j < n then LeftPair(b[j], b[j + 1], k) else b[j]
  {
    seq(|b|, j requires 0 <= j < |b| => if j < n then LeftPair(b[j], b[j + 1], k) else b[j])
  }

  /** The buffer after the backward loop of `rshift` over places `1..n`. */
  function RShiftBuf(b: seq<byte>, n: nat, k: nat): (r: seq<byte>)
    requires n < |b| && k < 8
    ensures |r| == |b|
    ensures forall j {:trigger r[j]} :: 0 <= j < |b| ==>
      r[j] == if 1 <= j <= n then RightPair(b[j - 1], b[j], k) else b[j]
  {
    seq(|b|, j requires 0 <= j < |b| => if 1 <= j <= n then RightPair(b[j - 1], b[j], k) else b[j])
  }

  /**
   * The inner loop of `lshift`: each of the first `read` bytes takes its high
   * bits from itself and its low bits from the byte after it, which the loop
   * has not changed yet.
   */
  method LShiftInPlace(buf: array<byte>, read: nat, k: nat)
    requires read < buf.Length && k < 8
    modifies buf
    ensures buf[..] == LShiftBuf(old(buf[..]), read, k)
  {
    for i := 0 to read
      invariant forall j :: 0 <= j < i ==> buf[j] == LeftPair(old(buf[j]), old(buf[j + 1]), k)
      invariant forall j :: i <= j < buf.Length ==> buf[j] == old(buf[j])
    {
      buf[i] := LeftPair(buf[i], buf[i + 1], k);
    }
  }

  /**
   * The inner loop of `rshift`, from `read` down to 1: each byte takes its
   * low bits from itself and its high bits from the byte before it, which
   * the loop has not changed yet.  `buf[0]` is never written.
   */
  method RShiftInPlace(buf: array<byte>, read: nat, k: nat)
    requires read < buf.Length && k < 8
    modifies buf
    ensures buf[..] == RShiftBuf(old(buf[..]), read, k)
  {
    var i := read;
    while i >= 1
      invariant 0 <= i <= read
      invariant forall j :: i < j <= read ==> buf[j] == RightPair(old(buf[j - 1]), old(buf[j]), k)
      invariant forall j :: 0 <= j <= i || read < j < buf.Length ==> buf[j] == old(buf[j])
    {
      buf[i] := RightPair(buf[i - 1], buf[i], k);
      i := i - 1;
    }
  }

  /** A shift by zero bits leaves the buffer as it is, in both directions. */
  lemma ShiftByZero(b: seq<byte>, n: nat)
    requires n < |b|
    ensures LShiftBuf(b, n, 0) == b
    ensures RShiftBuf(b, n, 0) == b
  {
    forall j | 0 <= j < |b|
      ensures LShiftBuf(b, n, 0)[j] == b[j] && RShiftBuf(b, n, 0)[j] == b[j]
    {
      LeftPairByZero(b[j], if j + 1 < |b| then b[j + 1] else 0);
      RightPairByZero(if j >= 1 then b[j - 1] else 0, b[j]);
    }
  }

  lemma LeftPairByZero(a: byte, b: byte)
    ensures LeftPair(a, b, 0) == a
  {
  }

  lemma RightPairByZero(a: byte, b: byte)
    ensures RightPair(a, b, 0) == b
  {
  }

  // The chunk loops

  /** The buffer after `fread` has put up to `bufSize - 1` bytes at its front. */
  function LeftFill(i: InState, buf: seq<byte>, bufSize: BufSize): (r: seq<byte>)
    requires i.Valid() && |buf| == bufSize
    ensures |r| == bufSize
  {
    i.ReadBytes(bufSize - 1) + buf[i.ReadCount(bufSize - 1)..]
  }

  /** The buffer after `fread` has put up to `bufSize - 1` bytes after its first place. */
  function RightFill(i: InState, buf: seq<byte>, bufSize: BufSize): (r: seq<byte>)
    requires i.Valid() && |buf| == bufSize
    ensures |r| == bufSize
  {
    buf[..1] + i.ReadBytes(bufSize - 1) + buf[1 + i.ReadCount(bufSize - 1)..]
  }

  /**
   * The loop of `lshift` from the given stream values and buffer on: read up
   * to `bufSize - 1` bytes into the front of the buffer, shift its first
   * `read` places, write them.  An empty read ends the loop, with an input
   * error when the input's error indicator is set; a short write ends it
   * with an output error.
   */
  function LShiftLoop(i: InState, o: OutState, buf: seq<byte>, k: nat, bufSize: BufSize, errno: int)
    : (r: (InState, OutState, BwError))
    requires i.Valid() && |buf| == bufSize && k < 8
    decreases i.Avail()
  {
    var n := i.ReadCount(bufSize - 1);
    var i1 := i.AfterRead(bufSize - 1);
    if n == 0 then (i1, o, if i1.err then CreateError(InputRead, errno) else NoError)
    else
      var shifted := LShiftBuf(LeftFill(i, buf, bufSize), n, k);
      var o1 := o.AfterWrite(shifted[..n]);
      if o.WriteCount(n) != n then (i1, o1, CreateError(OutputWrite, errno))
      else LShiftLoop(i1, o1, shifted, k, bufSize, errno)
  }

  /**
   * The loop of `rshift`: read up to `bufSize - 1` bytes into the buffer
   * after its first place, shift places `1..read`, write them.
   */
  function RShiftLoop(i: InState, o: OutState, buf: seq<byte>, k: nat, bufSize: BufSize, errno: int)
    : (r: (InState, OutState, BwError))
    requires i.Valid() && |buf| == bufSize && k < 8
    decreases i.Avail()
  {
    var n := i.ReadCount(bufSize - 1);
    var i1 := i.AfterRead(bufSize - 1);
    if n == 0 then (i1, o, if i1.err then CreateError(InputRead, errno) else NoError)
    else
      var shifted := RShiftBuf(RightFill(i, buf, bufSize), n, k);
      var o1 := o.AfterWrite(shifted[1..1 + n]);
      if o.WriteCount(n) != n then (i1, o1, CreateError(OutputWrite, errno))
      else RShiftLoop(i1, o1, shifted, k, bufSize, errno)
  }

  /** One pass of the `lshift` loop body: `fread` into the front of the
      buffer, shift the bytes read, `fwrite` them. */
  method LShiftOnce(input: Input, output: Output, buf: array<byte>, k: nat, bufSize: BufSize)
    returns (read: nat, written: nat)
    requires input.Valid() && buf.Length == bufSize && k < 8
    modifies input, output, buf
    ensures input.Valid() && input.State() == old(input.State().AfterRead(bufSize - 1))
    ensures read == old(input.State().ReadCount(bufSize - 1))
    ensures read == 0 ==> written == 0 && output.State() == old(output.State())
    ensures read > 0 ==>
      && buf[..] == LShiftBuf(LeftFill(old(input.State()), old(buf[..]), bufSize), read, k)
      && written == old(output.State().WriteCount(read))
      && output.State() == old(output.State()).AfterWrite(buf[..read])
  {
    ghost var s0, b0 := input.State(), buf[..];
    read := input.Read(buf, 0, bufSize - 1);
    written := 0;
    if read > 0 {
      assert buf[..] == LeftFill(s0, b0, bufSize);
      LShiftInPlace(buf, read, k);
      written := output.Write(buf, 0, read);
    }
  }

  /** One pass of the `rshift` loop body: `fread` into the buffer after its
      first place, shift places `1..read`, `fwrite` them. */
  method RShiftOnce(input: Input, output: Output, buf: array<byte>, k: nat, bufSize: BufSize)
    returns (read: nat, written: nat)
    requires input.Valid() && buf.Length == bufSize && k < 8
    modifies input, output, buf
    ensures input.Valid() && input.State() == old(input.State().AfterRead(bufSize - 1))
    ensures read == old(input.State().ReadCount(bufSize - 1))
    ensures read == 0 ==> written == 0 && output.State() == old(output.State())
    ensures read > 0 ==>
      && buf[..] == RShiftBuf(RightFill(old(input.State()), old(buf[..]), bufSize), read, k)
      && written == old(output.State().WriteCount(read))
      && output.State() == old(output.State()).AfterWrite(buf[1..1 + read])
  {
    ghost var s0, b0 := input.State(), buf[..];
    read := input.Read(buf, 1, bufSize - 1);
    written := 0;
    if read > 0 {
      assert buf[..] == RightFill(s0, b0, bufSize);
      RShiftInPlace(buf, read, k);
      written := output.Write(buf, 1, read);
    }
  }

  /** The chunk loop of `lshift` on the streams and the buffer. */
  method LShiftChunks(input: Input, output: Output, buf: array<byte>, k: nat, bufSize: BufSize, errno: int)
    returns (e: BwError)
    requires input.Valid() && buf.Length == bufSize && k < 8
    modifies input, output, buf
    ensures input.Valid()
    ensures (input.State(), output.State(), e) == LShiftLoop(old(input.State()), old(output.State()), old(buf[..]),
                                                               k, bufSize, errno)
  {
    while true
      invariant input.Valid() && buf.Length == bufSize
      invariant LShiftLoop(input.State(), output.State(), buf[..], k, bufSize, errno)
             == LShiftLoop(old(input.State()), old(output.State()), old(buf[..]), k, bufSize, errno)
      decreases input.State().Avail()
    {
      var read, written := LShiftOnce(input, output, buf, k, bufSize);
      if read == 0 {
        return if input.err then CreateError(InputRead, errno) else NoError;
      }
      if written != read {
        return CreateError(OutputWrite, errno);
      }
    }
  }

  /** The chunk loop of `rshift` on the streams and the buffer. */
  method RShiftChunks(input: Input, output: Output, buf: array<byte>, k: nat, bufSize: BufSize, errno: int)
    returns (e: BwError)
    requires input.Valid() && buf.Length == bufSize && k < 8
    modifies input, output, buf
    ensures input.Valid()
    ensures (input.State(), output.State(), e) == RShiftLoop(old(input.State()), old(output.State()), old(buf[..]),
                                                               k, bufSize, errno)
  {
    while true
      invariant input.Valid() && buf.Length == bufSize
      invariant RShiftLoop(input.State(), output.State(), buf[..], k, bufSize, errno)
             == RShiftLoop(old(input.State()), old(output.State()), old(buf[..]), k, bufSize, errno)
      decreases input.State().Avail()
    {
      var read, written := RShiftOnce(input, output, buf, k, bufSize);
      if read == 0 {
        return if input.err then CreateError(InputRead, errno) else NoError;
      }
      if written != read {
        return CreateError(OutputWrite, errno);
      }
    }
  }

  // The drivers

  /**
   * `lshift(input, output, amount)` on stream values: skip `amount / 8`
   * bytes (an input error if that comes up short on a read error), run the
   * chunk loop from a zeroed buffer, then write `amount / 8` zero bytes.
   */
  function LShiftSpec(i: InState, o: OutState, amount: nat, statFails: bool, bufSize: BufSize, errno: int)
    : (r: (InState, OutState, BwError))
    requires i.Valid()
  {
    var bo, k := amount / 8, amount % 8;
    var i1 := Skipped(i, bo, statFails);
    if Min(bo, i.Avail()) < bo && i1.err then (i1, o, CreateError(InputRead, errno))
    else
      var run := LShiftLoop(i1, o, Zeros(bufSize), k, bufSize, errno);
      if run.2.kind != None then run
      else (run.0, run.1.AfterWrite(Zeros(bo)),
            if run.1.WriteCount(bo) < bo then CreateError(OutputWrite, errno) else NoError)
  }

  /**
   * `rshift(input, output, amount)` on stream values: write `amount / 8`
   * zero bytes (an output error if the device takes fewer), then run the
   * chunk loop from a zeroed buffer.
   */
  function RShiftSpec(i: InState, o: OutState, amount: nat, bufSize: BufSize, errno: int)
    : (r: (InState, OutState, BwError))
    requires i.Valid()
  {
    var bo, k := amount / 8, amount % 8;
    var o1 := o.AfterWrite(Zeros(bo));
    if o.WriteCount(bo) < bo then (i, o1, CreateError(OutputWrite, errno))
    else RShiftLoop(i, o1, Zeros(bufSize), k, bufSize, errno)
  }

  /** `lshift`.  `statFails` is whether `fstat` fails inside `fskip`. */
  method LShift(input: Input, output: Output, amount: nat, statFails: bool, bufSize: BufSize, errno: int)
    returns (e: BwError)
    requires input.Valid()
    modifies input, output
    ensures input.Valid()
    ensures (input.State(), output.State(), e) == LShiftSpec(old(input.State()), old(output.State()), amount,
                                                               statFails, bufSize, errno)
  {
    var byteOffset, bitOffset := amount / 8, amount % 8;
    var skipped := Skip(input, byteOffset, statFails, bufSize);
    if skipped < byteOffset && input.err {
      return CreateError(InputRead, errno);
    }
    var buf := new byte[bufSize](_ => 0);
    assert buf[..] == Zeros(bufSize);
    e := LShiftChunks(input, output, buf, bitOffset, bufSize, errno);
    if e.kind != None {
      return;
    }
    var zeroed := Utils.Zero(output, byteOffset, bufSize);
    if zeroed < byteOffset {
      return CreateError(OutputWrite, errno);
    }
    return NoError;
  }

  /** `rshift` */
  method RShift(input: Input, output: Output, amount: nat, bufSize: BufSize, errno: int)
    returns (e: BwError)
    requires input.Valid()
    modifies input, output
    ensures input.Valid()
    ensures (input.State(), output.State(), e) == RShiftSpec(old(input.State()), old(output.State()), amount,
                                                               bufSize, errno)
  {
    var byteOffset, bitOffset := amount / 8, amount % 8;
    var zeroed := Utils.Zero(output, byteOffset, bufSize);
    if zeroed < byteOffset {
      return CreateError(OutputWrite, errno);
    }
    var buf := new byte[bufSize](_ => 0);
    assert buf[..] == Zeros(bufSize);
    e := RShiftChunks(input, output, buf, bitOffset, bufSize, errno);
  }

  // What the drivers produce

  /**
   * The chunk loop of either direction writes the shifted input bytes as far
   * as the device takes them: it ends with an output error when the device
   * has room for fewer than all of them, and otherwise with an input error
   * exactly when the stream ends in a read error.
   */
  lemma {:induction false} LShiftLoopOutcome(i: InState, o: OutState, buf: seq<byte>, k: nat, bufSize: BufSize, errno: int)
    requires i.Valid() && |buf| == bufSize && k < 8
    ensures var r := LShiftLoop(i, o, buf, k, bufSize, errno);
      && r.2 == CreateError(if o.room < i.Avail() then OutputWrite else if i.failing then InputRead else None, errno)
      && |r.1.data| == |o.data| + Min(i.Avail(), o.room)
      && r.1.room == o.room - Min(i.Avail(), o.room)
      && r.0.Valid() && r.0.data == i.data && r.0.failing == i.failing
    decreases i.Avail()
  {
    var n := i.ReadCount(bufSize - 1);
    if n > 0 && o.WriteCount(n) == n {
      var shifted := LShiftBuf(LeftFill(i, buf, bufSize), n, k);
      LShiftLoopOutcome(i.AfterRead(bufSize - 1), o.AfterWrite(shifted[..n]), shifted, k, bufSize, errno);
    }
  }

  /** The same for the loop of `rshift`. */
  lemma {:induction false} RShiftLoopOutcome(i: InState, o: OutState, buf: seq<byte>, k: nat, bufSize: BufSize, errno: int)
    requires i.Valid() && |buf| == bufSize && k < 8
    ensures var r := RShiftLoop(i, o, buf, k, bufSize, errno);
      && r.2 == CreateError(if o.room < i.Avail() then OutputWrite else if i.failing then InputRead else None, errno)
      && |r.1.data| == |o.data| + Min(i.Avail(), o.room)
      && r.1.room == o.room - Min(i.Avail(), o.room)
      && r.0.Valid() && r.0.data == i.data && r.0.failing == i.failing
    decreases i.Avail()
  {
    var n := i.ReadCount(bufSize - 1);
    if n > 0 && o.WriteCount(n) == n {
      var shifted := RShiftBuf(RightFill(i, buf, bufSize), n, k);
      RShiftLoopOutcome(i.AfterRead(bufSize - 1), o.AfterWrite(shifted[1..1 + n]), shifted, k, bufSize, errno);
    }
  }

  /**
   * `lshift` of an input with `L` bytes left writes `L - min(amount / 8, L)`
   * shifted bytes and then `amount / 8` zero bytes.  The result is an output
   * error when the device takes fewer, and otherwise an input error exactly
   * when the input ends in a read error.
   */
  lemma LShiftOutcome(i: InState, o: OutState, amount: nat, statFails: bool, bufSize: BufSize, errno: int)
    requires i.Valid()
    ensures var bo := amount / 8;
      var rest := i.Avail() - Min(bo, i.Avail());
      var r := LShiftSpec(i, o, amount, statFails, bufSize, errno);
      && r.2 == CreateError(if o.room < rest then OutputWrite else if i.failing then InputRead
                            else if o.room < rest + bo then OutputWrite else None, errno)
      && (r.2.kind == None ==> |r.1.data| == |o.data| + rest + bo)
  {
    var bo := amount / 8;
    var i1 := Skipped(i, bo, statFails);
    LShiftLoopOutcome(i1, o, Zeros(bufSize), amount % 8, bufSize, errno);
  }

  /**
   * `rshift` of an input with `L` bytes left writes `amount / 8` zero bytes
   * and then `L` shifted bytes: an output error when the device takes fewer,
   * and otherwise an input error exactly when the input ends in a read error.
   */
  lemma RShiftOutcome(i: InState, o: OutState, amount: nat, bufSize: BufSize, errno: int)
    requires i.Valid()
    ensures var bo := amount / 8;
      var r := RShiftSpec(i, o, amount, bufSize, errno);
      && r.2 == CreateError(if o.room < bo + i.Avail() then OutputWrite else if i.failing then InputRead else None, errno)
      && (r.2.kind == None ==> |r.1.data| == |o.data| + bo + i.Avail())
  {
    var bo := amount / 8;
    if o.WriteCount(bo) == bo {
      RShiftLoopOutcome(i, o.AfterWrite(Zeros(bo)), Zeros(bufSize), amount % 8, bufSize, errno);
    }
  }

  // The whole-stream shift the drivers are meant to compute

  /** Byte `p` of `x`, or 0 outside it. */
  function ByteAt(x: seq<byte>, p: int): byte
  {
    if 0 <= p < |x| then x[p] else 0
  }

  /**
   * `x` read as one bit string, most significant bit first, shifted left by
   * `amount` bits within its own length: byte `j` takes its high bits from
   * byte `j + amount / 8` and its low bits from the byte after that, and
   * bits shifted in from beyond the end are zero.
   */
  function ShiftLeftBytes(x: seq<byte>, amount: nat): (r: seq<byte>)
    ensures |r| == |x|
    ensures forall j {:trigger r[j]} :: 0 <= j < |x| ==>
      r[j] == LeftPair(ByteAt(x, j + amount / 8), ByteAt(x, j + amount / 8 + 1), amount % 8)
  {
    seq(|x|, j requires 0 <= j < |x| => LeftPair(ByteAt(x, j + amount / 8), ByteAt(x, j + amount / 8 + 1), amount % 8))
  }

  /** `x` shifted right by `amount` bits within its own length, zeros shifted
      in at the front. */
  function ShiftRightBytes(x: seq<byte>, amount: nat): (r: seq<byte>)
    ensures |r| == |x|
    ensures forall j {:trigger r[j]} :: 0 <= j < |x| ==>
      r[j] == RightPair(ByteAt(x, j - amount / 8 - 1), ByteAt(x, j - amount / 8), amount % 8)
  {
    seq(|x|, j requires 0 <= j < |x| => RightPair(ByteAt(x, j - amount / 8 - 1), ByteAt(x, j - amount / 8), amount % 8))
  }

  lemma ZeroPairs(k: nat)
    requires k < 8
    ensures LeftPair(0, 0, k) == 0 && RightPair(0, 0, k) == 0
  {
  }

  /** Shifting a buffer holding `x` and then a zero byte left over its first
      `|x|` places gives `x` shifted. */
  lemma LShiftBufHolding(x: seq<byte>, z: seq<byte>, k: nat)
    requires |z| >= 1 && z[0] == 0 && k < 8
    ensures LShiftBuf(x + z, |x|, k)[..|x|] == ShiftLeftBytes(x, k)
  {
    var fill := x + z;
    assert k / 8 == 0 && k % 8 == k;
    forall j | 0 <= j < |x|
      ensures LShiftBuf(fill, |x|, k)[j] == ShiftLeftBytes(x, k)[j]
    {
      assert fill[j] == x[j] && fill[j + 1] == ByteAt(x, j + 1);
    }
  }

  /** Shifting a buffer holding a zero byte and then `x` right over places
      `1..|x|` gives `x` shifted. */
  lemma RShiftBufHolding(x: seq<byte>, z: seq<byte>, k: nat)
    requires k < 8
    ensures RShiftBuf([0] + x + z, |x|, k)[1..1 + |x|] == ShiftRightBytes(x, k)
  {
    var fill := [0] + x + z;
    assert k / 8 == 0 && k % 8 == k;
    forall j | 1 <= j <= |x|
      ensures RShiftBuf(fill, |x|, k)[j] == ShiftRightBytes(x, k)[j - 1]
    {
      assert fill[j - 1] == ByteAt(x, j - 2) && fill[j] == x[j - 1];
    }
  }

  /**
   * When the remaining input fits in one buffer, the loop of `lshift`
   * started from a zeroed buffer writes exactly the shifted input.
   */
  lemma LShiftLoopOneChunk(i: InState, o: OutState, k: nat, bufSize: BufSize, errno: int)
    requires i.Valid() && i.Avail() <= bufSize - 1 && i.Avail() <= o.room && k < 8
    ensures LShiftLoop(i, o, Zeros(bufSize), k, bufSize, errno).1 == o.AfterWrite(ShiftLeftBytes(i.data[i.pos..], k))
  {
    var n, x := i.Avail(), i.data[i.pos..];
    if n > 0 {
      var z := Zeros(bufSize)[n..];
      assert LeftFill(i, Zeros(bufSize), bufSize) == x + z;
      LShiftBufHolding(x, z, k);
    }
  }

  /** The same for the loop of `rshift`. */
  lemma RShiftLoopOneChunk(i: InState, o: OutState, k: nat, bufSize: BufSize, errno: int)
    requires i.Valid() && i.Avail() <= bufSize - 1 && i.Avail() <= o.room && k < 8
    ensures RShiftLoop(i, o, Zeros(bufSize), k, bufSize, errno).1 == o.AfterWrite(ShiftRightBytes(i.data[i.pos..], k))
  {
    var n, x := i.Avail(), i.data[i.pos..];
    if n > 0 {
      var z := Zeros(bufSize)[1 + n..];
      assert Zeros(bufSize)[..1] == [0];
      assert RightFill(i, Zeros(bufSize), bufSize) == [0] + x + z;
      RShiftBufHolding(x, z, k);
    }
  }

  /**
   * Dropping the first `s = min(amount / 8, |x|)` bytes, shifting the rest by
   * `amount % 8` bits and appending `s` zero bytes is the shift by `amount`.
   */
  lemma ShiftLeftByBytes(x: seq<byte>, amount: nat)
    ensures var s := Min(amount / 8, |x|);
      ShiftLeftBytes(x[s..], amount % 8) + Zeros(s) == ShiftLeftBytes(x, amount)
  {
    var s, k := Min(amount / 8, |x|), amount % 8;
    var y := x[s..];
    ZeroPairs(k);
    forall j | 0 <= j < |x|
      ensures (ShiftLeftBytes(y, k) + Zeros(s))[j] == ShiftLeftBytes(x, amount)[j]
    {
      if j < |y| {
        assert ByteAt(y, j) == ByteAt(x, j + s) && ByteAt(y, j + 1) == ByteAt(x, j + s + 1);
      }
    }
  }

  /**
   * Writing `s = min(amount / 8, |x|)` zero bytes and then the first
   * `|x| - s` bytes shifted by `amount % 8` bits is the shift by `amount`.
   */
  lemma ShiftRightByBytes(x: seq<byte>, amount: nat)
    ensures var s := Min(amount / 8, |x|);
      Zeros(s) + ShiftRightBytes(x[..|x| - s], amount % 8) == ShiftRightBytes(x, amount)
  {
    var s, k := Min(amount / 8, |x|), amount % 8;
    var y := x[..|x| - s];
    ZeroPairs(k);
    forall j | 0 <= j < |x|
      ensures (Zeros(s) + ShiftRightBytes(y, k))[j] == ShiftRightBytes(x, amount)[j]
    {
      if j >= s {
        assert ByteAt(y, j - s) == ByteAt(x, j - s) && ByteAt(y, j - s - 1) == ByteAt(x, j - s - 1);
      }
    }
  }

  /** After a chunk loop that ends without an error, `lshift` appends the
      zero bytes. */
  lemma LShiftAfterLoop(i: InState, o: OutState, amount: nat, statFails: bool, bufSize: BufSize, errno: int)
    requires i.Valid() && !i.failing
    ensures var bo := amount / 8;
      var run := LShiftLoop(Skipped(i, bo, statFails), o, Zeros(bufSize), amount % 8, bufSize, errno);
      var r := LShiftSpec(i, o, amount, statFails, bufSize, errno);
      run.2.kind == None ==>
        r.1 == run.1.AfterWrite(Zeros(bo))
        && r.2 == if run.1.WriteCount(bo) < bo then CreateError(OutputWrite, errno) else NoError
  {
  }

  /**
   * When the input left after the skip fits in one buffer, `lshift` writes
   * the remaining input shifted by `amount % 8` bits followed by
   * `amount / 8` zero bytes.
   */
  lemma LShiftOneChunk(i: InState, o: OutState, amount: nat, statFails: bool, bufSize: BufSize, errno: int)
    requires i.Valid() && !i.failing
    requires i.Avail() - Min(amount / 8, i.Avail()) <= bufSize - 1
    requires i.Avail() - Min(amount / 8, i.Avail()) + amount / 8 <= o.room
    ensures var x, bo := i.data[i.pos..], amount / 8;
      var r := LShiftSpec(i, o, amount, statFails, bufSize, errno);
      && r.2 == NoError
      && r.1.data == o.data + ShiftLeftBytes(x[Min(bo, |x|)..], amount % 8) + Zeros(bo)
  {
    var x, bo, k := i.data[i.pos..], amount / 8, amount % 8;
    var i1 := Skipped(i, bo, statFails);
    var y := x[Min(bo, |x|)..];
    assert i1.data[i1.pos..] == y;
    LShiftLoopOutcome(i1, o, Zeros(bufSize), k, bufSize, errno);
    LShiftLoopOneChunk(i1, o, k, bufSize, errno);
    var run := LShiftLoop(i1, o, Zeros(bufSize), k, bufSize, errno);
    assert run.2 == NoError && run.1.data == o.data + ShiftLeftBytes(y, k) && bo <= run.1.room;
    LShiftAfterLoop(i, o, amount, statFails, bufSize, errno);
    var r := LShiftSpec(i, o, amount, statFails, bufSize, errno);
    assert r.1 == run.1.AfterWrite(Zeros(bo)) && r.2 == NoError;
    assert Zeros(bo)[..bo] == Zeros(bo);
  }

  /**
   * So when the input has at least `amount / 8` bytes left and the rest fits
   * in one buffer, `lshift` writes the input shifted by `amount` bits.
   */
  lemma LShiftOneChunkExact(i: InState, o: OutState, amount: nat, statFails: bool, bufSize: BufSize, errno: int)
    requires i.Valid() && !i.failing && amount / 8 <= i.Avail()
    requires i.Avail() - amount / 8 <= bufSize - 1 && i.Avail() <= o.room
    ensures var r := LShiftSpec(i, o, amount, statFails, bufSize, errno);
      r.2 == NoError && r.1.data == o.data + ShiftLeftBytes(i.data[i.pos..], amount)
  {
    LShiftOneChunk(i, o, amount, statFails, bufSize, errno);
    ShiftLeftByBytes(i.data[i.pos..], amount);
  }


  /**
   * When the input fits in one buffer, `rshift` writes `amount / 8` zero
   * bytes and then the input shifted by `amount % 8` bits (whose first `|x|`
   * bytes are the input shifted by `amount` bits, `ShiftRightPrefix`).
   */
  lemma RShiftOneChunk(i: InState, o: OutState, amount: nat, bufSize: BufSize, errno: int)
    requires i.Valid() && !i.failing
    requires i.Avail() <= bufSize - 1 && amount / 8 + i.Avail() <= o.room
    ensures var r := RShiftSpec(i, o, amount, bufSize, errno);
      && r.2 == NoError
      && r.1.data == o.data + Zeros(amount / 8) + ShiftRightBytes(i.data[i.pos..], amount % 8)
  {
    var x, bo, k := i.data[i.pos..], amount / 8, amount % 8;
    var o1 := o.AfterWrite(Zeros(bo));
    assert Zeros(bo)[..bo] == Zeros(bo);
    assert o1.data == o.data + Zeros(bo) && i.Avail() <= o1.room;
    RShiftLoopOutcome(i, o1, Zeros(bufSize), k, bufSize, errno);
    RShiftLoopOneChunk(i, o1, k, bufSize, errno);
  }


  /** The first `|x|` bytes of `amount / 8` zero bytes followed by `x` shifted
      by `amount % 8` bits are `x` shifted by `amount` bits. */
  lemma ShiftRightPrefix(x: seq<byte>, amount: nat)
    ensures (Zeros(amount / 8) + ShiftRightBytes(x, amount % 8))[..|x|] == ShiftRightBytes(x, amount)
  {
    var bo, k := amount / 8, amount % 8;
    ZeroPairs(k);
    forall j | 0 <= j < |x|
      ensures (Zeros(bo) + ShiftRightBytes(x, k))[j] == ShiftRightBytes(x, amount)[j]
    {
    }
  }

  // Across chunk boundaries, as written

  /** Every byte shifted left on its own, as if the byte after it were 0. */
  function ShiftBytesLeftAlone(x: seq<byte>, k: nat): (r: seq<byte>)
    requires k < 8
    ensures |r| == |x|
    ensures forall j {:trigger r[j]} :: 0 <= j < |x| ==> r[j] == LeftPair(x[j], 0, k)
  {
    seq(|x|, j requires 0 <= j < |x| => LeftPair(x[j], 0, k))
  }

  /** Every byte shifted right on its own, as if the byte before it were 0. */
  function ShiftBytesRightAlone(x: seq<byte>, k: nat): (r: seq<byte>)
    requires k < 8
    ensures |r| == |x|
    ensures forall j {:trigger r[j]} :: 0 <= j < |x| ==> r[j] == RightPair(0, x[j], k)
  {
    seq(|x|, j requires 0 <= j < |x| => RightPair(0, x[j], k))
  }

  /**
   * With a two-byte buffer every chunk is one byte and the carry byte
   * `buf[1]` of `lshift` is never written, so no bits move between bytes.
   */
  lemma {:induction false} LShiftLoopByteChunks(i: InState, o: OutState, buf: seq<byte>, k: nat, errno: int)
    requires i.Valid() && |buf| == 2 && buf[1] == 0 && k < 8 && i.Avail() <= o.room
    ensures LShiftLoop(i, o, buf, k, 2, errno).1 == o.AfterWrite(ShiftBytesLeftAlone(i.data[i.pos..], k))
    decreases i.Avail()
  {
    var x := i.data[i.pos..];
    if |x| > 0 {
      var shifted := [LeftPair(x[0], 0, k), 0];
      var i1 := i.AfterRead(1);
      var o1 := o.AfterWrite(shifted[..1]);
      LShiftLoopByteChunks(i1, o1, shifted, k, errno);
      assert i1.data[i1.pos..] == x[1..];
      LShiftByteChunk(i, o, buf, k, errno);
    } else {
      assert LShiftLoop(i, o, buf, k, 2, errno).1 == o;
      assert o.AfterWrite([]) == o;
    }
  }

  /** The inductive step of `LShiftLoopByteChunks`: one byte, then the rest. */
  lemma LShiftByteChunk(i: InState, o: OutState, buf: seq<byte>, k: nat, errno: int)
    requires i.Valid() && |buf| == 2 && buf[1] == 0 && k < 8 && 0 < i.Avail() <= o.room
    requires var shifted := [LeftPair(i.data[i.pos], 0, k), 0];
      LShiftLoop(i.AfterRead(1), o.AfterWrite(shifted[..1]), shifted, k, 2, errno).1
        == o.AfterWrite(shifted[..1]).AfterWrite(ShiftBytesLeftAlone(i.data[i.pos + 1..], k))
    ensures LShiftLoop(i, o, buf, k, 2, errno).1 == o.AfterWrite(ShiftBytesLeftAlone(i.data[i.pos..], k))
  {
    var x := i.data[i.pos..];
    var shifted := [LeftPair(x[0], 0, k), 0];
    LShiftByteStep(i, o, buf, k, errno);
    var i1, o1 := i.AfterRead(1), o.AfterWrite(shifted[..1]);
    assert LShiftLoop(i, o, buf, k, 2, errno).1 == LShiftLoop(i1, o1, shifted, k, 2, errno).1;
    assert x[1..] == i.data[i.pos + 1..];
    AloneSplit(x, k);
    WritesCompose(o, shifted[..1], ShiftBytesLeftAlone(x[1..], k));
    assert shifted[..1] + ShiftBytesLeftAlone(x[1..], k) == ShiftBytesLeftAlone(x, k);
  }

  /** One one-byte chunk of `lshift`: the byte is shifted against the zero carry byte. */
  lemma LShiftByteStep(i: InState, o: OutState, buf: seq<byte>, k: nat, errno: int)
    requires i.Valid() && |buf| == 2 && buf[1] == 0 && k < 8 && 0 < i.Avail() <= o.room
    ensures var shifted := [LeftPair(i.data[i.pos], 0, k), 0];
      LShiftLoop(i, o, buf, k, 2, errno) == LShiftLoop(i.AfterRead(1), o.AfterWrite(shifted[..1]), shifted, k, 2, errno)
  {
    assert i.ReadBytes(1) == [i.data[i.pos]];
    assert LeftFill(i, buf, 2) == [i.data[i.pos], 0];
    assert LShiftBuf(LeftFill(i, buf, 2), 1, k) == [LeftPair(i.data[i.pos], 0, k), 0];
  }

  lemma AloneSplit(x: seq<byte>, k: nat)
    requires |x| > 0 && k < 8
    ensures ShiftBytesLeftAlone(x, k) == [LeftPair(x[0], 0, k)] + ShiftBytesLeftAlone(x[1..], k)
    ensures ShiftBytesRightAlone(x, k) == [RightPair(0, x[0], k)] + ShiftBytesRightAlone(x[1..], k)
  {
  }

  lemma RightFillOneByte(i: InState, buf: seq<byte>)
    requires i.Valid() && |buf| == 2 && 0 < i.Avail()
    ensures RightFill(i, buf, 2) == [buf[0], i.data[i.pos]]
  {
    assert i.ReadBytes(1) == [i.data[i.pos]];
  }

  /** The same for `rshift`: its carry byte `buf[0]` is never written. */
  lemma {:induction false} RShiftLoopByteChunks(i: InState, o: OutState, buf: seq<byte>, k: nat, errno: int)
    requires i.Valid() && |buf| == 2 && buf[0] == 0 && k < 8 && i.Avail() <= o.room
    ensures RShiftLoop(i, o, buf, k, 2, errno).1 == o.AfterWrite(ShiftBytesRightAlone(i.data[i.pos..], k))
    decreases i.Avail()
  {
    var x := i.data[i.pos..];
    if |x| > 0 {
      var shifted := [0, RightPair(0, x[0], k)];
      var i1 := i.AfterRead(1);
      var o1 := o.AfterWrite(shifted[1..2]);
      RShiftLoopByteChunks(i1, o1, shifted, k, errno);
      assert i1.data[i1.pos..] == x[1..];
      RShiftByteChunk(i, o, buf, k, errno);
    } else {
      assert RShiftLoop(i, o, buf, k, 2, errno).1 == o;
      assert o.AfterWrite([]) == o;
    }
  }

  /** The inductive step of `RShiftLoopByteChunks`: one byte, then the rest. */
  lemma RShiftByteChunk(i: InState, o: OutState, buf: seq<byte>, k: nat, errno: int)
    requires i.Valid() && |buf| == 2 && buf[0] == 0 && k < 8 && 0 < i.Avail() <= o.room
    requires var shifted := [0, RightPair(0, i.data[i.pos], k)];
      RShiftLoop(i.AfterRead(1), o.AfterWrite(shifted[1..2]), shifted, k, 2, errno).1
        == o.AfterWrite(shifted[1..2]).AfterWrite(ShiftBytesRightAlone(i.data[i.pos + 1..], k))
    ensures RShiftLoop(i, o, buf, k, 2, errno).1 == o.AfterWrite(ShiftBytesRightAlone(i.data[i.pos..], k))
  {
    var x := i.data[i.pos..];
    var shifted := [0, RightPair(0, x[0], k)];
    RShiftByteStep(i, o, buf, k, errno);
    var i1, o1 := i.AfterRead(1), o.AfterWrite(shifted[1..2]);
    assert RShiftLoop(i, o, buf, k, 2, errno).1 == RShiftLoop(i1, o1, shifted, k, 2, errno).1;
    assert x[1..] == i.data[i.pos + 1..];
    AloneSplit(x, k);
    WritesCompose(o, shifted[1..2], ShiftBytesRightAlone(x[1..], k));
    assert shifted[1..2] + ShiftBytesRightAlone(x[1..], k) == ShiftBytesRightAlone(x, k);
  }

  /** One one-byte chunk of `rshift`: the byte is shifted against the zero carry byte. */
  lemma RShiftByteStep(i: InState, o: OutState, buf: seq<byte>, k: nat, errno: int)
    requires i.Valid() && |buf| == 2 && buf[0] == 0 && k < 8 && 0 < i.Avail() <= o.room
    ensures var shifted := [0, RightPair(0, i.data[i.pos], k)];
      RShiftLoop(i, o, buf, k, 2, errno) == RShiftLoop(i.AfterRead(1), o.AfterWrite(shifted[1..2]), shifted, k, 2, errno)
  {
    RightFillOneByte(i, buf);
    assert RShiftBuf(RightFill(i, buf, 2), 1, k) == [0, RightPair(0, i.data[i.pos], k)];
  }

  /**
   * With a two-byte buffer and a shift of fewer than 8 bits, `lshift`
   * shifts every input byte on its own.
   */
  lemma LShiftByteChunks(i: InState, o: OutState, k: nat, errno: int)
    requires i.Valid() && !i.failing && k < 8 && i.Avail() <= o.room
    ensures LShiftSpec(i, o, k, false, 2, errno).1.data == o.data + ShiftBytesLeftAlone(i.data[i.pos..], k)
  {
    assert k / 8 == 0 && k % 8 == k;
    assert Skipped(i, 0, false) == i;
    var run := LShiftLoop(i, o, Zeros(2), k, 2, errno);
    LShiftLoopOutcome(i, o, Zeros(2), k, 2, errno);
    assert run.2 == NoError;
    LShiftLoopByteChunks(i, o, Zeros(2), k, errno);
    LShiftAfterLoop(i, o, k, false, 2, errno);
    assert LShiftSpec(i, o, k, false, 2, errno).1 == run.1.AfterWrite(Zeros(0));
    assert run.1.AfterWrite(Zeros(0)) == run.1;
  }

  /** `80 80` shifted left by one bit in one-byte chunks gives `00 00`
      instead of `01 00`. */
  lemma LShiftLosesCarry(i: InState, o: OutState)
    requires i == InState([0x80, 0x80], 0, false, false, false, false) && o == OutState([], 2)
    ensures LShiftSpec(i, o, 1, false, 2, 0).1.data == [0x00, 0x00]
    ensures ShiftLeftBytes(i.data, 1) == [0x01, 0x00]
  {
    var x := i.data;
    LShiftByteChunks(i, o, 1, 0);
    assert x[i.pos..] == x;
    PairValues();
    TwoBytes(ShiftBytesLeftAlone(x, 1), 0x00, 0x00);
    LeftBytesAt(x, 1, 0x80, 0x80);
    TwoBytes(ShiftLeftBytes(x, 1), 0x01, 0x00);
  }

  /** The first two bytes of `x`, shifted left by `k < 8` bits as one bit string. */
  lemma LeftBytesAt(x: seq<byte>, k: nat, a: byte, b: byte)
    requires k < 8 && |x| == 2 && x[0] == a && x[1] == b
    ensures ShiftLeftBytes(x, k)[0] == LeftPair(a, b, k) && ShiftLeftBytes(x, k)[1] == LeftPair(b, 0, k)
  {
    assert k / 8 == 0 && k % 8 == k;
    assert ByteAt(x, 0) == a && ByteAt(x, 1) == b && ByteAt(x, 2) == 0;
  }

  lemma TwoBytes(s: seq<byte>, b0: byte, b1: byte)
    requires |s| == 2 && s[0] == b0 && s[1] == b1
    ensures s == [b0, b1]
  {
  }

  /** `01 00` shifted right by one bit in one-byte chunks gives `00 00`
      instead of `00 80`. */
  lemma RShiftLosesCarry(i: InState, o: OutState)
    requires i == InState([0x01, 0x00], 0, false, false, false, false) && o == OutState([], 2)
    ensures RShiftSpec(i, o, 1, 2, 0).1.data == [0x00, 0x00]
    ensures ShiftRightBytes(i.data, 1) == [0x00, 0x80]
  {
    RShiftByteChunks(i, o, 1, 0);
    assert i.data[i.pos..] == i.data;
    PairValues();
    TwoBytes(ShiftBytesRightAlone(i.data, 1), 0x00, 0x00);
    assert ByteAt(i.data, -1) == 0 && ByteAt(i.data, 0) == 0x01 && ByteAt(i.data, 1) == 0x00;
    TwoBytes(ShiftRightBytes(i.data, 1), 0x00, 0x80);
  }

  /**
   * With a two-byte buffer and a shift of fewer than 8 bits, `rshift`
   * shifts every input byte on its own.
   */
  lemma RShiftByteChunks(i: InState, o: OutState, k: nat, errno: int)
    requires i.Valid() && k < 8 && i.Avail() <= o.room
    ensures RShiftSpec(i, o, k, 2, errno).1.data == o.data + ShiftBytesRightAlone(i.data[i.pos..], k)
  {
    assert o.AfterWrite(Zeros(0)) == o;
    assert RShiftSpec(i, o, k, 2, errno) == RShiftLoop(i, o, Zeros(2), k, 2, errno);
    RShiftLoopByteChunks(i, o, Zeros(2), k, errno);
  }

  lemma PairValues()
    ensures LeftPair(0x80, 0, 1) == 0x00 && LeftPair(0x80, 0x80, 1) == 0x01
    ensures RightPair(0, 0x01, 1) == 0x00 && RightPair(0, 0x00, 1) == 0x00 && RightPair(0x01, 0x00, 1) == 0x80
  {
  }

  /** Shifting one byte left by two whole bytes writes two zero bytes: more
      than the input holds. */
  lemma LShiftPadsPastInput(i: InState, o: OutState)
    requires i == InState([0xAA], 0, false, false, false, false) && o == OutState([], 4)
    ensures |LShiftSpec(i, o, 16, false, 2, 0).1.data| == 2
    ensures ShiftLeftBytes(i.data, 16) == [0x00]
  {
    LShiftOutcome(i, o, 16, false, 2, 0);
    ShiftLeftByBytes(i.data, 16);
    assert |i.data[1..]| == 0 && Zeros(1) == [0x00];
  }

  // The lost carry, for every buffer size

  /** The loop of `lshift` only appends to the output. */
  lemma {:induction false} LShiftLoopExtends(i: InState, o: OutState, buf: seq<byte>, k: nat, bufSize: BufSize, errno: int)
    requires i.Valid() && |buf| == bufSize && k < 8
    ensures o.data <= LShiftLoop(i, o, buf, k, bufSize, errno).1.data
    decreases i.Avail()
  {
    var n := i.ReadCount(bufSize - 1);
    if n > 0 && o.WriteCount(n) == n {
      var shifted := LShiftBuf(LeftFill(i, buf, bufSize), n, k);
      LShiftLoopExtends(i.AfterRead(bufSize - 1), o.AfterWrite(shifted[..n]), shifted, k, bufSize, errno);
    }
  }

  /** The loop of `rshift` only appends: every byte already written stays. */
  lemma {:induction false} RShiftLoopKeeps(i: InState, o: OutState, buf: seq<byte>, k: nat, bufSize: BufSize, errno: int, j: nat)
    requires i.Valid() && |buf| == bufSize && k < 8 && j < |o.data|
    ensures var r := RShiftLoop(i, o, buf, k, bufSize, errno).1.data; j < |r| && r[j] == o.data[j]
    decreases i.Avail()
  {
    var n := i.ReadCount(bufSize - 1);
    if n > 0 && o.WriteCount(n) == n {
      var shifted := RShiftBuf(RightFill(i, buf, bufSize), n, k);
      RShiftLoopKeeps(i.AfterRead(bufSize - 1), o.AfterWrite(shifted[1..1 + n]), shifted, k, bufSize, errno, j);
    }
  }

  /** A pass of the `lshift` loop whose bytes all reach the device goes on with the rest. */
  lemma LShiftLoopStep(i: InState, o: OutState, buf: seq<byte>, k: nat, bufSize: BufSize, errno: int)
    requires i.Valid() && |buf| == bufSize && k < 8 && 0 < i.ReadCount(bufSize - 1) <= o.room
    ensures var n := i.ReadCount(bufSize - 1);
      var shifted := LShiftBuf(LeftFill(i, buf, bufSize), n, k);
      LShiftLoop(i, o, buf, k, bufSize, errno)
        == LShiftLoop(i.AfterRead(bufSize - 1), o.AfterWrite(shifted[..n]), shifted, k, bufSize, errno)
  {
  }

  /** A full `fread` into the front of the buffer leaves its last place alone. */
  lemma LeftFillEnd(i: InState, buf: seq<byte>, bufSize: BufSize)
    requires i.Valid() && |buf| == bufSize && bufSize - 1 <= i.Avail()
    ensures LeftFill(i, buf, bufSize)[bufSize - 2] == i.data[i.pos + bufSize - 2]
    ensures LeftFill(i, buf, bufSize)[bufSize - 1] == buf[bufSize - 1]
  {
    assert i.ReadBytes(bufSize - 1) == i.data[i.pos..i.pos + bufSize - 1];
  }

  /** `fread` after the first place of the buffer leaves that place alone. */
  lemma RightFillStart(i: InState, buf: seq<byte>, bufSize: BufSize)
    requires i.Valid() && |buf| == bufSize && 0 < i.Avail()
    ensures RightFill(i, buf, bufSize)[0] == buf[0]
    ensures RightFill(i, buf, bufSize)[1] == i.data[i.pos]
  {
    assert i.ReadBytes(bufSize - 1)[0] == i.data[i.pos];
  }

  /**
   * When the input fills a first chunk and has more, the loop of `lshift`
   * writes the last byte of that chunk shifted against the zero byte after
   * it, which `fread` never overwrites.
   */
  lemma LShiftLoopChunkEnd(i: InState, o: OutState, k: nat, bufSize: BufSize, errno: int)
    requires i.Valid() && k < 8 && bufSize - 1 < i.Avail() && bufSize - 1 <= o.room
    ensures var x, r := i.data[i.pos..], LShiftLoop(i, o, Zeros(bufSize), k, bufSize, errno).1.data;
      |o.data| + bufSize - 1 <= |r| && r[|o.data| + bufSize - 2] == LeftPair(x[bufSize - 2], 0, k)
  {
    var n := bufSize - 1;
    LeftFillEnd(i, Zeros(bufSize), bufSize);
    var shifted := LShiftBuf(LeftFill(i, Zeros(bufSize), bufSize), n, k);
    assert shifted[n - 1] == LeftPair(i.data[i.pos + n - 1], 0, k);
    LShiftLoopStep(i, o, Zeros(bufSize), k, bufSize, errno);
    var o1 := o.AfterWrite(shifted[..n]);
    assert o1.data == o.data + shifted[..n];
    LShiftLoopExtends(i.AfterRead(n), o1, shifted, k, bufSize, errno);
  }

  /**
   * So for every buffer size, `lshift` by `k < 8` bits writes the last byte
   * of the first full chunk as if the input byte after it were 0, where
   * the whole-stream shift takes that byte's top `k` bits.
   */
  lemma LShiftChunkEndLosesCarry(i: InState, o: OutState, k: nat, statFails: bool, bufSize: BufSize, errno: int)
    requires i.Valid() && k < 8 && bufSize - 1 < i.Avail() && bufSize - 1 <= o.room
    ensures var x, r := i.data[i.pos..], LShiftSpec(i, o, k, statFails, bufSize, errno).1.data;
      && |o.data| + bufSize - 1 <= |r|
      && r[|o.data| + bufSize - 2] == LeftPair(x[bufSize - 2], 0, k)
      && ShiftLeftBytes(x, k)[bufSize - 2] == LeftPair(x[bufSize - 2], x[bufSize - 1], k)
  {
    var x := i.data[i.pos..];
    assert k / 8 == 0 && k % 8 == k;
    var i1 := Skipped(i, 0, statFails);
    assert i1.data[i1.pos..] == x;
    LShiftLoopChunkEnd(i1, o, k, bufSize, errno);
    var run := LShiftLoop(i1, o, Zeros(bufSize), k, bufSize, errno);
    assert run.1.AfterWrite(Zeros(0)) == run.1;
    assert LShiftSpec(i, o, k, statFails, bufSize, errno).1 == run.1;
    assert ByteAt(x, bufSize - 2) == x[bufSize - 2] && ByteAt(x, bufSize - 1) == x[bufSize - 1];
  }

  /**
   * From any point of the `rshift` loop where `buf[0]` is 0, the next byte
   * written is the next input byte shifted against 0.
   */
  lemma RShiftLoopZeroCarry(i: InState, o: OutState, buf: seq<byte>, k: nat, bufSize: BufSize, errno: int)
    requires i.Valid() && |buf| == bufSize && buf[0] == 0 && k < 8 && 0 < i.Avail() && 1 <= o.room
    ensures var r := RShiftLoop(i, o, buf, k, bufSize, errno).1.data;
      |o.data| < |r| && r[|o.data|] == RightPair(0, i.data[i.pos], k)
  {
    var n := i.ReadCount(bufSize - 1);
    RightFillStart(i, buf, bufSize);
    var shifted := RShiftBuf(RightFill(i, buf, bufSize), n, k);
    var o1 := o.AfterWrite(shifted[1..1 + n]);
    assert o1.data[|o.data|] == shifted[1];
    if o.WriteCount(n) == n {
      RShiftLoopKeeps(i.AfterRead(bufSize - 1), o1, shifted, k, bufSize, errno, |o.data|);
    }
  }

  /**
   * After a full chunk, the loop of `rshift` goes on with the next input byte
   * from a buffer whose first place is still 0, where a shift of the whole
   * stream needs the chunk's last byte; so, by `RShiftLoopZeroCarry`, the
   * first byte of every later chunk loses the low bits of the byte before it.
   */
  lemma RShiftLoopFullChunk(i: InState, o: OutState, buf: seq<byte>, k: nat, bufSize: BufSize, errno: int)
    requires i.Valid() && |buf| == bufSize && buf[0] == 0 && k < 8 && bufSize - 1 < i.Avail() && bufSize <= o.room
    ensures var n := i.ReadCount(bufSize - 1);
      var shifted := RShiftBuf(RightFill(i, buf, bufSize), n, k);
      var i1, o1 := i.AfterRead(bufSize - 1), o.AfterWrite(shifted[1..1 + n]);
      && RShiftLoop(i, o, buf, k, bufSize, errno) == RShiftLoop(i1, o1, shifted, k, bufSize, errno)
      && |shifted| == bufSize && shifted[0] == 0 && i1.Valid() && 0 < i1.Avail() && 1 <= o1.room
      && |o1.data| == |o.data| + bufSize - 1 && i1.data[i1.pos] == i.data[i.pos + bufSize - 1]
  {
    var n := i.ReadCount(bufSize - 1);
    assert n == bufSize - 1 && o.WriteCount(n) == n;
    var i1 := i.AfterRead(bufSize - 1);
    assert i1.data == i.data && i1.pos == i.pos + n;
  }

  // Carrying across chunk boundaries

  /**
   * A chunked left shift that carries: each chunk of `c` bytes is shifted in
   * a buffer that also holds the first byte of the next chunk (a zero after
   * the last chunk), instead of a byte that is never refilled.
   */
  function LShiftCarried(x: seq<byte>, k: nat, c: nat): (r: seq<byte>)
    requires 1 <= c && k < 8
    decreases |x|
  {
    if |x| <= c then LShiftBuf(x + [0], |x|, k)[..|x|]
    else LShiftBuf(x[..c + 1], c, k)[..c] + LShiftCarried(x[c..], k, c)
  }

  /**
   * A chunked right shift that carries: each chunk is shifted in a buffer
   * whose first place holds the last byte of the chunk before it (`prev`,
   * zero before the first chunk), instead of a byte that stays zero.
   */
  function RShiftCarried(prev: byte, x: seq<byte>, k: nat, c: nat): (r: seq<byte>)
    requires 1 <= c && k < 8
    decreases |x|
  {
    if |x| <= c then RShiftBuf([prev] + x, |x|, k)[1..]
    else RShiftBuf([prev] + x[..c], c, k)[1..] + RShiftCarried(x[c - 1], x[c..], k, c)
  }

  /** One chunk of the carrying left shift followed by the shift of the rest
      is the shift of the whole. */
  lemma LeftSplitAt(x: seq<byte>, c: nat, k: nat)
    requires 1 <= c < |x| && k < 8
    ensures ShiftLeftBytes(x, k) == LShiftBuf(x[..c + 1], c, k)[..c] + ShiftLeftBytes(x[c..], k)
  {
    var head, rest := LShiftBuf(x[..c + 1], c, k)[..c], ShiftLeftBytes(x[c..], k);
    assert k / 8 == 0 && k % 8 == k;
    forall j | 0 <= j < |x|
      ensures ShiftLeftBytes(x, k)[j] == (head + rest)[j]
    {
      if j >= c {
        assert ByteAt(x[c..], j - c) == ByteAt(x, j) && ByteAt(x[c..], j - c + 1) == ByteAt(x, j + 1);
      }
    }
  }

  /** The carrying left shift computes the whole-stream shift for every
      chunk size. */
  lemma {:induction false} LShiftCarriedIsShift(x: seq<byte>, k: nat, c: nat)
    requires 1 <= c && k < 8
    ensures LShiftCarried(x, k, c) == ShiftLeftBytes(x, k)
    decreases |x|
  {
    if |x| <= c {
      LShiftBufHolding(x, [0], k);
    } else {
      LShiftCarriedIsShift(x[c..], k, c);
      LeftSplitAt(x, c, k);
    }
  }

  /** `x` shifted right with `prev` as the byte before it. */
  lemma RightSplitAt(prev: byte, x: seq<byte>, c: nat, k: nat)
    requires 1 <= c < |x| && k < 8
    ensures ShiftRightBytes([prev] + x, k)[1..]
         == RShiftBuf([prev] + x[..c], c, k)[1..] + ShiftRightBytes([x[c - 1]] + x[c..], k)[1..]
  {
    var whole, head := [prev] + x, RShiftBuf([prev] + x[..c], c, k)[1..];
    var tail := [x[c - 1]] + x[c..];
    var rest := ShiftRightBytes(tail, k)[1..];
    assert k / 8 == 0 && k % 8 == k;
    forall j | 0 <= j < |x|
      ensures ShiftRightBytes(whole, k)[j + 1] == (head + rest)[j]
    {
      if j >= c {
        assert ByteAt(tail, j - c) == ByteAt(whole, j) && ByteAt(tail, j - c + 1) == ByteAt(whole, j + 1);
      }
    }
  }

  /** The carrying right shift computes the whole-stream shift, with `prev`
      before the stream, for every chunk size. */
  lemma {:induction false} RShiftCarriedIsShift(prev: byte, x: seq<byte>, k: nat, c: nat)
    requires 1 <= c && k < 8
    ensures RShiftCarried(prev, x, k, c) == ShiftRightBytes([prev] + x, k)[1..]
    decreases |x|
  {
    if |x| <= c {
      var whole := [prev] + x;
      assert k / 8 == 0 && k % 8 == k;
      assert forall j :: 1 <= j <= |x| ==> RShiftBuf(whole, |x|, k)[j] == ShiftRightBytes(whole, k)[j];
    } else {
      RShiftCarriedIsShift(x[c - 1], x[c..], k, c);
      RightSplitAt(prev, x, c, k);
    }
  }

  /** A zero byte before the stream is what the whole-stream shift assumes. */
  lemma ZeroBefore(x: seq<byte>, k: nat)
    requires k < 8
    ensures ShiftRightBytes([0] + x, k)[1..] == ShiftRightBytes(x, k)
  {
    assert forall j :: 0 <= j < |x| ==> ByteAt([0] + x, j) == ByteAt(x, j - 1);
  }

  /**
   * `lshift` with both defects corrected: the chunks carry, and only as
   * many zero bytes are appended as bytes were skipped.
   */
  function CorrectedLShift(x: seq<byte>, amount: nat, c: nat): seq<byte>
    requires 1 <= c
  {
    var s := Min(amount / 8, |x|);
    LShiftCarried(x[s..], amount % 8, c) + Zeros(s)
  }

  /** `rshift` with carrying chunks, keeping the input's length. */
  function CorrectedRShift(x: seq<byte>, amount: nat, c: nat): seq<byte>
    requires 1 <= c
  {
    var s := Min(amount / 8, |x|);
    Zeros(s) + RShiftCarried(0, x[..|x| - s], amount % 8, c)
  }

  /** The corrected `lshift` is the whole-stream left shift, of the input's
      length, whatever the chunk size and the amount. */
  lemma CorrectedLShiftIsShift(x: seq<byte>, amount: nat, c: nat)
    requires 1 <= c
    ensures CorrectedLShift(x, amount, c) == ShiftLeftBytes(x, amount)
  {
    var s := Min(amount / 8, |x|);
    LShiftCarriedIsShift(x[s..], amount % 8, c);
    ShiftLeftByBytes(x, amount);
  }

  /** The corrected `rshift` is the whole-stream right shift, of the input's
      length, whatever the chunk size and the amount. */
  lemma CorrectedRShiftIsShift(x: seq<byte>, amount: nat, c: nat)
    requires 1 <= c
    ensures CorrectedRShift(x, amount, c) == ShiftRightBytes(x, amount)
  {
    var s := Min(amount / 8, |x|);
    RShiftCarriedIsShift(0, x[..|x| - s], amount % 8, c);
    ZeroBefore(x[..|x| - s], amount % 8);
    ShiftRightByBytes(x, amount);
  }
}
