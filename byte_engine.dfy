/*
 * The byte form of src/bitwise.c: `bw_byte` and the operations built on it
 * (`or_byte`, `and_byte`, `xor_byte`, `not`).
 */
module ByteEngine {
  import opened Streams
  import opened BitwiseCore

  /**
   * What `bw_byte` does from the given stream values on, chunk by chunk:
   * read up to `bufSize` bytes; an empty read ends the run (with an input
   * error when the stream's error indicator is set); otherwise the mapped
   * chunk is written and a short write ends the run with an output error.
   */
  function ByteFormRun(i: InState, o: OutState, operand: byte, op: Operation, bufSize: BufSize, errno: int)
    : (InState, OutState, BwError)
    requires i.Valid()
    decreases i.Avail()
  {
    var read := i.ReadCount(bufSize);
    var i1 := i.AfterRead(bufSize);
    if read == 0 then
      (i1, o, if i1.err then CreateError(InputRead, errno) else NoError)
    else
      var chunk := MapByte(i.ReadBytes(bufSize), operand, op);
      var o1 := o.AfterWrite(chunk);
      if o.WriteCount(read) != read then (i1, o1, CreateError(OutputWrite, errno))
      else ByteFormRun(i1, o1, operand, op, bufSize, errno)
  }

  /**
   * The outcome of `bw_byte` does not depend on the chunk size: the output
   * receives the mapped input bytes as far as the device takes them; a device
   * that takes fewer than all of them gives an output error, and otherwise a
   * stream that ends in a read error gives an input error.  On success every
   * input byte has been consumed.
   */
  lemma {:induction false} ByteFormOutcome(i: InState, o: OutState, operand: byte, op: Operation, bufSize: BufSize, errno: int)
    requires i.Valid()
    ensures ByteFormRun(i, o, operand, op, bufSize, errno).1 == o.AfterWrite(MapByte(i.data[i.pos..], operand, op))
    ensures ByteFormRun(i, o, operand, op, bufSize, errno).2
         == CreateError(if o.room < i.Avail() then OutputWrite else if i.failing then InputRead else None, errno)
    ensures var i' := ByteFormRun(i, o, operand, op, bufSize, errno).0;
      i'.Valid() && i'.data == i.data && (o.room >= i.Avail() && !i.failing ==> i'.pos == |i.data|)
    decreases i.Avail()
  {
    var read := i.ReadCount(bufSize);
    var i1 := i.AfterRead(bufSize);
    var x := i.data[i.pos..];
    if read != 0 {
      var bytes := i.ReadBytes(bufSize);
      var chunk := MapByte(bytes, operand, op);
      var o1 := o.AfterWrite(chunk);
      var rest := i1.data[i1.pos..];
      assert x == bytes + rest;
      MapByteSplit(bytes, rest, operand, op);
      WritesCompose(o, chunk, MapByte(rest, operand, op));
      if o.WriteCount(read) == read {
        ByteFormOutcome(i1, o1, operand, op, bufSize, errno);
      }
    }
  }

  /** Mapping distributes over concatenation. */
  lemma MapByteSplit(s: seq<byte>, t: seq<byte>, b: byte, op: Operation)
    ensures MapByte(s + t, b, op) == MapByte(s, b, op) + MapByte(t, b, op)
  {
    assert forall k :: 0 <= k < |s + t| ==> MapByte(s + t, b, op)[k] == (MapByte(s, b, op) + MapByte(t, b, op))[k];
  }

  /** The loop of `bw_byte` that applies the operation to `buf[0..read)` in place. */
  method MapInPlace(buf: array<byte>, read: nat, operand: byte, op: Operation)
    requires read <= buf.Length
    modifies buf
    ensures buf[..read] == MapByte(old(buf[..read]), operand, op)
    ensures buf[read..] == old(buf[read..])
  {
    for k := 0 to read
      invariant forall j :: 0 <= j < k ==> buf[j] == op(old(buf[j]), operand)
      invariant forall j :: k <= j < buf.Length ==> buf[j] == old(buf[j])
    {
      buf[k] := op(buf[k], operand);
    }
  }

  /** `bw_byte(input, output, operand, operation)` */
  method ByteForm(input: Input, output: Output, operand: byte, op: Operation, bufSize: BufSize, errno: int)
    returns (e: BwError)
    requires input.Valid()
    modifies input, output
    ensures input.Valid()
    ensures (input.State(), output.State(), e) == ByteFormRun(old(input.State()), old(output.State()), operand, op, bufSize, errno)
  {
    var buf := new byte[bufSize];
    while true
      invariant input.Valid()
      invariant ByteFormRun(input.State(), output.State(), operand, op, bufSize, errno)
             == ByteFormRun(old(input.State()), old(output.State()), operand, op, bufSize, errno)
      decreases input.State().Avail()
    {
      ghost var i0, o0 := input.State(), output.State();
      var read := input.Read(buf, 0, bufSize);
      if read == 0 {
        if input.err {
          return CreateError(InputRead, errno);
        } else {
          return NoError;
        }
      }
      assert buf[..read] == i0.ReadBytes(bufSize);
      MapInPlace(buf, read, operand, op);
      var written := output.Write(buf, 0, read);
      assert output.State() == o0.AfterWrite(MapByte(i0.ReadBytes(bufSize), operand, op));
      if written != read {
        return CreateError(OutputWrite, errno);
      }
    }
  }

  /** `or_byte` */
  method OrByte(input: Input, output: Output, operand: byte, bufSize: BufSize, errno: int) returns (e: BwError)
    requires input.Valid()
    modifies input, output
    ensures input.Valid()
    ensures (input.State(), output.State(), e) == ByteFormRun(old(input.State()), old(output.State()), operand, BwOr, bufSize, errno)
  {
    e := ByteForm(input, output, operand, BwOr, bufSize, errno);
  }

  /** `and_byte` */
  method AndByte(input: Input, output: Output, operand: byte, bufSize: BufSize, errno: int) returns (e: BwError)
    requires input.Valid()
    modifies input, output
    ensures input.Valid()
    ensures (input.State(), output.State(), e) == ByteFormRun(old(input.State()), old(output.State()), operand, BwAnd, bufSize, errno)
  {
    e := ByteForm(input, output, operand, BwAnd, bufSize, errno);
  }

  /** `xor_byte` */
  method XorByte(input: Input, output: Output, operand: byte, bufSize: BufSize, errno: int) returns (e: BwError)
    requires input.Valid()
    modifies input, output
    ensures input.Valid()
    ensures (input.State(), output.State(), e) == ByteFormRun(old(input.State()), old(output.State()), operand, BwXor, bufSize, errno)
  {
    e := ByteForm(input, output, operand, BwXor, bufSize, errno);
  }

  /** `not`: the byte form with `bw_not` and operand 0. */
  method Not(input: Input, output: Output, bufSize: BufSize, errno: int) returns (e: BwError)
    requires input.Valid()
    modifies input, output
    ensures input.Valid()
    ensures (input.State(), output.State(), e) == ByteFormRun(old(input.State()), old(output.State()), 0, BwNot, bufSize, errno)
  {
    e := ByteForm(input, output, 0, BwNot, bufSize, errno);
  }

  /** When `not` succeeds, the output is the complement of every input byte,
      and running it again over that output restores the input. */
  lemma NotOutput(i: InState, o: OutState, bufSize: BufSize, errno: int)
    requires i.Valid() && !i.failing && o.room >= |i.data| - i.pos
    ensures var (_, o', e) := ByteFormRun(i, o, 0, BwNot, bufSize, errno);
      var x := i.data[i.pos..];
      && e == NoError
      && |o'.data| == |o.data| + |x|
      && (forall k :: 0 <= k < |x| ==> o'.data[|o.data| + k] == !x[k])
      && MapByte(o'.data[|o.data|..], 0, BwNot) == x
  {
    ByteFormOutcome(i, o, 0, BwNot, bufSize, errno);
    var x := i.data[i.pos..];
    var o' := ByteFormRun(i, o, 0, BwNot, bufSize, errno).1;
    assert MapByte(x, 0, BwNot)[..|x|] == MapByte(x, 0, BwNot);
    assert o'.data == o.data + MapByte(x, 0, BwNot);
    assert o'.data[|o.data|..] == MapByte(x, 0, BwNot);
    NotTwice(x);
  }
}
