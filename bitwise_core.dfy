/*
 * The types of src/bitwise.h and the per-byte operators and error
 * constructor of src/bitwise.c.
 */
module BitwiseCore {
  import opened Streams

  /** The `type` tag of `bw_error`, in the order of its C enum. */
  datatype ErrorType = None | InputRead | OutputWrite | OperandRead | OperandEof | OperandSeek

  /** `bw_error`: the tag and the `errno` captured when it was created. */
  datatype BwError = BwError(kind: ErrorType, errorNumber: int)

  /** `no_error` */
  const NoError := BwError(None, 0)

  /** `eof_mode`: what `_file` operations do when the operand runs out. */
  datatype EofMode = Error | Truncate | Loop | Zero | One

  /**
   * `create_error(type)`.  `errno` is the value of the C global `errno` at the
   * time of the call; it is recorded except for the two tags that are not
   * caused by a failing system call.
   */
  function CreateError(kind: ErrorType, errno: int): (e: BwError)
    ensures e.kind == kind
    ensures e.errorNumber == 0 <==> kind == None || kind == OperandEof || errno == 0
    ensures kind != None && kind != OperandEof ==> e.errorNumber == errno
  {
    var e := if kind == None || kind == OperandEof then 0 else errno;
    BwError(kind, e)
  }

  /** `bw_operation`: a function applied to an input byte and an operand byte. */
  type Operation = (byte, byte) -> byte

  function BwOr(a: byte, b: byte): byte { a | b }
  function BwAnd(a: byte, b: byte): byte { a & b }
  function BwXor(a: byte, b: byte): byte { a ^ b }
  /** `bw_not` ignores its second argument. */
  function BwNot(a: byte, ignored: byte): byte { !a }

  /** `op(s[k], b)` for every byte of `s`: the byte form of an operation. */
  function MapByte(s: seq<byte>, b: byte, op: Operation): (r: seq<byte>)
    ensures |r| == |s|
    ensures forall k {:trigger r[k]} :: 0 <= k < |s| ==> r[k] == op(s[k], b)
  {
    seq(|s|, k requires 0 <= k < |s| => op(s[k], b))
  }

  /** `op(s[k], t[k])` for every position both have. */
  function Combine(s: seq<byte>, t: seq<byte>, op: Operation): (r: seq<byte>)
    requires |s| == |t|
    ensures |r| == |s|
    ensures forall k {:trigger r[k]} :: 0 <= k < |s| ==> r[k] == op(s[k], t[k])
  {
    seq(|s|, k requires 0 <= k < |s| => op(s[k], t[k]))
  }

  /** XOR with a constant byte undoes itself. */
  lemma XorByteTwice(s: seq<byte>, b: byte)
    ensures MapByte(MapByte(s, b, BwXor), b, BwXor) == s
  {
    var once := MapByte(s, b, BwXor);
    forall k | 0 <= k < |s|
      ensures MapByte(once, b, BwXor)[k] == s[k]
    {
      assert once[k] == s[k] ^ b;
    }
  }

  /** NOT does not depend on the operand byte it is given. */
  lemma NotIgnoresOperand(s: seq<byte>, b: byte, c: byte)
    ensures MapByte(s, b, BwNot) == MapByte(s, c, BwNot)
  {
  }

  /** NOT applied twice gives the input back. */
  lemma NotTwice(s: seq<byte>)
    ensures MapByte(MapByte(s, 0, BwNot), 0, BwNot) == s
  {
    var once := MapByte(s, 0, BwNot);
    forall k | 0 <= k < |s|
      ensures MapByte(once, 0, BwNot)[k] == s[k]
    {
      assert once[k] == !s[k];
    }
  }

  /** OR with zero bytes and AND with all-one bytes leave the input as it is. */
  lemma FillBytesAreNeutral(s: seq<byte>, t: seq<byte>)
    requires |s| == |t|
    ensures (forall k :: 0 <= k < |t| ==> t[k] == 0) ==> Combine(s, t, BwOr) == s
    ensures (forall k :: 0 <= k < |t| ==> t[k] == 0xFF) ==> Combine(s, t, BwAnd) == s
  {
    if forall k :: 0 <= k < |t| ==> t[k] == 0 {
      assert forall k :: 0 <= k < |s| ==> Combine(s, t, BwOr)[k] == s[k] | 0;
    }
    if forall k :: 0 <= k < |t| ==> t[k] == 0xFF {
      assert forall k :: 0 <= k < |s| ==> Combine(s, t, BwAnd)[k] == s[k] & 0xFF;
    }
  }
}
