/*
 * A model of the C stdio streams the engine works on.
 *
 * An input stream is the sequence of bytes that can still be delivered by
 * `fread` before the stream ends, a position, and what lies at the end: either
 * end-of-file or a read error (`failing`).  A stream may or may not support
 * `fseek` back to its start.  The `eof` and `err` fields are the stream's
 * end-of-file and error indicators (`feof`, `ferror`).
 *
 * An output stream is the sequence of bytes written so far and the number of
 * bytes the device still accepts; `fwrite` writes as many of the requested
 * bytes as fit and reports that count.
 */
module Streams {

  /** The `byte` of the C sources: an 8-bit unsigned value. */
  type byte = bv8

  /** Chunk sizes of the fixed stack buffers (`BW_BUF_SIZE`, `BUF_SIZE`). */
  type BufSize = n: nat | 2 <= n witness 2

  function Min(a: nat, b: nat): nat { if a < b then a else b }

  /** `n` copies of the byte `b`. */
  function Repeat(b: byte, n: nat): (r: seq<byte>)
    ensures |r| == n
    ensures forall k :: 0 <= k < n ==> r[k] == b
  {
    if n == 0 then [] else Repeat(b, n - 1) + [b]
  }

  /** Value of an input stream. */
  datatype InState = InState(data: seq<byte>, pos: nat, failing: bool, seekable: bool, eof: bool, err: bool)
  {
    ghost predicate Valid() {
      && pos <= |data|
      && (eof ==> pos == |data| && !failing)
      && (err ==> failing)
    }

    /** Bytes `fread` can still deliver. */
    function Avail(): nat { if pos <= |data| then |data| - pos else 0 }

    /** The count `fread(buf, 1, n, f)` returns. */
    function ReadCount(n: nat): nat { Min(n, Avail()) }

    /** The bytes that count consists of. */
    function ReadBytes(n: nat): (r: seq<byte>)
      requires Valid()
      ensures |r| == ReadCount(n)
    {
      data[pos..pos + ReadCount(n)]
    }

    /** The stream after `fread(buf, 1, n, f)`: a short read sets the error
        indicator when the stream ends in an error and the end-of-file
        indicator otherwise. */
    function AfterRead(n: nat): (s: InState)
      requires Valid()
      ensures s.Valid()
      ensures s.data == data && s.failing == failing && s.seekable == seekable
      ensures s.pos == pos + ReadCount(n)
      ensures s.eof == (eof || (ReadCount(n) < n && !failing))
      ensures s.err == (err || (ReadCount(n) < n && failing))
    {
      var got := ReadCount(n);
      this.(pos := pos + got,
            eof := eof || (got < n && !failing),
            err := err || (got < n && failing))
    }

    /** The stream after a successful `fseek(f, 0, SEEK_SET)`, which also
        clears the end-of-file indicator. */
    function Rewound(): (s: InState)
      requires Valid()
      ensures s.Valid() && s.pos == 0 && !s.eof
      ensures s.data == data && s.failing == failing && s.seekable == seekable && s.err == err
    {
      this.(pos := 0, eof := false)
    }
  }

  /** Two reads in a row deliver what one read of both amounts delivers. */
  lemma ReadsCompose(s: InState, a: nat, b: nat)
    requires s.Valid()
    ensures s.ReadCount(a) + s.AfterRead(a).ReadCount(b) == s.ReadCount(a + b)
    ensures s.AfterRead(a).AfterRead(b) == s.AfterRead(a + b)
  {
  }

  /** Value of an output stream. */
  datatype OutState = OutState(data: seq<byte>, room: nat)
  {
    /** The count `fwrite(buf, 1, n, f)` returns. */
    function WriteCount(n: nat): nat { Min(n, room) }

    /** The stream after writing `bytes`: only the bytes that fit arrive. */
    function AfterWrite(bytes: seq<byte>): (s: OutState)
      ensures s.data == data + bytes[..WriteCount(|bytes|)]
      ensures s.room == room - WriteCount(|bytes|)
    {
      OutState(data + bytes[..WriteCount(|bytes|)], room - WriteCount(|bytes|))
    }
  }

  /** Two writes in a row leave the stream as one write of both byte
      sequences: once a write has come up short, nothing more arrives. */
  lemma WritesCompose(o: OutState, x: seq<byte>, y: seq<byte>)
    ensures o.WriteCount(|x|) + o.AfterWrite(x).WriteCount(|y|) == o.WriteCount(|x| + |y|)
    ensures o.AfterWrite(x).AfterWrite(y) == o.AfterWrite(x + y)
  {
    var w1 := o.WriteCount(|x|);
    var w2 := o.AfterWrite(x).WriteCount(|y|);
    if w1 < |x| {
      assert (x + y)[..w1] == x[..w1];
    } else {
      assert (x + y)[..w1 + w2] == x + y[..w2];
    }
  }

  class Input {
    const data: seq<byte>
    const failing: bool
    const seekable: bool
    var pos: nat
    var eof: bool
    var err: bool

    function State(): InState
      reads this
    {
      InState(data, pos, failing, seekable, eof, err)
    }

    ghost predicate Valid()
      reads this
    {
      State().Valid()
    }

    constructor (content: seq<byte>, endsInError: bool, canSeek: bool)
      ensures Valid() && State() == InState(content, 0, endsInError, canSeek, false, false)
    {
      data, failing, seekable := content, endsInError, canSeek;
      pos, eof, err := 0, false, false;
    }

    /** `fread(buf + off, 1, n, f)` */
    method Read(buf: array<byte>, off: nat, n: nat) returns (got: nat)
      requires Valid() && off + n <= buf.Length
      modifies this, buf
      ensures Valid()
      ensures got == old(State().ReadCount(n)) && State() == old(State().AfterRead(n))
      ensures buf[..] == old(buf[..off]) + old(State().ReadBytes(n)) + old(buf[off + got..])
    {
      got := Min(n, |data| - pos);
      forall k | off <= k < off + got {
        buf[k] := data[pos + k - off];
      }
      pos := pos + got;
      if got < n {
        if failing { err := true; } else { eof := true; }
      }
    }

    /** `ftell(f)`: the position, or -1 on a stream that cannot seek. */
    function Tell(): int
      reads this
    {
      if seekable then pos else -1
    }

    /** `fseek(f, n, SEEK_CUR)` to a point inside the data; returns whether
        it succeeded.  A successful seek clears the end-of-file indicator. */
    method SeekForward(n: nat) returns (ok: bool)
      requires Valid() && pos + n <= |data|
      modifies this
      ensures Valid()
      ensures ok == seekable
      ensures State() == if ok then old(State().(pos := pos + n, eof := false)) else old(State())
    {
      ok := seekable;
      if ok { pos, eof := pos + n, false; }
    }

    /** `fseek(f, 0, SEEK_SET)`; returns whether it succeeded. */
    method Rewind() returns (ok: bool)
      requires Valid()
      modifies this
      ensures Valid()
      ensures ok == seekable
      ensures State() == if ok then old(State().Rewound()) else old(State())
    {
      ok := seekable;
      if ok { pos, eof := 0, false; }
    }
  }

  class Output {
    var data: seq<byte>
    var room: nat

    function State(): OutState
      reads this
    {
      OutState(data, room)
    }

    constructor (capacity: nat)
      ensures State() == OutState([], capacity)
    {
      data, room := [], capacity;
    }

    /** `fwrite(buf + off, 1, n, f)` */
    method Write(buf: array<byte>, off: nat, n: nat) returns (written: nat)
      requires off + n <= buf.Length
      modifies this
      ensures written == old(State().WriteCount(n))
      ensures State() == old(State().AfterWrite(buf[off..off + n]))
    {
      written := Min(n, room);
      data := data + buf[off..off + written];
      room := room - written;
    }
  }
}
