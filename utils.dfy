/*
 * The stream helpers of src/utils.c: skipping input and writing zero bytes.
 */
module Utils {
  import opened Streams

  /** Skipping `count` bytes from an exhausted point on: once a read has come
      up short, any longer read leaves the stream the same way. */
  lemma ExhaustedReadsAgree(s: InState, a: nat, b: nat)
    requires s.Valid() && s.Avail() < a && s.Avail() < b
    ensures s.AfterRead(a) == s.AfterRead(b)
  {
  }

  /** The stream after the seek branch of `fskip` has moved it `n` bytes on. */
  function SoughtForward(s: InState, n: nat): (r: InState)
    requires s.Valid() && n <= s.Avail()
    ensures r.Valid() && r.pos == s.pos + n && !r.eof
  {
    s.(pos := s.pos + n, eof := false)
  }

  /** The stream after `fskip(f, count)`: moved on by min(count, bytes
      left), by a seek or by reads. */
  function Skipped(s: InState, count: nat, statFails: bool): (r: InState)
    requires s.Valid()
    ensures r.Valid() && r.data == s.data && r.failing == s.failing
    ensures r.pos == s.pos + Min(count, s.Avail())
  {
    if statFails && s.seekable then SoughtForward(s, Min(count, s.Avail())) else s.AfterRead(count)
  }

  /**
   * `fskip(f, count)`.  `statFails` is whether `fstat` on the stream reports
   * failure.  The source takes the seek branch only when `fstat` FAILS (it
   * tests the return value as if non-zero meant success), and then uses the
   * size `fstat` did not fill in; this model gives that size its intended
   * value, the stream's length, so the branch skips min(count, size - pos).
   * The seek needs `ftell` and `fseek` to work, which they do exactly on
   * seekable streams.  Otherwise the bytes are read and discarded in chunks
   * of at most `bufSize`.
   */
  method Skip(f: Input, count: nat, statFails: bool, bufSize: BufSize) returns (total: nat)
    requires f.Valid()
    modifies f
    ensures f.Valid()
    ensures total == Min(count, old(f.State().Avail()))
    ensures f.State() == Skipped(old(f.State()), count, statFails)
  {
    if statFails {
      var pos := f.Tell();
      var seek := Min(count, |f.data| - f.pos);
      if pos != -1 {
        var ok := f.SeekForward(seek);
        if ok {
          return seek;
        }
      }
    }
    total := SkipByReading(f, count, bufSize);
  }

  /** The reading fallback of `fskip`: read and discard chunks of at most
      `bufSize` bytes until `count` are gone or a read delivers nothing. */
  method SkipByReading(f: Input, count: nat, bufSize: BufSize) returns (total: nat)
    requires f.Valid()
    modifies f
    ensures f.Valid()
    ensures total == Min(count, old(f.State().Avail()))
    ensures f.State() == old(f.State().AfterRead(count))
  {
    ghost var s0 := f.State();
    ghost var asked: nat := 0;
    var buf := new byte[bufSize];
    total := 0;
    while true
      invariant f.Valid() && f.State() == s0.AfterRead(asked)
      invariant total == s0.ReadCount(asked) && total <= count
      invariant asked == total || (total == s0.Avail() < count && total < asked)
      decreases count - total
    {
      var n := Min(bufSize, count - total);
      ReadsCompose(s0, asked, n);
      var read := f.Read(buf, 0, n);
      asked := asked + n;
      total := total + read;
      if !(total < count && read > 0) {
        if asked != count {
          ExhaustedReadsAgree(s0, asked, count);
        }
        return;
      }
    }
  }

  /** `n` zero bytes. */
  function Zeros(n: nat): seq<byte>
  {
    Repeat(0, n)
  }

  /** Writing zero bytes in two goes is writing them in one. */
  lemma ZeroWritesCompose(o: OutState, a: nat, b: nat)
    ensures o.WriteCount(a) + o.AfterWrite(Zeros(a)).WriteCount(b) == o.WriteCount(a + b)
    ensures o.AfterWrite(Zeros(a)).AfterWrite(Zeros(b)) == o.AfterWrite(Zeros(a + b))
  {
    assert Zeros(a) + Zeros(b) == Zeros(a + b);
    WritesCompose(o, Zeros(a), Zeros(b));
  }

  /** Once the device is full, asking for more zero bytes changes nothing. */
  lemma FullDeviceAgrees(o: OutState, a: nat, b: nat)
    requires o.room < a && o.room < b
    ensures o.AfterWrite(Zeros(a)) == o.AfterWrite(Zeros(b))
  {
    assert Zeros(a)[..o.room] == Zeros(b)[..o.room];
  }

  /**
   * `fzero(f, count)`: writes zero bytes from a zeroed buffer of `bufSize`
   * bytes, at most `bufSize` per call, until `count` have been written or a
   * write writes nothing.
   */
  method Zero(f: Output, count: nat, bufSize: BufSize) returns (total: nat)
    modifies f
    ensures total == Min(count, old(f.room))
    ensures total < count ==> old(f.room) < count
    ensures f.State() == old(f.State().AfterWrite(Zeros(count)))
  {
    ghost var o0 := f.State();
    ghost var asked: nat := 0;
    var buf := new byte[bufSize](_ => 0);
    total := 0;
    while true
      invariant f.State() == o0.AfterWrite(Zeros(asked))
      invariant total == o0.WriteCount(asked) && total <= count
      invariant asked == total || (total == o0.room < count && total < asked)
      invariant forall k :: 0 <= k < buf.Length ==> buf[k] == 0
      decreases count - total
    {
      var n := Min(bufSize, count - total);
      assert buf[0..n] == Zeros(n);
      ZeroWritesCompose(o0, asked, n);
      var written := f.Write(buf, 0, n);
      asked := asked + n;
      total := total + written;
      if !(total < count && written > 0) {
        if asked != count {
          FullDeviceAgrees(o0, asked, count);
        }
        return;
      }
    }
  }
}
