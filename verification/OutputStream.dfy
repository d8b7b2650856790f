/** pb_ostream_t: a writer into a buffer with a size limit, or a sizing stream that only counts. */
module OutputStreams {
  import opened Wire
  import opened Options

  /** What a stream object and its buffer hold at one moment. */
  datatype Snapshot = Snapshot(buf: bytes, state: nat, bytesWritten: nat)

  /** b with e written at position `at`. */
  function Splice(b: bytes, at: nat, e: bytes): (r: bytes)
    requires at + |e| <= |b|
    ensures |r| == |b|
  {
    b[..at] + e + b[at + |e|..]
  }

  predicate Sound(sizing: bool, maxSize: nat, s: Snapshot) {
    !sizing ==> s.bytesWritten <= maxSize && s.state + (maxSize - s.bytesWritten) <= |s.buf|
  }

  predicate Fits(sizing: bool, maxSize: nat, s: Snapshot, n: nat) {
    sizing || s.bytesWritten + n <= maxSize
  }

  /** Effect of an encoding step that wants to emit e: it succeeds exactly when e exists and fits the limit,
      then exactly e is appended; when it fails, nothing outside the stream's window has changed. */
  predicate Wrote(sizing: bool, maxSize: nat, s: Snapshot, t: Snapshot, e: Option<bytes>, ok: bool)
    requires Sound(sizing, maxSize, s)
  {
    && Sound(sizing, maxSize, t) && |t.buf| == |s.buf|
    && ok == (e.Some? && Fits(sizing, maxSize, s, |e.value|))
    && (ok ==> t == if sizing then s.(bytesWritten := s.bytesWritten + |e.value|)
                    else Snapshot(Splice(s.buf, s.state, e.value), s.state + |e.value|, s.bytesWritten + |e.value|))
    && (!ok ==> if sizing then t.buf == s.buf
                else
                  && t.buf[..s.state] == s.buf[..s.state]
                  && t.buf[s.state + maxSize - s.bytesWritten..] == s.buf[s.state + maxSize - s.bytesWritten..])
  }

  function Then(a: Option<bytes>, b: Option<bytes>): Option<bytes> {
    if a.Some? && b.Some? then Some(a.value + b.value) else None
  }

  /** Two steps in a row emit the concatenation. */
  lemma WroteThen(sizing: bool, maxSize: nat, s: Snapshot, t: Snapshot, u: Snapshot, a: Option<bytes>, b: Option<bytes>,
                  ok: bool)
    requires Sound(sizing, maxSize, s) && Wrote(sizing, maxSize, s, t, a, true) && Wrote(sizing, maxSize, t, u, b, ok)
    ensures Wrote(sizing, maxSize, s, u, Then(a, b), ok)
  {
    if !sizing {
      if ok {
        SpliceTwice(s.buf, s.state, a.value, b.value);
      } else {
        assert u.buf[..s.state] == u.buf[..t.state][..s.state];
        assert t.buf[..s.state] == t.buf[..t.state][..s.state] == s.buf[..s.state];
        assert t.state + maxSize - t.bytesWritten == s.state + maxSize - s.bytesWritten;
        SpliceTail(s.buf, s.state, a.value, s.state + maxSize - s.bytesWritten);
      }
    }
  }

  lemma SpliceTwice(b: bytes, at: nat, x: bytes, y: bytes)
    requires at + |x| + |y| <= |b|
    ensures Splice(Splice(b, at, x), at + |x|, y) == Splice(b, at, x + y)
  {
  }

  lemma SpliceTail(b: bytes, at: nat, x: bytes, n: nat)
    requires at + |x| <= n <= |b|
    ensures Splice(b, at, x)[n..] == b[n..] && Splice(b, at, x)[..at] == b[..at]
  {
  }

  lemma OneMore(b: bytes, at: nat, data: bytes, i: nat)
    requires i < |data| && at + |data| <= |b|
    ensures Splice(b, at, data[..i + 1]) == Splice(b, at, data[..i])[at + i := data[i]]
  {
    assert data[..i + 1] == data[..i] + [data[i]];
  }

  /** A step that fails makes the whole sequence fail. */
  lemma WroteFails(sizing: bool, maxSize: nat, s: Snapshot, t: Snapshot, a: Option<bytes>, b: Option<bytes>)
    requires Sound(sizing, maxSize, s) && Wrote(sizing, maxSize, s, t, a, false)
    ensures Wrote(sizing, maxSize, s, t, Then(a, b), false)
  {
  }

  lemma WroteNothing(sizing: bool, maxSize: nat, s: Snapshot)
    requires Sound(sizing, maxSize, s)
    ensures Wrote(sizing, maxSize, s, s, Some([]), true)
  {
    if !sizing { assert Splice(s.buf, s.state, []) == s.buf; }
  }

  /** The same output on a fresh sizing stream and on a buffer of n bytes: the buffer accepts it exactly when the
      measured size fits, the counts are then equal, and in every case nothing outside the n bytes changes. */
  lemma SizingAgrees(n: nat, m0: Snapshot, m1: Snapshot, measured: bool, s: Snapshot, t: Snapshot, written: bool,
                     e: Option<bytes>)
    requires m0.bytesWritten == 0 && Wrote(true, 0, m0, m1, e, measured)
    requires s.bytesWritten == 0 && Sound(false, n, s) && Wrote(false, n, s, t, e, written)
    ensures written <==> measured && m1.bytesWritten <= n
    ensures written ==> t.bytesWritten == m1.bytesWritten && t.state == s.state + m1.bytesWritten
    ensures |t.buf| == |s.buf| && t.buf[..s.state] == s.buf[..s.state] && t.buf[s.state + n..] == s.buf[s.state + n..]
  {
    if written { SpliceTail(s.buf, s.state, e.value, s.state + n); }
  }

  class OutputStream {
    const buf: array<byte>
    const sizing: bool      // no callback: only count
    const maxSize: nat
    var state: nat
    var bytesWritten: nat

    ghost predicate Valid()
      reads this, buf
    {
      Sound(sizing, maxSize, Now())
    }

    ghost function Now(): Snapshot
      reads this, buf
    {
      Snapshot(buf[..], state, bytesWritten)
    }

    /** pb_ostream_from_buffer, and the limited substream of pb_encode_submessage. */
    constructor (buf: array<byte>, state: nat, maxSize: nat)
      requires state + maxSize <= buf.Length
      ensures this.buf == buf && !sizing && this.maxSize == maxSize && this.state == state && bytesWritten == 0
      ensures Valid()
    {
      this.buf := buf;
      this.sizing := false;
      this.maxSize := maxSize;
      this.state := state;
      this.bytesWritten := 0;
    }

    /** PB_OSTREAM_SIZING. */
    constructor Sizing()
      ensures sizing && bytesWritten == 0 && fresh(buf) && Valid()
    {
      buf := new byte[0];
      sizing := true;
      maxSize := 0;
      state := 0;
      bytesWritten := 0;
    }

    /** buf_write. */
    method BufWrite(data: bytes)
      requires state + |data| <= buf.Length
      modifies this`state, buf
      ensures state == old(state) + |data| && buf[..] == Splice(old(buf[..]), old(state), data)
    {
      var dest := state;
      state := dest + |data|;
      for i := 0 to |data|
        invariant state == dest + |data| && buf[..] == Splice(old(buf[..]), dest, data[..i])
      {
        buf[dest + i] := data[i];
        OneMore(old(buf[..]), dest, data, i);
      }
      assert data[..|data|] == data;
    }

    /** pb_write. */
    method Write(data: bytes) returns (ok: bool)
      requires Valid()
      modifies this, buf
      ensures Valid() && Wrote(sizing, maxSize, old(Now()), Now(), Some(data), ok)
    {
      if |data| > 0 && !sizing {
        if bytesWritten + |data| > maxSize {
          return false;
        }
        BufWrite(data);
      } else if !sizing {
        assert Splice(buf[..], state, data) == buf[..];
      }
      bytesWritten := bytesWritten + |data|;
      return true;
    }

    /** pb_write without data, which only a sizing stream is given. */
    method Count(n: nat)
      requires Valid() && sizing
      modifies this
      ensures Valid() && Now() == old(Now()).(bytesWritten := old(bytesWritten) + n)
    {
      bytesWritten := bytesWritten + n;
    }
  }
}
