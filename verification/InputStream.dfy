/** pb_istream_t over a memory buffer: a read pointer and the number of bytes that may still be read.
    Substreams share the buffer; whatever succeeds leaves the end of the readable range where it was. */
module InputStreams {
  import opened Wire

  class InputStream {
    const data: bytes
    var state: nat
    var bytesLeft: nat

    ghost predicate Valid()
      reads this
    {
      state + bytesLeft <= |data|
    }

    /** The unread bytes. */
    ghost function Rest(): bytes
      reads this
      requires Valid()
    {
      data[state..state + bytesLeft]
    }

    ghost function End(): nat
      reads this
    {
      state + bytesLeft
    }

    /** pb_istream_from_buffer. */
    constructor (buf: bytes)
      ensures Valid() && data == buf && Rest() == buf && End() == |buf|
    {
      data := buf;
      state := 0;
      bytesLeft := |buf|;
    }

    /** A copy limited to `size` bytes. */
    constructor Limited(buf: bytes, state: nat, size: nat)
      requires state + size <= |buf|
      ensures Valid() && data == buf && this.state == state && bytesLeft == size
    {
      this.data := buf;
      this.state := state;
      this.bytesLeft := size;
    }

    /** buf_read: copy and advance. */
    method BufRead(count: nat) returns (buf: bytes)
      requires Valid() && count <= bytesLeft
      modifies this`state
      ensures state == old(state) + count && buf == old(Rest())[..count]
    {
      var source := state;
      state := state + count;
      buf := [];
      for i := 0 to count
        invariant buf == data[source..source + i]
      {
        buf := buf + [data[source + i]];
      }
    }

    /** pb_read. */
    method Read(count: nat) returns (ok: bool, buf: bytes)
      requires Valid()
      modifies this
      ensures End() <= old(End())
      ensures Valid() && ok == Take(old(Rest()), count).Ok?
      ensures ok ==> Take(old(Rest()), count) == Ok(buf, Rest()) && End() == old(End())
      ensures !ok ==> state == old(state) && bytesLeft == old(bytesLeft)
    {
      buf := [];
      if count == 0 {
        return true, buf;
      }
      if bytesLeft < count {
        return false, buf;
      }
      buf := BufRead(count);
      bytesLeft := bytesLeft - count;
      return true, buf;
    }

    /** pb_readbyte. */
    method ReadByte() returns (ok: bool, b: byte)
      requires Valid()
      modifies this
      ensures End() <= old(End())
      ensures Valid() && ok == (old(bytesLeft) > 0)
      ensures ok ==> old(Rest()) == [b] + Rest() && Rest() == old(Rest())[1..] && b == old(Rest())[0]
      ensures ok ==> End() == old(End()) && bytesLeft == old(bytesLeft) - 1
      ensures !ok ==> state == old(state) && bytesLeft == old(bytesLeft)
    {
      if bytesLeft == 0 {
        return false, 0;
      }
      b := data[state];
      state := state + 1;
      bytesLeft := bytesLeft - 1;
      return true, b;
    }

    /** pb_decode_varint32_eof. */
    method DecodeVarint32Eof() returns (ok: bool, dest: nat, eof: bool)
      requires Valid()
      modifies this
      ensures End() <= old(End())
      ensures Valid() && ok == DecVarint32(old(Rest())).Ok?
      ensures ok ==> DecVarint32(old(Rest())) == Ok(dest, Rest()) && End() == old(End())
      ensures eof == (old(bytesLeft) == 0)
    {
      dest := 0;
      eof := false;
      var b: byte;
      ok, b := ReadByte();
      if !ok {
        if bytesLeft == 0 { eof := true; }
        return;
      }
      if b < 0x80 {
        dest := b;
        return;
      }
      var bitpos: nat := 7;
      var result: nat := b % 0x80;
      var more := true;
      while more
        invariant Valid() && End() == old(End())
        invariant more ==> DecVarint32From(Rest(), bitpos, result) == DecVarint32(old(Rest()))
        invariant !more ==> DecVarint32(old(Rest())) == if bitpos == 35 && b / 16 % 8 != 0 then Err
                  else Ok(result, Rest())
        decreases more, bytesLeft
      {
        ok, b := ReadByte();
        if !ok { return; }
        if bitpos >= 32 {
          var signExtension := if bitpos < 63 then 0xFF else 0x01;
          if b % 0x80 != 0 && (result / TWO31 == 0 || b != signExtension) {
            ok := false;
            return;
          }
        } else {
          result := BitOr(result, Shl(b % 0x80, bitpos) % TWO32);
        }
        bitpos := (bitpos + 7) % 256;
        more := b >= 0x80;
      }
      if bitpos == 35 && b / 16 % 8 != 0 {
        ok := false;
        return;
      }
      dest := result;
    }

    /** pb_decode_varint. */
    method DecodeVarint() returns (ok: bool, dest: nat)
      requires Valid()
      modifies this
      ensures End() <= old(End())
      ensures Valid() && ok == DecVarint(old(Rest())).Ok?
      ensures ok ==> DecVarint(old(Rest())) == Ok(dest, Rest()) && End() == old(End())
    {
      dest := 0;
      ok := true;
      var bitpos: nat := 0;
      var result: nat := 0;
      var more := true;
      while more
        invariant Valid() && End() == old(End()) && ok && bitpos <= 70
        invariant more ==> DecVarintFrom(Rest(), bitpos, result) == DecVarint(old(Rest()))
        invariant !more ==> DecVarint(old(Rest())) == Ok(result, Rest())
        decreases more, bytesLeft
      {
        if bitpos >= 64 {
          ok := false;
          return;
        }
        var b: byte;
        ok, b := ReadByte();
        if !ok { return; }
        result := BitOr(result, Shl(b % 0x80, bitpos) % TWO64);
        bitpos := (bitpos + 7) % 256;
        more := b >= 0x80;
      }
      dest := result;
    }

    /** pb_decode_svarint. */
    method DecodeSVarint() returns (ok: bool, dest: int)
      requires Valid()
      modifies this
      ensures End() <= old(End())
      ensures Valid() && ok == DecVarint(old(Rest())).Ok?
      ensures ok ==> DecVarint(old(Rest())).rest == Rest() && End() == old(End())
      ensures ok ==> dest == UnZigZag(DecVarint(old(Rest())).value)
    {
      var value: nat;
      dest := 0;
      ok, value := DecodeVarint();
      if !ok { return; }
      if value % 2 == 1 {
        dest := ToSigned(TWO64 - 1 - value / 2, TWO63);
      } else {
        dest := ToSigned(value / 2, TWO63);
      }
    }

    /** pb_decode_fixed32 and pb_decode_fixed64: little-endian bytes. */
    method DecodeFixed(width: nat) returns (ok: bool, dest: nat)
      requires Valid()
      modifies this
      ensures End() <= old(End())
      ensures Valid() && ok == DecFixed(old(Rest()), width).Ok?
      ensures ok ==> DecFixed(old(Rest()), width) == Ok(dest, Rest()) && End() == old(End())
    {
      var buf: bytes;
      dest := 0;
      ok, buf := Read(width);
      if !ok { return; }
      var k := width;
      while k > 0
        invariant 0 <= k <= width == |buf| && dest == FromFixed(buf[k..])
      {
        k := k - 1;
        dest := buf[k] + 256 * dest;
        assert buf[k..][1..] == buf[k + 1..];
      }
      assert buf[0..] == buf;
    }

    /** pb_skip_varint. */
    method SkipVarintBytes() returns (ok: bool)
      requires Valid()
      modifies this
      ensures End() <= old(End())
      ensures Valid() && ok == SkipVarint(old(Rest())).Ok?
      ensures ok ==> SkipVarint(old(Rest())).rest == Rest() && End() == old(End())
    {
      var more := true;
      ok := true;
      while more
        invariant Valid() && End() == old(End()) && ok
        invariant more ==> SkipVarint(Rest()) == SkipVarint(old(Rest()))
        invariant !more ==> SkipVarint(old(Rest())) == Ok((), Rest())
        decreases more, bytesLeft
      {
        var buf: bytes;
        ok, buf := Read(1);
        if !ok { return; }
        more := buf[0] >= 0x80;
      }
    }

    /** pb_skip_string. */
    method SkipString() returns (ok: bool)
      requires Valid()
      modifies this
      ensures End() <= old(End())
      ensures Valid() && ok == TakeDelimited(old(Rest())).Ok?
      ensures ok ==> TakeDelimited(old(Rest())).rest == Rest() && End() == old(End())
    {
      var length: nat, eof: bool, buf: bytes;
      ok, length, eof := DecodeVarint32Eof();
      if !ok { return; }
      ok, buf := Read(length);
    }

    /** pb_decode_tag. A zero key ends the message like the end of the bytes does. */
    method DecodeTag() returns (ok: bool, wireType: nat, tag: nat, eof: bool)
      requires Valid()
      modifies this
      ensures End() <= old(End())
      ensures Valid()
      ensures ok ==>
              DecVarint32(old(Rest())) == Ok(8 * tag + wireType, Rest()) && 8 * tag + wireType != 0 && wireType < 8
      ensures ok ==> End() == old(End()) && !eof
      ensures !ok && eof && old(bytesLeft) > 0 ==> DecVarint32(old(Rest())) == Ok(0, Rest()) && End() == old(End())
      ensures !ok && !eof ==> DecVarint32(old(Rest())) == Err
    {
      wireType, tag := 0, 0;
      var temp: nat;
      ok, temp, eof := DecodeVarint32Eof();
      if !ok { return; }
      if temp == 0 {
        eof := true;
        ok := false;
        return;
      }
      tag := temp / 8;
      wireType := temp % 8;
    }

    /** pb_skip_field. */
    method SkipField(wireType: nat) returns (ok: bool)
      requires Valid()
      modifies this
      ensures End() <= old(End())
      ensures Valid() && ok == SkipPayload(old(Rest()), wireType).Ok?
      ensures ok ==> SkipPayload(old(Rest()), wireType).rest == Rest() && End() == old(End())
    {
      var buf: bytes;
      if wireType == WT_VARINT { ok := SkipVarintBytes(); }
      else if wireType == WT_64BIT { ok, buf := Read(8); }
      else if wireType == WT_STRING { ok := SkipString(); }
      else if wireType == WT_32BIT { ok, buf := Read(4); }
      else { ok := false; }
    }

    /** pb_make_string_substream: the parent gives up the bytes but its pointer stays until the substream
        is closed. */
    method MakeStringSubstream() returns (ok: bool, sub: InputStream)
      requires Valid()
      modifies this
      ensures End() <= old(End())
      ensures Valid() && fresh(sub) && sub.Valid() && sub.data == data
      ensures ok == TakeDelimited(old(Rest())).Ok?
      ensures ok ==> state == sub.state && sub.End() <= old(End()) && bytesLeft == old(End()) - sub.End()
      ensures ok ==> TakeDelimited(old(Rest())) == Ok(sub.Rest(), data[sub.End()..old(End())])
    {
      var size: nat, eof: bool;
      ok, size, eof := DecodeVarint32Eof();
      if !ok {
        sub := new InputStream(data);
        return;
      }
      if bytesLeft < size {
        ok := false;
        sub := new InputStream(data);
        return;
      }
      sub := new InputStream.Limited(data, state, size);
      assert Rest()[..size] == sub.Rest();
      assert Rest()[size..] == data[sub.End()..old(End())];
      bytesLeft := bytesLeft - size;
    }

    /** pb_close_string_substream: skip what the nested reader left and move the parent behind it. */
    method CloseStringSubstream(sub: InputStream) returns (ok: bool)
      requires Valid() && sub != this && sub.Valid() && sub.data == data && sub.End() + bytesLeft <= |data|
      modifies this, sub
      ensures ok && Valid() && bytesLeft == old(bytesLeft) && state == old(sub.End())
    {
      if sub.bytesLeft != 0 {
        var buf: bytes;
        ok, buf := sub.Read(sub.bytesLeft);
        if !ok { return false; }
      }
      state := sub.state;
      return true;
    }
  }
}
