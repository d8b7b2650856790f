/** The encoder as nanopb runs it: nested messages and packed arrays are first measured on a sizing stream,
    then written through a limited substream. Every method is proved against EncodeSpec for both kinds of
    stream, so sizing and writing agree at every nesting depth. */
module Encoder {
  import opened Wire
  import opened Descriptor
  import opened Options
  import opened EncodeSpec
  import opened FieldIterator
  import opened OutputStreams

  // ---------------------------------------------------------------- scalars

  /** pb_encode_varint. */
  method EncodeVarint(stream: OutputStream, value: nat) returns (ok: bool)
    requires stream.Valid()
    modifies stream, stream.buf
    ensures stream.Valid() &&
            Wrote(stream.sizing, stream.maxSize, old(stream.Now()), stream.Now(), Some(EncVarint(value)), ok)
  {
    if value <= 0x7F {
      ok := stream.Write([value]);
    } else {
      var buffer := VarintGroups(value);
      ok := stream.Write(buffer);
    }
  }

  /** Its loop: groups are collected in a ten-byte buffer with the continuation bit set, then the last one
      loses it again. */
  method VarintGroups(value: nat) returns (buffer: bytes)
    requires 0x7F < value
    ensures buffer == EncVarint(value) && (value < TWO64 ==> |buffer| <= 10)
  {
    hide EncVarint;
    VarintIsMinimal(value, 1);
    buffer := [];
    var rest: nat := value;
    while rest > 0
      invariant rest > 0 ==> EncVarint(value) == buffer + EncVarint(rest)
      invariant rest == 0 ==> Unterminated(buffer, EncVarint(value))
      invariant |buffer| <= |EncVarint(value)|
    {
      GroupAppended(buffer, rest, EncVarint(value));
      buffer := buffer + [rest % 0x80 + 0x80];
      rest := rest / 0x80;
    }
    var last := |buffer| - 1;
    var top: byte := buffer[last] - 0x80;
    assert buffer[..last] + [top] == EncVarint(value);
    buffer := buffer[..last] + [top];
  }

  /** b is e with the continuation bit still set on its last byte. */
  ghost predicate Unterminated(b: bytes, e: bytes) {
    |b| == |e| > 0 && b[|b| - 1] as int == e[|e| - 1] as int + 0x80 && b[..|b| - 1] == e[..|e| - 1]
  }

  lemma GroupAppended(buffer: bytes, rest: nat, e: bytes)
    requires rest > 0 && e == buffer + EncVarint(rest)
    ensures var b := buffer + [rest % 0x80 + 0x80];
            |b| <= |e| && if rest / 0x80 > 0 then e == b + EncVarint(rest / 0x80) else Unterminated(b, e)
  {
    if rest >= 0x80 { assert EncVarint(rest) == [rest % 0x80 + 0x80] + EncVarint(rest / 0x80); }
  }

  /** pb_encode_svarint. */
  method EncodeSVarint(stream: OutputStream, value: int) returns (ok: bool)
    requires stream.Valid() && -TWO63 <= value < TWO63
    modifies stream, stream.buf
    ensures stream.Valid() &&
            Wrote(stream.sizing, stream.maxSize, old(stream.Now()), stream.Now(), Some(EncVarint(ZigZag(value))), ok)
  {
    var zigzagged: nat;
    if value < 0 {
      zigzagged := TWO64 - 1 - 2 * value % TWO64;
    } else {
      zigzagged := 2 * value;
    }
    ok := EncodeVarint(stream, zigzagged);
  }

  /** pb_encode_fixed32 and pb_encode_fixed64. */
  method EncodeFixed(stream: OutputStream, value: nat, width: nat) returns (ok: bool)
    requires stream.Valid()
    modifies stream, stream.buf
    ensures stream.Valid() &&
            Wrote(stream.sizing, stream.maxSize, old(stream.Now()), stream.Now(), Some(EncFixed(value, width)), ok)
  {
    var b: bytes := [];
    var rest: nat := value;
    for i := 0 to width
      invariant EncFixed(value, width) == b + EncFixed(rest, width - i)
    {
      b := b + [rest % 256];
      rest := rest / 256;
    }
    assert EncFixed(value, width) == b;
    ok := stream.Write(b);
  }

  /** pb_encode_tag. */
  method EncodeTag(stream: OutputStream, wireType: nat, fieldNumber: nat) returns (ok: bool)
    requires stream.Valid()
    modifies stream, stream.buf
    ensures stream.Valid() &&
            Wrote(stream.sizing, stream.maxSize, old(stream.Now()), stream.Now(), Some(EncTag(fieldNumber, wireType)),
                ok)
  {
    ok := EncodeVarint(stream, 8 * fieldNumber + wireType);
  }

  /** pb_encode_string. */
  method EncodeString(stream: OutputStream, buffer: bytes) returns (ok: bool)
    requires stream.Valid()
    modifies stream, stream.buf
    ensures stream.Valid() &&
            Wrote(stream.sizing, stream.maxSize, old(stream.Now()), stream.Now(), Some(EncDelimited(buffer)), ok)
  {
    ghost var s := stream.Now();
    ok := EncodeVarint(stream, |buffer|);
    if !ok {
      WroteFails(stream.sizing, stream.maxSize, s, stream.Now(), Some(EncVarint(|buffer|)), Some(buffer));
      return;
    }
    ghost var t := stream.Now();
    ok := stream.Write(buffer);
    WroteThen(stream.sizing, stream.maxSize, s, t, stream.Now(), Some(EncVarint(|buffer|)), Some(buffer), ok);
  }

  /** The length loop of pb_enc_string. */
  method StringLength(buf: bytes) returns (size: nat)
    ensures size == |CStr(buf)|
  {
    size := 0;
    while size < |buf| && buf[size] != 0
      invariant size <= |buf| && |CStr(buf)| == size + |CStr(buf[size..])|
    {
      assert buf[size..][1..] == buf[size + 1..];
      size := size + 1;
    }
  }

  /** pb_enc_bool, pb_enc_varint, pb_enc_uvarint, pb_enc_svarint, pb_enc_fixed32, pb_enc_fixed64. */
  method EncodeNumber(stream: OutputStream, f: Field, n: int) returns (ok: bool)
    requires stream.Valid()
    modifies stream, stream.buf
    ensures stream.Valid() && Wrote(stream.sizing, stream.maxSize, old(stream.Now()), stream.Now(), EncNumber(f, n), ok)
  {
    hide EncVarint, EncFixed;
    ok := false;
    match f.ltype
    case LBool => ok := EncodeVarint(stream, if n != 0 then 1 else 0);
    case LVarint => if IntSize(f.dataSize) { ok := EncodeVarint(stream, ToUnsigned(n, TWO64)); }
    case LUVarint => if IntSize(f.dataSize) { ok := EncodeVarint(stream, ToUnsigned(n, TWO64)); }
    case LSVarint => if IntSize(f.dataSize) { ok := EncodeSVarint(stream, ToSigned(n, TWO63)); }
    case LFixed32 => ok := EncodeFixed(stream, ToUnsigned(n, TWO32), 4);
    case LFixed64 => ok := EncodeFixed(stream, ToUnsigned(n, TWO64), 8);
    case _ =>
  }

  // ---------------------------------------------------------------- the zero test

  /** pb_check_proto3_default_value. */
  method CheckProto3Default(f: Field, s: Slot) returns (zero: bool)
    requires WellFormedField(f) && ShapedSlot(f, s)
    ensures zero == IsDefault(f, s)
    decreases f, 0
  {
    if f.htype.Required? {
      return false;
    } else if f.htype.Repeated? {
      return f.sizeOffset != 0 && s.count == 0;
    } else if f.htype.Oneof? {
      return s.which == 0;
    } else if f.sizeOffset != 0 {
      return !s.has;
    }
    match s.data
    case Blob(size, _) => return size == 0;
    case Text(buf) => return buf[0] == 0;
    case Raw(_) => return f.dataSize == 0;
    case Sub(slots) => zero := CheckAllDefault(f.sub, slots);
    case Num(n) => return n == 0;
  }

  /** The same over the fields of a submessage. */
  method CheckAllDefault(fields: seq<Field>, m: Message) returns (zero: bool)
    requires WellFormed(fields) && Shaped(fields, m)
    ensures zero == AllDefault(fields, m)
    decreases fields
  {
    hide DataOffset, SizeOffset, ReqIndex, NonzeroTags, IsDefault, AllDefault, ShapedSlot, WellFormedField, Home;
    hide WellFormed, ZeroUpTo;
    hide InsideUnion;
    TagsNonzero(fields);
    ZeroUpToEnds(fields, m);
    var iter := new FieldIter(fields, 0);
    if iter.TagHere() == 0 { return true; }
    ghost var done := 0;
    var more := true;
    while more
      invariant iter.Valid() && iter.fields == fields && fresh(iter)
      invariant if more then done == iter.pos < |fields| else done == |fields|
      invariant ZeroUpTo(fields, m, done)
      decreases |fields| - done
    {
      FieldAt(fields, m, iter.pos);
      var b := CheckProto3Default(fields[iter.pos], m[Home(fields, iter.pos)]);
      ZeroUpToStep(fields, m, done);
      if !b { return false; }
      more := iter.Next();
      done := done + 1;
    }
    return true;
  }

  ghost predicate ZeroUpTo(fields: seq<Field>, m: Message, n: nat) {
    |m| == |fields| && forall k :: 0 <= k < n && k < |fields| ==> IsDefault(fields[k], m[Home(fields, k)])
  }

  lemma ZeroUpToStep(fields: seq<Field>, m: Message, n: nat)
    requires |m| == |fields| && n < |fields| && ZeroUpTo(fields, m, n)
    ensures ZeroUpTo(fields, m, n + 1) <==> IsDefault(fields[n], m[Home(fields, n)])
    ensures !IsDefault(fields[n], m[Home(fields, n)]) ==> !AllDefault(fields, m)
  {
    hide IsDefault, Home;
  }

  lemma ZeroUpToEnds(fields: seq<Field>, m: Message)
    requires |m| == |fields|
    ensures ZeroUpTo(fields, m, 0) && (ZeroUpTo(fields, m, |fields|) <==> AllDefault(fields, m))
  {
    hide IsDefault, Home;
  }

  lemma FieldAt(fields: seq<Field>, m: Message, i: nat)
    requires WellFormed(fields) && Shaped(fields, m) && i < |fields|
    ensures WellFormedField(fields[i]) && |m| == |fields| && ShapedSlot(fields[i], m[Home(fields, i)])
  {
  }

  // ---------------------------------------------------------------- entries, arrays, fields, messages

  /** The PB_ENCODERS table. */
  method EncodeEntry(stream: OutputStream, f: Field, d: Datum) returns (ok: bool)
    requires stream.Valid() && WellFormedField(f) && ShapedDatum(f, d)
    modifies stream, stream.buf
    ensures stream.Valid() && Wrote(stream.sizing, stream.maxSize, old(stream.Now()), stream.Now(), EncDatum(f, d), ok)
    decreases f, 1
  {
    hide EncVarint, CStr, EncMessage, Wrote;
    match d
    case Num(n) => ok := EncodeNumber(stream, f, n);
    case Blob(size, buf) =>
      if size + BYTES_OFFSET > f.dataSize {
        ok := false;
        Refused(stream.sizing, stream.maxSize, stream.Now());
      } else {
        ok := EncodeString(stream, buf[..size]);
      }
    case Text(buf) =>
      var size := StringLength(buf);
      assert buf[..size] == CStr(buf);
      ok := EncodeString(stream, buf[..size]);
    case Raw(buf) => ok := EncodeString(stream, buf);
    case Sub(slots) => ok := EncodeSubmessage(stream, f.sub, slots);
  }

  lemma Refused(sizing: bool, maxSize: nat, s: Snapshot)
    requires Sound(sizing, maxSize, s)
    ensures Wrote(sizing, maxSize, s, s, None, false)
  {
  }

  /** pb_encode_submessage: measure, write the length, then write through a substream limited to the measured
      size. That the second pass produces another size cannot happen. */
  method EncodeSubmessage(stream: OutputStream, fields: seq<Field>, m: Message) returns (ok: bool)
    requires stream.Valid() && WellFormed(fields) && Shaped(fields, m)
    modifies stream, stream.buf
    ensures stream.Valid() &&
            Wrote(stream.sizing, stream.maxSize, old(stream.Now()), stream.Now(), EncSubmessage(fields, m), ok)
    decreases fields, 2
  {
    hide EncVarint, EncMessage;
    ghost var s := stream.Now();
    var sizeStream := new OutputStream.Sizing();
    ok := EncodeMessage(sizeStream, fields, m);
    if !ok { return; }
    var size := sizeStream.bytesWritten;
    ghost var e := EncMessage(fields, m).value;
    ok := EncodeVarint(stream, size);
    if !ok {
      WroteFails(stream.sizing, stream.maxSize, s, stream.Now(), Some(EncVarint(size)), Some(e));
      return;
    }
    ghost var t := stream.Now();
    if stream.sizing {
      stream.Count(size);
      WroteThen(true, stream.maxSize, s, t, stream.Now(), Some(EncVarint(size)), Some(e), true);
      return;
    }
    if stream.bytesWritten + size > stream.maxSize {
      ok := false;
      WroteThen(false, stream.maxSize, s, t, t, Some(EncVarint(size)), Some(e), false);
      return;
    }
    var substream := new OutputStream(stream.buf, stream.state, size);
    var status := EncodeMessage(substream, fields, m);
    stream.bytesWritten := stream.bytesWritten + substream.bytesWritten;
    stream.state := substream.state;
    if substream.bytesWritten != size {
      assert false;   // "submsg size changed" is never reported
      return false;
    }
    WroteThen(false, stream.maxSize, s, t, stream.Now(), Some(EncVarint(size)), Some(e), true);
    ok := status;
  }

  /** Measure the elements of a packed array on a sizing stream. */
  method MeasureItems(f: Field, ds: seq<Datum>) returns (ok: bool, size: nat)
    requires WellFormedField(f) && forall k :: 0 <= k < |ds| ==> ShapedDatum(f, ds[k])
    ensures ok == EncItems(f, ds).Some? && (ok ==> size == |EncItems(f, ds).value|)
    decreases f, 3
  {
    size := 0;
    var sizeStream := new OutputStream.Sizing();
    ok := EncodeItems(sizeStream, f, ds);
    size := sizeStream.bytesWritten;
  }

  /** Write the elements of a packed array one after the other. */
  method EncodeItems(stream: OutputStream, f: Field, ds: seq<Datum>) returns (ok: bool)
    requires stream.Valid() && WellFormedField(f) && forall k :: 0 <= k < |ds| ==> ShapedDatum(f, ds[k])
    modifies stream, stream.buf
    ensures stream.Valid() && Wrote(stream.sizing, stream.maxSize, old(stream.Now()), stream.Now(), EncItems(f, ds), ok)
    decreases f, 2
  {
    hide EncDatum, Wrote, Sound, EncItems;
    ghost var s := stream.Now();
    ghost var done: bytes := [];
    WroteNothing(stream.sizing, stream.maxSize, s);
    assert ds[0..] == ds;
    ThenNothing(EncItems(f, ds));
    for i := 0 to |ds|
      invariant stream.Valid() && Wrote(stream.sizing, stream.maxSize, s, stream.Now(), Some(done), true)
      invariant EncItems(f, ds) == Then(Some(done), EncItems(f, ds[i..]))
    {
      ghost var t := stream.Now();
      ItemsStep(f, ds, i, done);
      ok := EncodeEntry(stream, f, ds[i]);
      WroteStep(stream.sizing, stream.maxSize, s, t, stream.Now(), done, EncDatum(f, ds[i]), EncItems(f, ds[i + 1..]),
          ok);
      if !ok { return; }
      done := done + EncDatum(f, ds[i]).value;
    }
    ItemsEnd(f, done);
    assert ds[|ds|..] == [];
    ok := true;
  }

  lemma ThenNothing(e: Option<bytes>)
    ensures Then(Some([]), e) == e
  {
    if e.Some? { assert [] + e.value == e.value; }
  }

  /** One more part a after done has been written, with rest still to come. */
  lemma WroteStep(sizing: bool, maxSize: nat, s: Snapshot, t: Snapshot, u: Snapshot, done: bytes, a: Option<bytes>,
                  rest: Option<bytes>, ok: bool)
    requires Sound(sizing, maxSize, s) && Wrote(sizing, maxSize, s, t, Some(done), true) &&
             Wrote(sizing, maxSize, t, u, a, ok)
    ensures if ok then a.Some? && Wrote(sizing, maxSize, s, u, Some(done + a.value), true) &&
            Then(Some(done), a) == Some(done + a.value)
            else Wrote(sizing, maxSize, s, u, Then(Then(Some(done), a), rest), false)
  {
    WroteThen(sizing, maxSize, s, t, u, Some(done), a, ok);
    if !ok { WroteFails(sizing, maxSize, s, u, Then(Some(done), a), rest); }
  }

  lemma ItemsStep(f: Field, ds: seq<Datum>, i: nat, done: bytes)
    requires i < |ds| && EncItems(f, ds) == Then(Some(done), EncItems(f, ds[i..]))
    ensures EncItems(f, ds) == Then(Then(Some(done), EncDatum(f, ds[i])), EncItems(f, ds[i + 1..]))
  {
    hide EncDatum;
    assert ds[i..][1..] == ds[i + 1..];
    var a, b := EncDatum(f, ds[i]), EncItems(f, ds[i + 1..]);
    if a.Some? && b.Some? { assert done + (a.value + b.value) == done + a.value + b.value; }
  }

  lemma ItemsEnd(f: Field, done: bytes)
    ensures Then(Some(done), EncItems(f, [])) == Some(done)
  {
    assert done + [] == done;
  }

  /** A field's tag and one entry: pb_encode_tag_for_field, then the field encoder. */
  method EncodeTagged(stream: OutputStream, f: Field, d: Datum) returns (ok: bool)
    requires stream.Valid() && WellFormedField(f) && ShapedDatum(f, d)
    modifies stream, stream.buf
    ensures stream.Valid() && Wrote(stream.sizing, stream.maxSize, old(stream.Now()), stream.Now(), EncTagged(f, d), ok)
    decreases f, 2
  {
    hide EncDatum, Sound, EncVarint;
    ghost var s := stream.Now();
    ghost var tag := Some(EncTag(f.tag, WireType(f)));
    assert EncTagged(f, d) == Then(tag, EncDatum(f, d));
    ok := EncodeTag(stream, WireType(f), f.tag);
    if !ok {
      WroteFails(stream.sizing, stream.maxSize, s, stream.Now(), tag, EncDatum(f, d));
      return;
    }
    ghost var t := stream.Now();
    ok := EncodeEntry(stream, f, d);
    WroteThen(stream.sizing, stream.maxSize, s, t, stream.Now(), tag, EncDatum(f, d), ok);
  }

  /** The element-wise branch of encode_array. */
  method EncodeTaggedItems(stream: OutputStream, f: Field, ds: seq<Datum>) returns (ok: bool)
    requires stream.Valid() && WellFormedField(f) && forall k :: 0 <= k < |ds| ==> ShapedDatum(f, ds[k])
    modifies stream, stream.buf
    ensures stream.Valid() &&
            Wrote(stream.sizing, stream.maxSize, old(stream.Now()), stream.Now(), EncTaggedItems(f, ds), ok)
    decreases f, 3
  {
    hide EncTagged, Wrote, Sound, EncTaggedItems, EncDatum;
    ghost var s := stream.Now();
    ghost var done: bytes := [];
    WroteNothing(stream.sizing, stream.maxSize, s);
    assert ds[0..] == ds;
    ThenNothing(EncTaggedItems(f, ds));
    for i := 0 to |ds|
      invariant stream.Valid() && Wrote(stream.sizing, stream.maxSize, s, stream.Now(), Some(done), true)
      invariant EncTaggedItems(f, ds) == Then(Some(done), EncTaggedItems(f, ds[i..]))
    {
      ghost var t := stream.Now();
      TaggedStep(f, ds, i, done);
      ok := EncodeTagged(stream, f, ds[i]);
      WroteStep(stream.sizing, stream.maxSize, s, t, stream.Now(), done, EncTagged(f, ds[i]),
          EncTaggedItems(f, ds[i + 1..]), ok);
      if !ok { return; }
      done := done + EncTagged(f, ds[i]).value;
    }
    TaggedEnd(f, done);
    assert ds[|ds|..] == [];
    ok := true;
  }

  lemma TaggedStep(f: Field, ds: seq<Datum>, i: nat, done: bytes)
    requires i < |ds| && EncTaggedItems(f, ds) == Then(Some(done), EncTaggedItems(f, ds[i..]))
    ensures EncTaggedItems(f, ds) == Then(Then(Some(done), EncTagged(f, ds[i])), EncTaggedItems(f, ds[i + 1..]))
  {
    hide EncTagged;
    assert ds[i..][1..] == ds[i + 1..];
    var a, b := EncTagged(f, ds[i]), EncTaggedItems(f, ds[i + 1..]);
    if a.Some? && b.Some? { assert done + (a.value + b.value) == done + a.value + b.value; }
  }

  lemma TaggedEnd(f: Field, done: bytes)
    ensures Then(Some(done), EncTaggedItems(f, [])) == Some(done)
  {
    assert done + [] == done;
  }

  /** The packed branch of encode_array: tag, measured size, elements; fixed-width sizes are computed. */
  method EncodePacked(stream: OutputStream, f: Field, ds: seq<Datum>) returns (ok: bool)
    requires stream.Valid() && WellFormedField(f) && Packable(f) && forall k :: 0 <= k < |ds| ==> ShapedDatum(f, ds[k])
    modifies stream, stream.buf
    ensures stream.Valid()
    ensures Wrote(stream.sizing, stream.maxSize, old(stream.Now()), stream.Now(), PackedRecord(f, ds), ok)
    decreases f, 4
  {
    hide EncItems, EncDatum, EncVarint, Wrote, Sound, ShapedDatum, WellFormedField;
    ghost var s := stream.Now();
    ghost var tag := Some(EncTag(f.tag, WT_STRING));
    ghost var sizing, maxSize := stream.sizing, stream.maxSize;
    PackedParts(f, ds);
    ok := EncodeTag(stream, WT_STRING, f.tag);
    ghost var t := stream.Now();
    if !ok {
      WroteFails(sizing, maxSize, s, t, tag, PackedBody(f, ds));
      return;
    }
    var size: nat;
    if f.ltype.LFixed32? {
      size := 4 * |ds|;
      FixedSize(f, ds);
    } else if f.ltype.LFixed64? {
      size := 8 * |ds|;
      FixedSize(f, ds);
    } else {
      ok, size := MeasureItems(f, ds);
      if !ok {
        Refused(sizing, maxSize, t);
        WroteThen(sizing, maxSize, s, t, t, tag, PackedBody(f, ds), false);
        return;
      }
    }
    ghost var length := Some(EncVarint(size));
    ok := EncodeVarint(stream, size);
    ghost var u := stream.Now();
    WroteThen(sizing, maxSize, s, t, u, tag, length, ok);
    if !ok {
      WroteFails(sizing, maxSize, s, u, Then(tag, length), EncItems(f, ds));
      return;
    }
    if stream.sizing {
      stream.Count(size);
      Counted(maxSize, u, stream.Now(), EncItems(f, ds).value);
      ok := true;
    } else {
      ok := EncodeItems(stream, f, ds);
    }
    WroteThen(sizing, maxSize, s, u, stream.Now(), Then(tag, length), EncItems(f, ds), ok);
  }

  lemma Counted(maxSize: nat, s: Snapshot, t: Snapshot, e: bytes)
    requires t == s.(bytesWritten := s.bytesWritten + |e|)
    ensures Wrote(true, maxSize, s, t, Some(e), true)
  {
  }

  function PackedRecord(f: Field, ds: seq<Datum>): Option<bytes> {
    match EncItems(f, ds)
    case None => None
    case Some(p) => Some(EncTag(f.tag, WT_STRING) + EncDelimited(p))
  }

  function PackedBody(f: Field, ds: seq<Datum>): Option<bytes> {
    match EncItems(f, ds)
    case None => None
    case Some(p) => Some(EncDelimited(p))
  }

  lemma PackedParts(f: Field, ds: seq<Datum>)
    ensures var tag := Some(EncTag(f.tag, WT_STRING));
            && PackedRecord(f, ds) == Then(tag, PackedBody(f, ds))
            && (EncItems(f, ds).Some? ==>
                  PackedRecord(f, ds) == Then(Then(tag, Some(EncVarint(|EncItems(f, ds).value|))), EncItems(f, ds)))
  {
    hide EncItems, EncVarint;
    if EncItems(f, ds).Some? {
      var p := EncItems(f, ds).value;
      assert EncTag(f.tag, WT_STRING) + (EncVarint(|p|) + p) == EncTag(f.tag, WT_STRING) + EncVarint(|p|) + p;
    }
  }

  /** Fixed-width arrays need no measuring. */
  lemma {:induction false} FixedSize(f: Field, ds: seq<Datum>)
    requires (f.ltype.LFixed32? || f.ltype.LFixed64?) && forall k :: 0 <= k < |ds| ==> ShapedDatum(f, ds[k])
    ensures EncItems(f, ds).Some? && |EncItems(f, ds).value| == (if f.ltype.LFixed32? then 4 else 8) * |ds|
    decreases |ds|
  {
    if ds != [] {
      assert ShapedDatum(f, ds[0]);
      FixedSize(f, ds[1..]);
    }
  }

  /** encode_array. */
  method EncodeArray(stream: OutputStream, f: Field, items: seq<Datum>, count: nat) returns (ok: bool)
    requires stream.Valid() && WellFormedField(f) && |items| == f.arraySize && forall k :: 0 <= k < |items| ==>
             ShapedDatum(f, items[k])
    modifies stream, stream.buf
    ensures stream.Valid() &&
            Wrote(stream.sizing, stream.maxSize, old(stream.Now()), stream.Now(), EncArray(f, items, count), ok)
    decreases f, 5
  {
    hide Wrote, Sound, EncItems, EncTaggedItems, EncDatum, ShapedDatum, WellFormedField;
    if count == 0 {
      WroteNothing(stream.sizing, stream.maxSize, stream.Now());
      return true;
    }
    if count > f.arraySize {
      Refused(stream.sizing, stream.maxSize, stream.Now());
      return false;
    }
    if Packable(f) {
      ok := EncodePacked(stream, f, items[..count]);
    } else {
      ok := EncodeTaggedItems(stream, f, items[..count]);
    }
  }

  /** encode_basic_field on static fields. */
  method EncodeField(stream: OutputStream, f: Field, s: Slot) returns (ok: bool)
    requires stream.Valid() && WellFormedField(f) && ShapedSlot(f, s)
    modifies stream, stream.buf
    ensures stream.Valid() && Wrote(stream.sizing, stream.maxSize, old(stream.Now()), stream.Now(), EncSlot(f, s), ok)
    decreases f, 6
  {
    hide Wrote, Sound, EncArray, EncTagged, EncDatum, ShapedDatum, IsDefault;
    var implicitHas := true;
    if f.sizeOffset == 0 && f.htype.Optional? {
      var zero := CheckProto3Default(f, s);
      implicitHas := !zero;
    }
    match f.htype
    case Required =>
      ok := EncodeTagged(stream, f, s.data);
    case Optional =>
      if if f.sizeOffset != 0 then s.has else implicitHas {
        ok := EncodeTagged(stream, f, s.data);
      } else {
        ok := true;
        WroteNothing(stream.sizing, stream.maxSize, stream.Now());
      }
    case Repeated =>
      var count := if f.sizeOffset != 0 then s.count else f.arraySize;
      ok := EncodeArray(stream, f, s.items, count);
    case Oneof =>
      if s.which == f.tag {
        ok := EncodeTagged(stream, f, s.data);
      } else {
        ok := true;
        WroteNothing(stream.sizing, stream.maxSize, stream.Now());
      }
  }

  /** Bytes written so far, after s, are those of the fields before i. */
  ghost predicate WrittenUpTo(stream: OutputStream, s: Snapshot, fields: seq<Field>, m: Message, i: nat, done: bytes)
    reads stream, stream.buf
  {
    && |m| == |fields| && i <= |fields|
    && Sound(stream.sizing, stream.maxSize, s)
    && Wrote(stream.sizing, stream.maxSize, s, stream.Now(), Some(done), true)
    && EncFrom(fields, m, 0) == Then(Some(done), EncFrom(fields, m, i))
  }

  method EncodeOneField(stream: OutputStream, fields: seq<Field>, m: Message, i: nat, ghost s: Snapshot,
                        ghost done: bytes)
    returns (ok: bool, ghost done': bytes)
    requires WellFormed(fields) && Shaped(fields, m) && i < |fields| && WrittenUpTo(stream, s, fields, m, i, done)
    modifies stream, stream.buf
    ensures stream.Valid()
    ensures if ok then WrittenUpTo(stream, s, fields, m, i + 1, done')
            else
              && Sound(stream.sizing, stream.maxSize, s)
              && Wrote(stream.sizing, stream.maxSize, s, stream.Now(), EncFrom(fields, m, 0), false)
    decreases fields, 0
  {
    hide Then, EncSlot, EncFrom, ShapedSlot, WellFormedField, Home, WellFormed, Shaped;
    done' := done;
    ghost var t := stream.Now();
    FieldAt(fields, m, i);
    FromParts(fields, m, i, done);
    ok := EncodeField(stream, fields[i], m[Home(fields, i)]);
    WroteStep(stream.sizing, stream.maxSize, s, t, stream.Now(), done, EncSlot(fields[i], m[Home(fields, i)]),
        EncFrom(fields, m, i + 1), ok);
    if ok { done' := done + EncSlot(fields[i], m[Home(fields, i)]).value; }
  }

  /** pb_encode: the fields in descriptor order. */
  method EncodeMessage(stream: OutputStream, fields: seq<Field>, m: Message) returns (ok: bool)
    requires stream.Valid() && WellFormed(fields) && Shaped(fields, m)
    modifies stream, stream.buf
    ensures stream.Valid() &&
            Wrote(stream.sizing, stream.maxSize, old(stream.Now()), stream.Now(), EncMessage(fields, m), ok)
    decreases fields, 1
  {
    hide EncFrom, DataOffset, SizeOffset, ReqIndex, NonzeroTags, WellFormed, Shaped, Wrote, WrittenUpTo;
    TagsNonzero(fields);
    ghost var s := stream.Now();
    ghost var done: bytes, i := [], 0;
    FieldsBegin(stream, fields, m);
    var iter := new FieldIter(fields, 0);
    var more := iter.TagHere() != 0;
    assert fields != [] ==> more;
    while more
      invariant iter.Valid() && iter.fields == fields && fresh(iter)
      invariant if more then i == iter.pos < |fields| else i == |fields|
      invariant WrittenUpTo(stream, s, fields, m, i, done)
      decreases |fields| - i
    {
      ok, done := EncodeOneField(stream, fields, m, iter.pos, s, done);
      if !ok { return; }
      more := iter.Next();
      i := i + 1;
    }
    FieldsEnd(stream, s, fields, m, done);
    ok := true;
  }

  lemma FieldsBegin(stream: OutputStream, fields: seq<Field>, m: Message)
    requires stream.Valid() && Shaped(fields, m)
    ensures |m| == |fields| && WrittenUpTo(stream, stream.Now(), fields, m, 0, [])
  {
    WroteNothing(stream.sizing, stream.maxSize, stream.Now());
    ThenNothing(EncFrom(fields, m, 0));
  }

  lemma FieldsEnd(stream: OutputStream, s: Snapshot, fields: seq<Field>, m: Message, done: bytes)
    requires WrittenUpTo(stream, s, fields, m, |fields|, done)
    ensures stream.Valid() && Sound(stream.sizing, stream.maxSize, s)
    ensures Wrote(stream.sizing, stream.maxSize, s, stream.Now(), EncMessage(fields, m), true)
  {
    FromEnd(fields, m, done);
  }

  lemma FromParts(fields: seq<Field>, m: Message, i: nat, done: bytes)
    requires |m| == |fields| && i < |fields|
    requires EncFrom(fields, m, 0) == Then(Some(done), EncFrom(fields, m, i))
    ensures EncFrom(fields, m, 0) ==
            Then(Then(Some(done), EncSlot(fields[i], m[Home(fields, i)])), EncFrom(fields, m, i + 1))
  {
    hide EncSlot, Home;
    var a, b := EncSlot(fields[i], m[Home(fields, i)]), EncFrom(fields, m, i + 1);
    if a.Some? && b.Some? { assert done + (a.value + b.value) == done + a.value + b.value; }
  }

  lemma FromEnd(fields: seq<Field>, m: Message, done: bytes)
    requires |m| == |fields|
    ensures Then(Some(done), EncFrom(fields, m, |fields|)) == Some(done)
    ensures fields == [] ==> EncFrom(fields, m, 0) == Some([])
  {
    assert done + [] == done;
  }

  /** pb_get_encoded_size: the number of bytes writing would take. */
  method GetEncodedSize(fields: seq<Field>, m: Message) returns (ok: bool, size: nat)
    requires WellFormed(fields) && Shaped(fields, m)
    ensures ok == EncMessage(fields, m).Some? && (ok ==> size == |EncMessage(fields, m).value|)
  {
    hide EncMessage;
    size := 0;
    var stream := new OutputStream.Sizing();
    ok := EncodeMessage(stream, fields, m);
    if !ok { return; }
    size := stream.bytesWritten;
  }

  /** pb_encode_nullterminated. */
  method EncodeNullTerminated(stream: OutputStream, fields: seq<Field>, m: Message) returns (ok: bool)
    requires stream.Valid() && WellFormed(fields) && Shaped(fields, m)
    modifies stream, stream.buf
    ensures stream.Valid()
    ensures Wrote(stream.sizing, stream.maxSize, old(stream.Now()), stream.Now(),
            Then(EncMessage(fields, m), Some([0])), ok)
  {
    hide EncMessage, Sound;
    ghost var s := stream.Now();
    ok := EncodeMessage(stream, fields, m);
    if !ok {
      WroteFails(stream.sizing, stream.maxSize, s, stream.Now(), EncMessage(fields, m), Some([0]));
      return;
    }
    ghost var t := stream.Now();
    ok := stream.Write([0]);
    WroteThen(stream.sizing, stream.maxSize, s, t, stream.Now(), EncMessage(fields, m), Some([0]), ok);
  }
}
