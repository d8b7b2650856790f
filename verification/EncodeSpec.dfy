/** What pb_encode writes, as a function of the descriptor and the structure. None means the encoder
    returns false on any stream, however large. */
module EncodeSpec {
  import opened Wire
  import opened Descriptor
  import opened Options

  function WireType(f: Field): nat {
    match f.ltype
    case LFixed32 => WT_32BIT
    case LFixed64 => WT_64BIT
    case LBytes => WT_STRING
    case LString => WT_STRING
    case LSubmessage => WT_STRING
    case LFixedBytes => WT_STRING
    case _ => WT_VARINT
  }

  function EncTag(tag: nat, wireType: nat): (e: bytes)
    ensures |e| >= 1
  {
    EncVarint(8 * tag + wireType)
  }

  /** pb_encode_string. */
  function EncDelimited(b: bytes): (e: bytes)
    ensures |e| > |b|
  {
    EncVarint(|b|) + b
  }

  /** The payload of a single entry, as the PB_ENCODERS table writes it. */
  function EncDatum(f: Field, d: Datum): Option<bytes>
    decreases f, 0
  {
    match d
    case Num(n) => EncNumber(f, n)
    case Blob(size, buf) =>
      if !f.ltype.LBytes? || size + BYTES_OFFSET > f.dataSize || size > |buf| then None
          else Some(EncDelimited(buf[..size]))
    case Text(buf) => if f.ltype.LString? then Some(EncDelimited(CStr(buf))) else None
    case Raw(buf) => if f.ltype.LFixedBytes? then Some(EncDelimited(buf)) else None
    case Sub(slots) =>
      if !f.ltype.LSubmessage? then None
      else match EncMessage(f.sub, slots)
        case None => None
        case Some(b) => Some(EncDelimited(b))
  }

  function EncNumber(f: Field, n: int): Option<bytes> {
    match f.ltype
    case LBool => Some(EncVarint(if n != 0 then 1 else 0))
    case LVarint => if IntSize(f.dataSize) then Some(EncVarint(ToUnsigned(n, TWO64))) else None
    case LUVarint => if IntSize(f.dataSize) then Some(EncVarint(ToUnsigned(n, TWO64))) else None
    case LSVarint => if IntSize(f.dataSize) then Some(EncVarint(ZigZag(ToSigned(n, TWO63)))) else None
    case LFixed32 => Some(EncFixed(ToUnsigned(n, TWO32), 4))
    case LFixed64 => Some(EncFixed(ToUnsigned(n, TWO64), 8))
    case _ => None
  }

  function EncTagged(f: Field, d: Datum): (e: Option<bytes>)
    ensures e.Some? ==> e.value != []
    decreases f, 1
  {
    match EncDatum(f, d)
    case None => None
    case Some(p) => Some(EncTag(f.tag, WireType(f)) + p)
  }

  function EncItems(f: Field, ds: seq<Datum>): Option<bytes>
    decreases f, 2, |ds|
  {
    if ds == [] then Some([])
    else match EncDatum(f, ds[0])
      case None => None
      case Some(a) =>
        match EncItems(f, ds[1..])
        case None => None
        case Some(b) => Some(a + b)
  }

  function EncTaggedItems(f: Field, ds: seq<Datum>): Option<bytes>
    decreases f, 2, |ds|
  {
    if ds == [] then Some([])
    else match EncTagged(f, ds[0])
      case None => None
      case Some(a) =>
        match EncTaggedItems(f, ds[1..])
        case None => None
        case Some(b) => Some(a + b)
  }

  /** encode_array: packable types go into one length-delimited record. */
  function EncArray(f: Field, items: seq<Datum>, count: nat): Option<bytes>
    decreases f, 3
  {
    if count == 0 then Some([])
    else if count > f.arraySize || count > |items| then None
    else if Packable(f) then
      match EncItems(f, items[..count])
      case None => None
      case Some(p) => Some(EncTag(f.tag, WT_STRING) + EncDelimited(p))
    else EncTaggedItems(f, items[..count])
  }

  /** encode_basic_field. */
  function EncSlot(f: Field, s: Slot): Option<bytes>
    decreases f, 4
  {
    match f.htype
    case Required => if s.One? then EncTagged(f, s.data) else None
    case Optional =>
      if !s.One? then None
      else if (if f.sizeOffset != 0 then s.has else !IsDefault(f, s)) then EncTagged(f, s.data)
      else Some([])
    case Repeated => if s.Many? then EncArray(f, s.items, Present(f, s)) else None
    case Oneof =>
      if !s.Union? then None
      else if s.which == f.tag then EncTagged(f, s.data)
      else Some([])
  }

  function EncFrom(fields: seq<Field>, m: Message, i: nat): Option<bytes>
    requires |m| == |fields| && i <= |fields|
    decreases fields, 0, |fields| - i
  {
    if i == |fields| then Some([])
    else match EncSlot(fields[i], m[Home(fields, i)])
      case None => None
      case Some(a) =>
        match EncFrom(fields, m, i + 1)
        case None => None
        case Some(b) => Some(a + b)
  }

  /** pb_encode. */
  function EncMessage(fields: seq<Field>, m: Message): Option<bytes>
    decreases fields, 1
  {
    if |m| != |fields| then None else EncFrom(fields, m, 0)
  }

  /** pb_encode_submessage, which is also pb_encode_delimited. */
  function EncSubmessage(fields: seq<Field>, m: Message): Option<bytes> {
    match EncMessage(fields, m)
    case None => None
    case Some(b) => Some(EncDelimited(b))
  }

  // ---------------------------------------------------------------- proto3 zero test

  /** pb_check_proto3_default_value. */
  predicate IsDefault(f: Field, s: Slot)
    decreases f, 0
  {
    match f.htype
    case Required => false
    case Repeated => if s.Many? && f.sizeOffset != 0 then s.count == 0 else false
    case Oneof => s.Union? && s.which == 0
    case Optional =>
      if !s.One? then false
      else if f.sizeOffset != 0 then !s.has
      else match s.data
        case Blob(size, _) => size == 0
        case Text(buf) => CStr(buf) == []
        case Raw(_) => f.dataSize == 0
        case Sub(slots) => AllDefault(f.sub, slots)
        case Num(n) => n == 0
  }

  /** The same test over all fields of a submessage. */
  predicate AllDefault(fields: seq<Field>, m: Message)
    decreases fields
  {
    && |m| == |fields|
    && forall i :: 0 <= i < |fields| ==> IsDefault(fields[i], m[Home(fields, i)])
  }

  lemma {:induction false} EmptyFrom(fields: seq<Field>, m: Message, i: nat)
    requires |m| == |fields| && i <= |fields|
    ensures EncFrom(fields, m, i) == Some([]) <==>
            forall j :: i <= j < |fields| ==> EncSlot(fields[j], m[Home(fields, j)]) == Some([])
    decreases |fields| - i
  {
    hide EncSlot, Home;
    if i < |fields| {
      EmptyFrom(fields, m, i + 1);
      var a, b := EncSlot(fields[i], m[Home(fields, i)]), EncFrom(fields, m, i + 1);
      if a.Some? && b.Some? { assert |a.value + b.value| == |a.value| + |b.value|; }
    }
  }

  lemma {:induction false} ArrayNotEmpty(f: Field, items: seq<Datum>, count: nat)
    requires count > 0
    ensures EncArray(f, items, count) != Some([])
  {
    if count <= |items| {
      var ds := items[..count];
      assert ds != [] && ds[0] == items[0];
    }
  }

  /** For every valid submessage the zero test holds exactly when encoding it writes no bytes,
      at any nesting depth and whatever mix of field kinds it has. */
  lemma DefaultMeansEmpty(fields: seq<Field>, m: Message)
    requires WellFormed(fields) && Shaped(fields, m) && Valid(fields, m)
    ensures AllDefault(fields, m) <==> EncMessage(fields, m) == Some([])
  {
    EmptyFrom(fields, m, 0);
    forall i | 0 <= i < |fields|
      ensures IsDefault(fields[i], m[Home(fields, i)]) ==> EncSlot(fields[i], m[Home(fields, i)]) == Some([])
      ensures !fields[i].htype.Oneof? && EncSlot(fields[i], m[Home(fields, i)]) == Some([]) ==>
              IsDefault(fields[i], m[Home(fields, i)])
    {
      var f, s := fields[i], m[Home(fields, i)];
      assert WellFormedField(f) && ShapedSlot(f, s);
      if f.htype.Repeated? && Present(f, s) > 0 { ArrayNotEmpty(f, s.items, Present(f, s)); }
    }
    if EncMessage(fields, m) == Some([]) {
      forall i | 0 <= i < |fields| && fields[i].htype.Oneof?
        ensures IsDefault(fields[i], m[Home(fields, i)])
      {
        var s := m[Home(fields, i)];
        assert ShapedSlot(fields[i], s);
        assert forall j :: 0 <= j < |fields| && Home(fields, j) == Home(fields, i) ==>
               EncSlot(fields[j], s) == Some([]);
        assert s.which == 0 || MemberTag(fields, Home(fields, i), s.which);
      }
    }
  }

  // ---------------------------------------------------------------- what the encoder refuses

  /** Sizes of byte arrays leave room for their header, at any depth of what is to be written. */
  ghost predicate SizeHolds(f: Field, d: Datum)
    decreases f, 0
  {
    match d
    case Blob(size, _) => size + 4 <= f.dataSize
    case Sub(slots) => SizesHold(f.sub, slots)
    case _ => true
  }

  ghost predicate SlotHolds(f: Field, s: Slot)
    decreases f, 1
  {
    match s
    case One(has, d) => (HasFlag(f) && !has) || SizeHolds(f, d)
    case Many(_, items) =>
      Present(f, s) <= f.arraySize && forall k :: 0 <= k < Present(f, s) && k < |items| ==> SizeHolds(f, items[k])
    case Union(which, d) => which == f.tag ==> SizeHolds(f, d)
  }

  ghost predicate SizesHold(fields: seq<Field>, m: Message)
    decreases fields
  {
    |m| == |fields| && forall i :: 0 <= i < |fields| ==> SlotHolds(fields[i], m[Home(fields, i)])
  }

  lemma {:induction false} ItemsEncode(f: Field, ds: seq<Datum>)
    ensures EncItems(f, ds).Some? <==> forall k :: 0 <= k < |ds| ==> EncDatum(f, ds[k]).Some?
    ensures EncTaggedItems(f, ds).Some? <==> forall k :: 0 <= k < |ds| ==> EncDatum(f, ds[k]).Some?
    decreases |ds|
  {
    hide EncDatum;
    if ds != [] {
      ItemsEncode(f, ds[1..]);
      assert forall k :: 1 <= k < |ds| ==> ds[k] == ds[1..][k - 1];
      assert EncTagged(f, ds[0]).Some? == EncDatum(f, ds[0]).Some?;
    }
  }

  lemma DatumEncodes(f: Field, d: Datum)
    requires WellFormedField(f) && ShapedDatum(f, d)
    ensures EncDatum(f, d).Some? <==> SizeHolds(f, d)
    decreases f, 0
  {
    if d.Sub? { EncodesExactly(f.sub, d.slots); }
  }

  lemma SlotEncodes(f: Field, s: Slot)
    requires WellFormedField(f) && ShapedSlot(f, s)
    ensures EncSlot(f, s).Some? <==> SlotHolds(f, s)
    decreases f, 1
  {
    hide EncDatum, SizeHolds, WellFormed, ShapedDatum;
    match s
    case One(has, d) =>
      DatumEncodes(f, d);
      if Singular(f) && IsDefault(f, s) { DefaultHolds(f, s); }
    case Many(_, items) =>
      var n := Present(f, s);
      if n <= f.arraySize {
        forall k | 0 <= k < n ensures EncDatum(f, items[..n][k]).Some? <==> SizeHolds(f, items[k]) {
          DatumEncodes(f, items[k]);
        }
        ItemsEncode(f, items[..n]);
      }
    case Union(which, d) => if which == f.tag { DatumEncodes(f, d); }
  }

  lemma DefaultHolds(f: Field, s: Slot)
    requires WellFormedField(f) && ShapedSlot(f, s) && IsDefault(f, s)
    ensures SlotHolds(f, s)
    decreases f
  {
    hide WellFormed;
    if s.One? && s.data.Sub? && Singular(f) {
      var slots := s.data.slots;
      assert ShapedDatum(f, s.data);
      assert Shaped(f.sub, slots) && AllDefault(f.sub, slots);
      forall i | 0 <= i < |f.sub| ensures SlotHolds(f.sub[i], slots[Home(f.sub, i)]) {
        assert WellFormedField(f.sub[i]) by { FieldOf(f.sub, i); }
        DefaultHolds(f.sub[i], slots[Home(f.sub, i)]);
      }
      assert SizesHold(f.sub, slots);
    }
  }

  lemma FieldOf(fields: seq<Field>, i: nat)
    requires WellFormed(fields) && i < |fields|
    ensures WellFormedField(fields[i])
  {
  }

  lemma {:induction false} FromEncodes(fields: seq<Field>, m: Message, i: nat)
    requires |m| == |fields| && i <= |fields|
    ensures EncFrom(fields, m, i).Some? <==>
            forall j :: i <= j < |fields| ==> EncSlot(fields[j], m[Home(fields, j)]).Some?
    decreases |fields| - i
  {
    hide EncSlot, Home;
    if i < |fields| { FromEncodes(fields, m, i + 1); }
  }

  /** The encoder refuses a structure exactly when a count that is to be written exceeds its array, or the size of a
      byte array its buffer. Unterminated strings, unknown which_ tags and numbers out of range are written. */
  lemma EncodesExactly(fields: seq<Field>, m: Message)
    requires WellFormed(fields) && Shaped(fields, m)
    ensures EncMessage(fields, m).Some? <==> SizesHold(fields, m)
    decreases fields
  {
    hide EncSlot, SlotHolds;
    forall i | 0 <= i < |fields|
      ensures EncSlot(fields[i], m[Home(fields, i)]).Some? <==> SlotHolds(fields[i], m[Home(fields, i)])
    {
      SlotEncodes(fields[i], m[Home(fields, i)]);
    }
    FromEncodes(fields, m, 0);
  }

  lemma ValidHolds(f: Field, d: Datum)
    requires WellFormedField(f) && ShapedDatum(f, d) && ValidDatum(f, d)
    ensures SizeHolds(f, d)
    decreases f, 0
  {
    if d.Sub? { ValidSizes(f.sub, d.slots); }
  }

  lemma ValidSizes(fields: seq<Field>, m: Message)
    requires WellFormed(fields) && Shaped(fields, m) && Valid(fields, m)
    ensures SizesHold(fields, m)
    decreases fields
  {
    hide ValidDatum, SizeHolds;
    forall i | 0 <= i < |fields| ensures SlotHolds(fields[i], m[Home(fields, i)]) {
      var f, s := fields[i], m[Home(fields, i)];
      assert ShapedSlot(f, s) && ValidSlot(f, s);
      match s
      case One(has, d) => if !(HasFlag(f) && !has) { ValidHolds(f, d); }
      case Many(_, items) =>
        forall k | 0 <= k < Present(f, s) ensures SizeHolds(f, items[k]) { ValidHolds(f, items[k]); }
      case Union(which, d) => if which == f.tag { ValidHolds(f, d); }
    }
  }

  /** So it refuses no valid structure. */
  lemma MessageEncodes(fields: seq<Field>, m: Message)
    requires WellFormed(fields) && Shaped(fields, m) && Valid(fields, m)
    ensures EncMessage(fields, m).Some?
  {
    hide EncMessage, SizesHold;
    ValidSizes(fields, m);
    EncodesExactly(fields, m);
  }
}
