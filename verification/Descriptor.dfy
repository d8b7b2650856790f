/** Field descriptors, the C structures they describe as typed slots, and what a structure means:
    its default state, its validity and the view a user of the structure has of it.
    Callback and extension fields are not part of this model; the codec modules use static fields only. */
module Descriptor {
  import opened Options
  import opened Wire

  datatype LType =
    | LBool | LVarint | LUVarint | LSVarint | LFixed32 | LFixed64
    | LBytes | LString | LSubmessage | LFixedBytes

  datatype HType = Required | Optional | Repeated | Oneof

  datatype AType = Static | Pointer

  /** pb_field_t. The terminating entry with tag 0 is the end of the sequence. */
  datatype Field = Field(
    tag: nat, ltype: LType, htype: HType, atype: AType,
    dataOffset: nat, sizeOffset: int, dataSize: nat, arraySize: nat,
    sub: seq<Field>, init: Option<Datum>)

  /** The memory of one field entry. */
  datatype Datum =
    | Num(n: int)                     // integer, bool, enum, float bits
    | Blob(size: nat, buf: bytes)     // pb_bytes_array_t
    | Text(buf: bytes)                // char[data_size]
    | Raw(buf: bytes)                 // pb_byte_t[data_size]
    | Sub(slots: seq<Slot>)           // embedded structure

  /** A structure member with its has_, _count or which_ companion. Members of one oneof share a slot. */
  datatype Slot =
    | One(has: bool, data: Datum)
    | Many(count: nat, items: seq<Datum>)
    | Union(which: nat, data: Datum)

  type Message = seq<Slot>

  const PB_SIZE_MAX: int := 0xFFFF_FFFF
  const PB_MAX_REQUIRED_FIELDS := 64
  const COUNT_BYTES := 4     // sizeof(pb_size_t)
  const BYTES_OFFSET := 4    // offsetof(pb_bytes_array_t, bytes) with a 32-bit pb_size_t

  predicate Packable(f: Field) {
    f.ltype.LBool? || f.ltype.LVarint? || f.ltype.LUVarint? || f.ltype.LSVarint? || f.ltype.LFixed32? ||
        f.ltype.LFixed64?
  }

  /** Fixed-count arrays have no _count member: the descriptor's size location is the data itself. */
  predicate FixedCount(f: Field) {
    f.htype.Repeated? && f.sizeOffset == 0
  }

  predicate HasFlag(f: Field) {
    f.htype.Optional? && f.sizeOffset != 0
  }

  /** A proto3 field: optional, but without a has_ member. */
  predicate Singular(f: Field) {
    f.htype.Optional? && f.sizeOffset == 0
  }

  /** The data pointer is not advanced inside a union: all its members live where the first one does. */
  predicate InsideUnion(fields: seq<Field>, i: nat)
    requires i < |fields|
  {
    i > 0 && fields[i - 1].htype.Oneof? && fields[i].htype.Oneof? && fields[i].dataOffset == PB_SIZE_MAX
  }

  function Home(fields: seq<Field>, i: nat): (h: nat)
    requires i < |fields|
    ensures h <= i && fields[h].htype.Oneof? == fields[i].htype.Oneof?
    ensures !fields[i].htype.Oneof? ==> h == i
    ensures !InsideUnion(fields, h)
  {
    if InsideUnion(fields, i) then Home(fields, i - 1) else i
  }

  const ADDRESS_SIZE := 8

  /** Bytes a member takes in its structure. */
  function MemberSize(f: Field): nat {
    if f.atype.Pointer? then ADDRESS_SIZE
    else if f.htype.Repeated? then f.dataSize * f.arraySize
    else f.dataSize
  }

  /** The offset of a field's data, and of its size location, summed up from the deltas. */
  function DataOffset(fields: seq<Field>, i: nat): int
    requires i < |fields|
  {
    if i == 0 then fields[0].dataOffset
    else if InsideUnion(fields, i) then DataOffset(fields, i - 1)
    else DataOffset(fields, i - 1) + MemberSize(fields[i - 1]) + fields[i].dataOffset
  }

  function SizeOffset(fields: seq<Field>, i: nat): int
    requires i < |fields|
  {
    if InsideUnion(fields, i) then SizeOffset(fields, i - 1) else DataOffset(fields, i) + fields[i].sizeOffset
  }

  /** Number of required fields among the first i. */
  function ReqIndex(fields: seq<Field>, i: nat): nat
    requires i <= |fields|
  {
    if i == 0 then 0 else ReqIndex(fields, i - 1) + if fields[i - 1].htype.Required? then 1 else 0
  }

  function FindFrom(fields: seq<Field>, tag: nat, i: nat): (r: Option<nat>)
    requires i <= |fields|
    ensures r.Some? ==> i <= r.value < |fields| && fields[r.value].tag == tag
    ensures r.None? ==> forall j :: i <= j < |fields| ==> fields[j].tag != tag
    decreases |fields| - i
  {
    if i == |fields| then None
    else if fields[i].tag == tag then Some(i)
    else FindFrom(fields, tag, i + 1)
  }

  function Find(fields: seq<Field>, tag: nat): (r: Option<nat>)
    ensures r.Some? ==> r.value < |fields| && fields[r.value].tag == tag
    ensures r.None? ==> forall j :: 0 <= j < |fields| ==> fields[j].tag != tag
  {
    FindFrom(fields, tag, 0)
  }

  predicate DistinctTags(fields: seq<Field>) {
    forall i, j :: 0 <= i < j < |fields| ==> fields[i].tag != fields[j].tag
  }

  lemma {:induction false} FindIsIndex(fields: seq<Field>, i: nat, j: nat)
    requires j <= i < |fields| && DistinctTags(fields)
    ensures FindFrom(fields, fields[i].tag, j) == Some(i)
    decreases i - j
  {
    if j < i { FindIsIndex(fields, i, j + 1); }
  }

  // ---------------------------------------------------------------- well-formed descriptors

  function Half(size: nat): (h: int)
    ensures h > 0
  {
    if size == 1 then 0x80 else if size == 2 then 0x8000 else if size == 4 then TWO31 else TWO63
  }

  predicate IntSize(size: nat) {
    size == 1 || size == 2 || size == 4 || size == 8
  }

  predicate InRange(f: Field, n: int) {
    match f.ltype
    case LBool => 0 <= n < 256
    case LVarint => -Half(f.dataSize) <= n < Half(f.dataSize)
    case LSVarint => -Half(f.dataSize) <= n < Half(f.dataSize)
    case LUVarint => 0 <= n < 2 * Half(f.dataSize)
    case LFixed32 => 0 <= n < TWO32
    case LFixed64 => 0 <= n < TWO64
    case _ => true
  }

  predicate SizesFit(f: Field) {
    && f.dataSize <= PB_SIZE_MAX
    && match f.ltype
       case LBool => f.dataSize == 1
       case LVarint => IntSize(f.dataSize)
       case LUVarint => IntSize(f.dataSize)
       case LSVarint => IntSize(f.dataSize)
       case LFixed32 => f.dataSize == 4
       case LFixed64 => f.dataSize == 8
       case LBytes => f.dataSize >= BYTES_OFFSET
       case LString => f.dataSize >= 1
       case LFixedBytes => f.dataSize >= 1
       case LSubmessage => true
  }

  /** What the generator guarantees about one static field. */
  ghost predicate WellFormedField(f: Field)
    decreases f, 0
  {
    && 1 <= f.tag < TWO32 / 8
    && f.atype.Static?
    && SizesFit(f)
    && (f.htype.Repeated? ==> 1 <= f.arraySize < PB_SIZE_MAX)
    && (FixedCount(f) ==> f.dataSize * f.arraySize >= COUNT_BYTES)
    && (f.htype.Oneof? ==> f.sizeOffset != 0)
    && (f.init.Some? ==>
         !Singular(f) && !f.ltype.LSubmessage? && ShapedDatum(f, f.init.value) && ValidDatum(f, f.init.value))
    && WellFormed(f.sub)
  }

  ghost predicate WellFormed(fields: seq<Field>)
    decreases fields
  {
    && DistinctTags(fields)
    && forall i :: 0 <= i < |fields| ==> WellFormedField(fields[i])
  }

  // ---------------------------------------------------------------- memory shape

  ghost predicate ShapedDatum(f: Field, d: Datum)
    decreases f, 0
  {
    match f.ltype
    case LBytes => d.Blob? && |d.buf| + BYTES_OFFSET == f.dataSize
    case LString => d.Text? && |d.buf| == f.dataSize
    case LFixedBytes => d.Raw? && |d.buf| == f.dataSize
    case LSubmessage => d.Sub? && Shaped(f.sub, d.slots)
    case _ => d.Num?
  }

  ghost predicate ShapedSlot(f: Field, s: Slot)
    decreases f, 1
  {
    match f.htype
    case Repeated => s.Many? && |s.items| == f.arraySize && forall k :: 0 <= k < |s.items| ==>
        ShapedDatum(f, s.items[k])
    case Oneof => s.Union? && (s.which == f.tag ==> ShapedDatum(f, s.data))
    case _ => s.One? && ShapedDatum(f, s.data)
  }

  /** The slots have the layout the descriptor prescribes, whatever their contents. */
  ghost predicate Shaped(fields: seq<Field>, m: Message)
    decreases fields
  {
    && |m| == |fields|
    && forall i :: 0 <= i < |fields| ==> ShapedSlot(fields[i], m[Home(fields, i)])
  }

  // ---------------------------------------------------------------- validity of what is present

  function CStr(buf: bytes): (s: bytes)
    ensures |s| <= |buf| && s == buf[..|s|]
    ensures |s| < |buf| ==> buf[|s|] == 0
    ensures forall k :: 0 <= k < |s| ==> s[k] != 0
  {
    if buf == [] || buf[0] == 0 then [] else [buf[0]] + CStr(buf[1..])
  }

  /** How many array entries count as present. */
  function Present(f: Field, s: Slot): nat
    requires s.Many?
  {
    if f.sizeOffset != 0 then s.count else f.arraySize
  }

  ghost predicate ValidDatum(f: Field, d: Datum)
    decreases f, 0
  {
    match d
    case Num(n) => InRange(f, n)
    case Blob(size, buf) => size <= |buf|
    case Text(buf) => |CStr(buf)| < |buf|
    case Raw(_) => true
    case Sub(slots) => Valid(f.sub, slots)
  }

  ghost predicate ValidSlot(f: Field, s: Slot)
    decreases f, 1
  {
    match s
    case One(has, d) => (HasFlag(f) && !has) || ValidDatum(f, d)
    case Many(_, items) =>
      && Present(f, s) <= |items|
      && forall k :: 0 <= k < |items| && k < Present(f, s) ==> ValidDatum(f, items[k])
    case Union(which, d) => which == f.tag ==> ValidDatum(f, d)
  }

  predicate MemberTag(fields: seq<Field>, home: nat, tag: nat) {
    exists j :: 0 <= j < |fields| && Home(fields, j) == home && fields[j].tag == tag
  }

  /** Counts fit, strings are terminated, byte arrays fit, numbers are in range, which_ is 0 or a member. */
  ghost predicate Valid(fields: seq<Field>, m: Message)
    decreases fields
  {
    && |m| == |fields|
    && (forall i :: 0 <= i < |fields| ==> ValidSlot(fields[i], m[Home(fields, i)]))
    && (forall i :: 0 <= i < |fields| && m[Home(fields, i)].Union? && m[Home(fields, i)].which != 0 ==>
          MemberTag(fields, Home(fields, i), m[Home(fields, i)].which))
  }

  // ---------------------------------------------------------------- zeroed and default structures

  function Zeros(n: nat): (z: bytes)
    ensures |z| == n && forall k :: 0 <= k < n ==> z[k] == 0
  {
    seq(n, _ => 0)
  }

  function ZeroDatum(f: Field): Datum
    decreases f, 0
  {
    match f.ltype
    case LBytes => Blob(0, Zeros(if f.dataSize >= BYTES_OFFSET then f.dataSize - BYTES_OFFSET else 0))
    case LString => Text(Zeros(f.dataSize))
    case LFixedBytes => Raw(Zeros(f.dataSize))
    case LSubmessage => Sub(ZeroMessage(f.sub))
    case _ => Num(0)
  }

  function ZeroSlot(f: Field): Slot
    decreases f, 1
  {
    match f.htype
    case Repeated => Many(0, seq(f.arraySize, _ => ZeroDatum(f)))
    case Oneof => Union(0, Num(0))
    case _ => One(false, ZeroDatum(f))
  }

  /** A structure after memset to zero. */
  function ZeroMessage(fields: seq<Field>): (m: Message)
    ensures |m| == |fields|
    decreases fields
  {
    seq(|fields|, i requires 0 <= i < |fields| => ZeroSlot(fields[i]))
  }

  // ---------------------------------------------------------------- the count of an array without a count

  /** The bytes below the first c of a little-endian number are cleared. */
  function WipedNum(f: Field, n: int, c: nat): int {
    if c >= f.dataSize then 0
    else n - n % (if c == 0 then 1 else if c == 1 then 0x100 else if c == 2 then 0x1_0000 else if c == 3
        then 0x100_0000 else TWO32)
  }

  function WipedBytes(buf: bytes, c: nat): (r: bytes)
    ensures |r| == |buf| && forall k :: 0 <= k < |buf| ==> r[k] == if k < c then 0 else buf[k]
  {
    if c >= |buf| then Zeros(|buf|) else Zeros(c) + buf[c..]
  }

  /** An entry after its first c bytes were set to zero. */
  function WipedDatum(f: Field, d: Datum, c: int): Datum
    decreases f, 0
  {
    if c <= 0 then d
    else match d
      case Num(n) => Num(WipedNum(f, n, c))
      case Blob(size, buf) => Blob(if c >= COUNT_BYTES then 0 else size, buf)
      case Text(buf) => Text(WipedBytes(buf, c))
      case Raw(buf) => Raw(WipedBytes(buf, c))
      case Sub(slots) => Sub(Wiped(f.sub, slots, c))
  }

  function WipedItems(f: Field, items: seq<Datum>, c: int): (r: seq<Datum>)
    ensures |r| == |items|
    decreases f, 1
  {
    seq(|items|, k requires 0 <= k < |items| => WipedDatum(f, items[k], c - k * f.dataSize))
  }

  /** A member of which the first `data` bytes of the contents, and of what lies from the companion on the first
      `size` bytes, are cleared. Counts and tags are aligned: they are cleared as a whole, before any contents. */
  function WipedSlot(f: Field, s: Slot, data: int, size: int): Slot
    decreases f, 2
  {
    match s
    case One(has, d) => One(has && !(HasFlag(f) && size > 0), WipedDatum(f, d, data))
    case Many(count, items) =>
      if FixedCount(f) then Many(count, WipedItems(f, items, data)) else Many(if size > 0 then 0 else count, items)
    case Union(which, d) => Union(if size > 0 then 0 else which, d)
  }

  /** A structure after its first c bytes were set to zero. */
  function Wiped(fields: seq<Field>, m: Message, c: int): (r: Message)
    ensures |r| == |m|
    decreases fields
  {
    seq(|m|, i requires 0 <= i < |m| =>
          if i >= |fields| || InsideUnion(fields, i) then m[i]
          else WipedSlot(fields[i], m[i], c - DataOffset(fields, i), c - SizeOffset(fields, i)))
  }

  lemma WipedAt(fields: seq<Field>, m: Message, c: int, i: nat)
    requires |m| == |fields| && i < |fields|
    ensures var h := Home(fields, i);
            Wiped(fields, m, c)[h] == WipedSlot(fields[h], m[h], c - DataOffset(fields, h), c - SizeOffset(fields, h))
  {
    hide WipedSlot, DataOffset, SizeOffset;
  }

  function SlotsOf(f: Field, d: Datum): (m: Message)
    ensures |m| == |f.sub|
  {
    if d.Sub? && |d.slots| == |f.sub| then d.slots else ZeroMessage(f.sub)
  }

  function DefaultDatum(f: Field, prev: Datum): Datum
    decreases f, 0
  {
    if f.ltype.LSubmessage? then Sub(Default(f.sub, SlotsOf(f, prev)))
    else if f.init.Some? then f.init.value
    else ZeroDatum(f)
  }

  /** pb_field_set_to_default: array and union contents are left as they are, but the zero count of an array that
      has no count of its own is stored over the first bytes of its contents. */
  function DefaultSlot(f: Field, prev: Slot): Slot
    decreases f, 1
  {
    match f.htype
    case Repeated =>
      if !prev.Many? then ZeroSlot(f)
      else Many(0, if FixedCount(f) then WipedItems(f, prev.items, COUNT_BYTES) else prev.items)
    case Oneof => if prev.Union? then Union(0, prev.data) else ZeroSlot(f)
    case _ => One(false, DefaultDatum(f, if prev.One? then prev.data else ZeroDatum(f)))
  }

  /** pb_message_set_to_defaults on the structure `prev`. */
  function Default(fields: seq<Field>, prev: Message): (m: Message)
    ensures |m| == |fields|
    decreases fields
  {
    seq(|fields|, i requires 0 <= i < |fields| =>
          if i >= |prev| then DefaultSlot(fields[i], ZeroSlot(fields[i]))
          else if InsideUnion(fields, i) then prev[i]
          else DefaultSlot(fields[i], prev[i]))
  }

  // ---------------------------------------------------------------- the user's view

  datatype DatumView = VNum(n: int) | VBytes(b: bytes) | VMessage(fields: seq<FieldView>)

  datatype FieldView = Absent | Here(d: DatumView) | List(ds: seq<DatumView>)

  function ViewDatum(f: Field, d: Datum): DatumView
    decreases f, 0
  {
    match d
    case Num(n) => VNum(if f.ltype.LBool? && n != 0 then 1 else n)
    case Blob(size, buf) => VBytes(if size <= |buf| then buf[..size] else buf)
    case Text(buf) => VBytes(CStr(buf))
    case Raw(buf) => VBytes(buf)
    case Sub(slots) => VMessage(ViewMessage(f.sub, slots))
  }

  function ViewSlot(f: Field, s: Slot): FieldView
    decreases f, 1
  {
    match s
    case One(has, d) => if HasFlag(f) && !has then Absent else Here(ViewDatum(f, d))
    case Many(_, items) =>
      var n := if Present(f, s) <= |items| then Present(f, s) else |items|;
      List(seq(n, k requires 0 <= k < n => ViewDatum(f, items[k])))
    case Union(which, d) => if which == f.tag then Here(ViewDatum(f, d)) else Absent
  }

  /** What is observable of a structure: absent contents, unused array entries and bytes behind a
      string terminator are not. */
  function ViewMessage(fields: seq<Field>, m: Message): (v: seq<FieldView>)
    decreases fields
  {
    if |m| != |fields| then []
    else seq(|fields|, i requires 0 <= i < |fields| => ViewSlot(fields[i], m[Home(fields, i)]))
  }
}
