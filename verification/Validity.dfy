/** Whatever bytes the decoder accepts, the structure it leaves is valid and can be encoded again.
    An array without a _count member is all present, received or not, so its entries have to be fine before. */
module Validity {
  import opened Wire
  import opened Descriptor
  import opened Options
  import opened EncodeSpec
  import opened DecodeSpec
  import opened RoundTrip

  // ---------------------------------------------------------------- what decoding maintains

  /** Right layout and valid contents, for absent optional entries too: a record may merge into them.
      Without `whole`, the entries of arrays without a counter only have the right layout. */
  ghost predicate GoodDatum(f: Field, d: Datum, whole: bool)
    decreases f, 0
  {
    if f.ltype.LSubmessage? then d.Sub? && Good(f.sub, d.slots, whole)
    else ShapedDatum(f, d) && ValidDatum(f, d)
  }

  ghost predicate GoodArray(f: Field, c: Slot, whole: bool)
    requires c.Many?
    decreases f, 1
  {
    if FixedCount(f) then whole ==> forall k :: 0 <= k < |c.items| ==> GoodDatum(f, c.items[k], true)
    else
      && c.count <= |c.items|
      && (forall k :: 0 <= k < c.count ==> GoodDatum(f, c.items[k], whole))
      && (whole ==> forall k :: 0 <= k < |c.items| ==> FineDatum(f, c.items[k]))
  }

  ghost predicate GoodSlot(f: Field, c: Slot, whole: bool)
    decreases f, 2
  {
    match f.htype
    case Repeated =>
      && c.Many? && |c.items| == f.arraySize
      && (forall k :: 0 <= k < |c.items| ==> ShapedDatum(f, c.items[k]))
      && GoodArray(f, c, whole)
    case Oneof => c.Union? && (c.which == f.tag ==> GoodDatum(f, c.data, whole))
    case _ => c.One? && GoodDatum(f, c.data, whole)
  }

  ghost predicate GoodAt(fields: seq<Field>, i: nat, c: Slot, whole: bool)
    requires i < |fields|
    decreases fields, 0
  {
    && GoodSlot(fields[i], c, whole)
    && (c.Union? && c.which != 0 ==> MemberTag(fields, Home(fields, i), c.which))
  }

  ghost predicate Good(fields: seq<Field>, m: Message, whole: bool)
    decreases fields, 1
  {
    |m| == |fields| && forall i :: 0 <= i < |fields| ==> GoodAt(fields, i, m[Home(fields, i)], whole)
  }

  ghost predicate FineDatum(f: Field, d: Datum)
    decreases f, 0
  {
    f.ltype.LSubmessage? ==> d.Sub? && Fine(f.sub, d.slots)
  }

  ghost predicate FineSlot(f: Field, c: Slot)
    decreases f, 1
  {
    match c
    case One(_, d) => FineDatum(f, d)
    case Many(_, items) => forall k :: 0 <= k < |items| ==> if FixedCount(f) then GoodDatum(f, items[k], true)
        else FineDatum(f, items[k])
    case Union(_, _) => true
  }

  /** The arrays without a counter hold valid entries, wherever they are: unused array entries included.
      Everything else may hold anything. */
  ghost predicate Fine(fields: seq<Field>, m: Message)
    decreases fields
  {
    |m| == |fields| && forall i :: 0 <= i < |fields| ==> FineSlot(fields[i], m[Home(fields, i)])
  }

  lemma GoodDatumShaped(f: Field, d: Datum, whole: bool)
    requires GoodDatum(f, d, whole)
    ensures ShapedDatum(f, d)
    decreases f, 0
  {
    if f.ltype.LSubmessage? { GoodShaped(f.sub, d.slots, whole); }
  }

  lemma GoodSlotShaped(f: Field, c: Slot, whole: bool)
    requires GoodSlot(f, c, whole)
    ensures ShapedSlot(f, c)
    decreases f, 1
  {
    hide ShapedDatum, ValidDatum, GoodDatum, GoodArray;
    if !c.Many? && (c.Union? ==> c.which == f.tag) { GoodDatumShaped(f, c.data, whole); }
  }

  lemma GoodShaped(fields: seq<Field>, m: Message, whole: bool)
    requires Good(fields, m, whole)
    ensures Shaped(fields, m)
    decreases fields
  {
    hide GoodSlot, ShapedSlot;
    forall i | 0 <= i < |fields| ensures ShapedSlot(fields[i], m[Home(fields, i)]) {
      assert GoodAt(fields, i, m[Home(fields, i)], whole);
      GoodSlotShaped(fields[i], m[Home(fields, i)], whole);
    }
  }

  lemma GoodDatumIsValid(f: Field, d: Datum)
    requires GoodDatum(f, d, true)
    ensures ValidDatum(f, d)
    decreases f, 0
  {
    if f.ltype.LSubmessage? { GoodIsValid(f.sub, d.slots); }
  }

  lemma GoodSlotIsValid(f: Field, c: Slot)
    requires GoodSlot(f, c, true)
    ensures ValidSlot(f, c)
    decreases f, 1
  {
    hide ShapedDatum, ValidDatum, GoodDatum, FineDatum;
    match c
    case One(_, d) => GoodDatumIsValid(f, d);
    case Many(count, items) =>
      forall k | 0 <= k < Present(f, c) ensures ValidDatum(f, items[k]) { GoodDatumIsValid(f, items[k]); }
    case Union(which, d) => if which == f.tag { GoodDatumIsValid(f, d); }
  }

  lemma GoodIsValid(fields: seq<Field>, m: Message)
    requires Good(fields, m, true)
    ensures Valid(fields, m)
    decreases fields
  {
    hide GoodSlot, ValidSlot;
    forall i | 0 <= i < |fields| ensures ValidSlot(fields[i], m[Home(fields, i)]) {
      assert GoodAt(fields, i, m[Home(fields, i)], true);
      GoodSlotIsValid(fields[i], m[Home(fields, i)]);
    }
  }

  lemma GoodDatumIsFine(f: Field, d: Datum)
    requires GoodDatum(f, d, true)
    ensures FineDatum(f, d)
    decreases f, 0
  {
    if f.ltype.LSubmessage? { GoodIsFine(f.sub, d.slots); }
  }

  lemma GoodSlotIsFine(f: Field, c: Slot)
    requires GoodSlot(f, c, true)
    ensures FineSlot(f, c)
    decreases f, 1
  {
    hide GoodDatum, FineDatum, ShapedDatum;
    if c.One? { GoodDatumIsFine(f, c.data); }
  }

  lemma GoodIsFine(fields: seq<Field>, m: Message)
    requires Good(fields, m, true)
    ensures Fine(fields, m)
    decreases fields
  {
    hide GoodSlot, FineSlot;
    forall i | 0 <= i < |fields| ensures FineSlot(fields[i], m[Home(fields, i)]) {
      assert GoodAt(fields, i, m[Home(fields, i)], true);
      GoodSlotIsFine(fields[i], m[Home(fields, i)]);
    }
  }

  // ---------------------------------------------------------------- structures that are fine

  lemma ZeroGoodDatum(f: Field)
    requires WellFormedField(f)
    ensures GoodDatum(f, ZeroDatum(f), true)
    decreases f, 0
  {
    if f.ltype.LSubmessage? { ZeroGood(f.sub); } else { ZeroShapedDatum(f); CStrZeros(f.dataSize); }
  }

  lemma ZeroGoodSlot(f: Field)
    requires WellFormedField(f)
    ensures GoodSlot(f, ZeroSlot(f), true)
    decreases f, 1
  {
    hide GoodDatum, FineDatum, ShapedDatum;
    if !f.htype.Oneof? {
      ZeroGoodDatum(f);
      GoodDatumShaped(f, ZeroDatum(f), true);
      GoodDatumIsFine(f, ZeroDatum(f));
    }
  }

  /** A zeroed structure is good throughout. */
  lemma ZeroGood(fields: seq<Field>)
    requires WellFormed(fields)
    ensures Good(fields, ZeroMessage(fields), true) && Fine(fields, ZeroMessage(fields))
    decreases fields
  {
    hide GoodSlot, WellFormedField, Fine;
    forall i | 0 <= i < |fields| ensures GoodAt(fields, i, ZeroMessage(fields)[Home(fields, i)], true) {
      var h := Home(fields, i);
      if h == i { ZeroGoodSlot(fields[i]); } else { ZeroUnionGood(fields[i], fields[h]); }
      assert ZeroMessage(fields)[h] == ZeroSlot(fields[h]);
      ZeroUnion(fields[h]);
    }
    GoodIsFine(fields, ZeroMessage(fields));
  }

  lemma ZeroUnion(f: Field)
    ensures ZeroSlot(f).Union? ==> ZeroSlot(f).which == 0
  {
  }

  lemma ZeroUnionGood(f: Field, home: Field)
    requires WellFormedField(f) && f.htype.Oneof? && home.htype.Oneof?
    ensures GoodSlot(f, ZeroSlot(home), true)
  {
  }

  /** No fixed-count arrays at any nesting depth. */
  ghost predicate CountedField(f: Field)
    decreases f, 0
  {
    !FixedCount(f) && CountedFields(f.sub)
  }

  ghost predicate CountedFields(fields: seq<Field>)
    decreases fields
  {
    forall i :: 0 <= i < |fields| ==> CountedField(fields[i])
  }

  lemma CountedDatumIsFine(f: Field, d: Datum)
    requires CountedField(f) && ShapedDatum(f, d)
    ensures FineDatum(f, d)
    decreases f, 0
  {
    if f.ltype.LSubmessage? { CountedIsFine(f.sub, d.slots); }
  }

  /** Without such arrays every structure is fine. */
  lemma CountedIsFine(fields: seq<Field>, m: Message)
    requires CountedFields(fields) && Shaped(fields, m)
    ensures Fine(fields, m)
    decreases fields
  {
    hide FineDatum, ShapedDatum;
    forall i | 0 <= i < |fields| ensures FineSlot(fields[i], m[Home(fields, i)]) {
      var f, c := fields[i], m[Home(fields, i)];
      assert CountedField(f) && ShapedSlot(f, c);
      match c
      case One(_, d) => CountedDatumIsFine(f, d);
      case Many(_, items) => forall k | 0 <= k < |items| ensures FineDatum(f, items[k]) {
        CountedDatumIsFine(f, items[k]);
      }
      case Union(_, _) =>
    }
  }

  // ---------------------------------------------------------------- a zero count stored over contents

  lemma WipedInRange(f: Field, n: int, c: nat)
    requires SizesFit(f) && InRange(f, n)
    ensures InRange(f, WipedNum(f, n, c))
  {
    var low := if c == 0 then 1 else if c == 1 then 0x100 else if c == 2 then 0x1_0000
        else if c == 3 then 0x100_0000 else TWO32;
    if c < f.dataSize {
      match f.ltype
      case LBytes =>
      case LString =>
      case LFixedBytes =>
      case LSubmessage =>
      case _ => RoundedDown(Half(f.dataSize), n, low);
    }
  }

  lemma RoundedDown(half: int, n: int, low: int)
    requires low > 0 && -half <= n && half % low == 0
    ensures -half <= n - n % low <= n && (0 <= n ==> 0 <= n - n % low)
  {
    var q := n / low;
    assert n == low * q + n % low;
    var h := half / low;
    assert half == low * h;
    if q < -h { assert low * q <= low * (-h - 1) by { MulLess(low, q, -h - 1); } }
    if 0 <= n && q < 0 { MulLess(low, q, -1); }
  }

  lemma MulLess(a: int, b: int, c: int)
    requires a >= 0 && b <= c
    ensures a * b <= a * c
  {
  }

  lemma WipedText(buf: bytes, c: nat)
    requires |CStr(buf)| < |buf|
    ensures |CStr(WipedBytes(buf, c))| < |buf|
  {
    if c == 0 { assert WipedBytes(buf, c) == buf; } else { CStrStops(WipedBytes(buf, c), 0); }
  }

  lemma WipedGoodDatum(f: Field, d: Datum, c: int, whole: bool)
    requires WellFormedField(f) && GoodDatum(f, d, whole)
    ensures GoodDatum(f, WipedDatum(f, d, c), whole)
    decreases f, 0
  {
    if c > 0 {
      if f.ltype.LSubmessage? {
        WipedGood(f.sub, d.slots, c, whole);
      } else {
        WipedShapedDatum(f, d, c);
        match d
        case Num(n) => WipedInRange(f, n, c);
        case Text(buf) => WipedText(buf, c);
        case _ =>
      }
    }
  }

  lemma WipedGoodItems(f: Field, items: seq<Datum>, c: int)
    requires WellFormedField(f) && forall k :: 0 <= k < |items| ==> GoodDatum(f, items[k], true)
    ensures forall k :: 0 <= k < |items| ==> GoodDatum(f, WipedItems(f, items, c)[k], true)
    decreases f, 1
  {
    hide GoodDatum, WipedDatum, WellFormedField;
    forall k | 0 <= k < |items| ensures GoodDatum(f, WipedItems(f, items, c)[k], true) {
      WipedGoodDatum(f, items[k], c - k * f.dataSize, true);
    }
  }

  lemma WipedGoodSlot(f: Field, s: Slot, data: int, size: int, whole: bool)
    requires WellFormedField(f) && GoodSlot(f, s, whole)
    ensures GoodSlot(f, WipedSlot(f, s, data, size), whole)
    decreases f, 2
  {
    hide GoodDatum, WipedDatum, WipedItems, ShapedDatum, FineDatum, WellFormedField;
    match s
    case One(_, d) => WipedGoodDatum(f, d, data, whole);
    case Many(_, items) =>
      WipedShapedItems(f, items, data);
      if FixedCount(f) && whole { WipedGoodItems(f, items, data); }
    case Union(which, d) => TagIsPositive(f);
  }

  lemma TagIsPositive(f: Field)
    requires WellFormedField(f)
    ensures f.tag >= 1
  {
  }

  /** Clearing the first bytes of a good structure leaves a good structure. */
  lemma WipedGood(fields: seq<Field>, m: Message, c: int, whole: bool)
    requires WellFormed(fields) && Good(fields, m, whole)
    ensures Good(fields, Wiped(fields, m, c), whole)
    decreases fields
  {
    hide GoodSlot, WipedSlot, WellFormedField, Wiped, DataOffset, SizeOffset;
    var r := Wiped(fields, m, c);
    forall i | 0 <= i < |fields| ensures GoodAt(fields, i, r[Home(fields, i)], whole) {
      var h := Home(fields, i);
      assert GoodAt(fields, i, m[h], whole) && WellFormedField(fields[i]);
      var data, size := c - DataOffset(fields, h), c - SizeOffset(fields, h);
      WipedAt(fields, m, c, i);
      if h == i { WipedGoodSlot(fields[i], m[i], data, size, whole); }
      else { WipedGoodUnion(fields[i], fields[h], m[h], data, size, whole); }
      WipedTag(fields[h], m[h], data, size);
    }
  }

  lemma WipedTag(f: Field, s: Slot, data: int, size: int)
    ensures var r := WipedSlot(f, s, data, size); r.Union? ==> s.Union? && (r.which == 0 || r.which == s.which)
  {
  }

  lemma WipedGoodUnion(f: Field, home: Field, s: Slot, data: int, size: int, whole: bool)
    requires WellFormedField(f) && f.htype.Oneof? && GoodSlot(f, s, whole)
    ensures GoodSlot(f, WipedSlot(home, s, data, size), whole)
  {
    hide GoodDatum;
  }

  // ---------------------------------------------------------------- defaults

  lemma DefaultGoodDatum(f: Field, d: Datum, whole: bool)
    requires WellFormedField(f) && ShapedDatum(f, d) && (whole ==> FineDatum(f, d))
    ensures GoodDatum(f, DefaultDatum(f, d), whole)
    decreases f, 0
  {
    if f.ltype.LSubmessage? {
      DefaultGood(f.sub, d.slots, whole);
    } else {
      ZeroShapedDatum(f);
      CStrZeros(f.dataSize);
    }
  }

  lemma DefaultGoodSlot(f: Field, c: Slot, whole: bool)
    requires WellFormedField(f) && ShapedSlot(f, c) && (whole ==> FineSlot(f, c))
    ensures GoodSlot(f, DefaultSlot(f, c), whole)
    decreases f, 1
  {
    hide GoodDatum, FineDatum, ShapedDatum, WipedItems;
    if c.One? { DefaultGoodDatum(f, c.data, whole); }
    if FixedCount(f) {
      WipedShapedItems(f, c.items, COUNT_BYTES);
      if whole { WipedGoodItems(f, c.items, COUNT_BYTES); }
    }
  }

  /** A structure set to defaults is valid, whatever it held outside the arrays without a counter. */
  lemma DefaultGood(fields: seq<Field>, m: Message, whole: bool)
    requires WellFormed(fields) && Shaped(fields, m) && (whole ==> Fine(fields, m))
    ensures Good(fields, Default(fields, m), whole)
    decreases fields, 1
  {
    forall i | 0 <= i < |fields| ensures GoodAt(fields, i, Default(fields, m)[Home(fields, i)], whole) {
      DefaultGoodAt(fields, m, i, whole);
    }
  }

  lemma DefaultGoodAt(fields: seq<Field>, m: Message, i: nat, whole: bool)
    requires WellFormed(fields) && Shaped(fields, m) && (whole ==> Fine(fields, m)) && i < |fields|
    ensures GoodAt(fields, i, Default(fields, m)[Home(fields, i)], whole)
    decreases fields, 0
  {
    hide GoodSlot, ShapedSlot, FineSlot, WellFormedField, DefaultSlot;
    var h := Home(fields, i);
    assert Default(fields, m)[h] == DefaultSlot(fields[h], m[h]);
    assert ShapedSlot(fields[i], m[h]);
    if h == i { DefaultGoodSlot(fields[i], m[h], whole); UnionDefault(fields[i], m[h]); }
    else { DefaultGoodUnion(fields[i], fields[h], m[h], whole); }
  }

  lemma UnionDefault(f: Field, c: Slot)
    requires ShapedSlot(f, c)
    ensures DefaultSlot(f, c).Union? ==> DefaultSlot(f, c).which == 0
  {
  }

  lemma DefaultGoodUnion(f: Field, home: Field, c: Slot, whole: bool)
    requires WellFormedField(f) && f.htype.Oneof? && home.htype.Oneof? && ShapedSlot(f, c)
    ensures GoodSlot(f, DefaultSlot(home, c), whole) && DefaultSlot(home, c).Union? && DefaultSlot(home, c).which == 0
  {
  }

  // ---------------------------------------------------------------- decoding

  lemma LeafGood(f: Field, base: Datum, s: bytes)
    requires WellFormedField(f) && !f.ltype.LSubmessage? && ShapedDatum(f, base)
    ensures var r := DecLeaf(f, base, s); r.Ok? ==> ShapedDatum(f, r.value) && ValidDatum(f, r.value)
  {
    hide DecVarint, DecVarint32, FromFixed;
    DecVarintBound(s);
    match f.ltype
    case LFixed32 => FixedInRange(s, 4);
    case LFixed64 => FixedInRange(s, 8);
    case LString => Terminated(f, base, s);
    case _ =>
  }

  lemma FixedInRange(s: bytes, width: nat)
    requires width == 4 || width == 8
    ensures var r := DecFixed(s, width); r.Ok? ==> r.value < if width == 4 then TWO32 else TWO64
  {
    if |s| >= width { FromFixedBound(s[..width]); }
    Pow2Values();
  }

  lemma {:induction false} CStrStops(buf: bytes, n: nat)
    requires n < |buf| && buf[n] == 0
    ensures |CStr(buf)| <= n
  {
  }

  lemma Terminated(f: Field, base: Datum, s: bytes)
    requires WellFormedField(f) && f.ltype.LString? && ShapedDatum(f, base)
    ensures var r := DecLeaf(f, base, s); r.Ok? ==> ShapedDatum(f, r.value) && ValidDatum(f, r.value)
  {
    match DecLeaf(f, base, s)
    case Err =>
    case Ok(d, _) => CStrStops(d.buf, DecVarint32(s).value);
  }

  lemma DatumGood(f: Field, base: Datum, s: bytes, whole: bool)
    requires WellFormedField(f) && ShapedDatum(f, base)
    requires if f.htype.Repeated? then whole ==> FineDatum(f, base) else GoodDatum(f, base, whole)
    ensures var r := DecDatum(f, base, s); r.Ok? ==> GoodDatum(f, r.value, whole)
    decreases |s|, 0
  {
    hide Default, DecLeaf;
    if f.ltype.LSubmessage? {
      var r := TakeDelimited(s);
      if r.Ok? {
        var start := if f.htype.Repeated? then Default(f.sub, base.slots) else base.slots;
        if f.htype.Repeated? { DefaultGood(f.sub, base.slots, whole); }
        MessageGood(f.sub, start, r.value, whole);
      }
    } else {
      LeafGood(f, base, s);
    }
  }

  /** The first n entries are good, all have the right layout. */
  ghost predicate GoodItems(f: Field, items: seq<Datum>, n: nat, whole: bool) {
    && |items| == f.arraySize
    && (forall k :: 0 <= k < |items| ==> ShapedDatum(f, items[k]))
    && (forall k :: 0 <= k < |items| && k < n ==> GoodDatum(f, items[k], whole))
  }

  /** Storing elements from n on spoils none of the first m, and keeps an unbroken prefix unbroken. */
  lemma {:induction false} PackedGood(f: Field, items: seq<Datum>, n: nat, s: bytes, m: nat, whole: bool)
    requires WellFormedField(f) && Packable(f) && GoodItems(f, items, m, whole)
    ensures var r := DecPacked(f, items, n, s);
            r.Some? ==>
              && GoodItems(f, r.value.0, m, whole) && (n <= m ==> GoodItems(f, r.value.0, r.value.1, whole))
              && (n <= f.arraySize ==> r.value.1 <= f.arraySize)
    decreases |s|
  {
    hide ShapedDatum, ValidDatum, DecLeaf, WellFormedField;
    if s != [] && n < f.arraySize {
      LeafGood(f, items[n], s);
      var r := DecLeaf(f, items[n], s);
      if r.Ok? { PackedGood(f, items[n := r.value], n + 1, r.rest, if m == n then n + 1 else m, whole); }
    }
  }

  /** One record of an array without a counter. */
  lemma FixedArrayGood(fields: seq<Field>, f: Field, wireType: nat, c: Slot, got: nat, s: bytes, m: nat, whole: bool)
    requires WellFormedField(f) && FixedCount(f) && c.Many? && GoodItems(f, c.items, m, whole)
    requires whole ==> forall k :: 0 <= k < |c.items| ==> FineDatum(f, c.items[k])
    ensures var r := DecSlot(fields, f, wireType, c, got, s);
            r.Ok? ==>
              && r.value.0.Many? && GoodItems(f, r.value.0.items, m, whole)
              && (got <= m ==> GoodItems(f, r.value.0.items, r.value.1, whole))
    decreases |s|, 1
  {
    hide DecDatum, DecLeaf, DecVarint32, ShapedDatum, ValidDatum, GoodDatum, FineDatum, WellFormedField;
    if wireType == WT_STRING && Packable(f) {
      var r := TakeDelimited(s);
      if r.Ok? { PackedGood(f, c.items, got, r.value, m, whole); }
    } else if got < f.arraySize {
      DatumGood(f, c.items[got], s, whole);
      var r := DecDatum(f, c.items[got], s);
      if r.Ok? { GoodDatumShaped(f, r.value, whole); }
    }
  }

  lemma CountedArrayGood(fields: seq<Field>, f: Field, wireType: nat, c: Slot, got: nat, s: bytes, whole: bool)
    requires WellFormedField(f) && f.htype.Repeated? && !FixedCount(f) && GoodSlot(f, c, whole)
    ensures var r := DecSlot(fields, f, wireType, c, got, s); r.Ok? ==> GoodSlot(f, r.value.0, whole)
    decreases |s|, 1
  {
    hide DecDatum, DecLeaf, DecVarint32, ShapedDatum, ValidDatum, GoodDatum, FineDatum, WellFormedField;
    assert GoodItems(f, c.items, c.count, whole);
    if wireType == WT_STRING && Packable(f) {
      var r := TakeDelimited(s);
      if r.Ok? {
        assert GoodArray(f, c, whole);
        PackedGood(f, c.items, c.count, r.value, c.count, whole);
        var q := DecPacked(f, c.items, c.count, r.value);
        if q.Some? {
          forall k | 0 <= k < |q.value.0| ensures FineDatum(f, q.value.0[k]) { PackableFine(f, q.value.0[k]); }
          assert GoodSlot(f, Many(q.value.1, q.value.0), whole);
        }
      }
    } else if c.count < f.arraySize {
      DatumGood(f, c.items[c.count], s, whole);
      var r := DecDatum(f, c.items[c.count], s);
      if r.Ok? {
        GoodDatumShaped(f, r.value, whole);
        if whole { GoodDatumIsFine(f, r.value); }
      }
    }
  }

  lemma PackableFine(f: Field, d: Datum)
    requires Packable(f)
    ensures FineDatum(f, d)
  {
  }

  lemma UnionStartGood(f: Field, which: nat, d: Datum, whole: bool)
    requires WellFormedField(f) && (which == f.tag ==> GoodDatum(f, d, whole))
    ensures GoodDatum(f, UnionStart(f, which, d), whole) && ShapedDatum(f, UnionStart(f, which, d))
  {
    if which != f.tag {
      ZeroShapedDatum(f);
      if f.ltype.LSubmessage? {
        ZeroGood(f.sub);
        GoodShaped(f.sub, ZeroMessage(f.sub), true);
        DefaultGood(f.sub, ZeroMessage(f.sub), whole);
      } else {
        CStrZeros(f.dataSize);
      }
    }
    GoodDatumShaped(f, UnionStart(f, which, d), whole);
  }

  lemma SlotGood(fields: seq<Field>, f: Field, wireType: nat, c: Slot, got: nat, s: bytes, whole: bool)
    requires WellFormedField(f) && GoodSlot(f, c, whole)
    ensures var r := DecSlot(fields, f, wireType, c, got, s); r.Ok? ==> GoodSlot(f, r.value.0, whole)
    ensures var r := DecSlot(fields, f, wireType, c, got, s);
            r.Ok? && r.value.0.Union? ==> f.htype.Oneof? && r.value.0.which == f.tag
    decreases |s|, 2
  {
    hide DecDatum, DecLeaf, DecVarint32, DecPacked, ShapedDatum, ValidDatum, GoodDatum, FineDatum, UnionStart;
    hide WellFormedField;
    match c
    case One(has, d) =>
      GoodDatumShaped(f, d, whole);
      DatumGood(f, d, s, whole);
    case Many(count, items) =>
      if FixedCount(f) {
        if whole { forall k | 0 <= k < |items| ensures FineDatum(f, items[k]) { GoodDatumIsFine(f, items[k]); } }
        FixedArrayGood(fields, f, wireType, c, got, s, if whole then |items| else 0, whole);
      } else {
        CountedArrayGood(fields, f, wireType, c, got, s, whole);
      }
    case Union(which, d) =>
      UnionStartGood(f, which, d, whole);
      DatumGood(f, UnionStart(f, which, d), s, whole);
  }

  /** Another field that lives in the slot just stored. */
  lemma SiblingGood(fields: seq<Field>, i: nat, j: nat, slot: Slot, whole: bool)
    requires DistinctTags(fields) && i < |fields| && j < |fields| && Home(fields, i) == Home(fields, j)
    requires GoodSlot(fields[i], slot, whole) && (slot.Union? ==> fields[i].htype.Oneof? && slot.which == fields[i].tag)
    ensures GoodAt(fields, j, slot, whole)
  {
    hide GoodDatum, GoodArray, ShapedDatum, Home;
    if slot.Union? { assert MemberTag(fields, Home(fields, j), slot.which); }
  }

  lemma StoreGood(fields: seq<Field>, m: Message, i: nat, slot: Slot, whole: bool)
    requires DistinctTags(fields) && Good(fields, m, whole) && i < |fields|
    requires GoodSlot(fields[i], slot, whole) && (slot.Union? ==> fields[i].htype.Oneof? && slot.which == fields[i].tag)
    ensures Good(fields, m[Home(fields, i) := slot], whole)
  {
    hide GoodSlot;
    var r := m[Home(fields, i) := slot];
    forall j | 0 <= j < |fields| ensures GoodAt(fields, j, r[Home(fields, j)], whole) {
      if Home(fields, j) == Home(fields, i) { SiblingGood(fields, i, j, slot, whole); }
      else { assert GoodAt(fields, j, m[Home(fields, j)], whole); }
    }
  }

  lemma RecordGood(fields: seq<Field>, st: State, s: bytes, whole: bool)
    requires WellFormed(fields) && Good(fields, st.msg, whole)
    ensures var r := DecRecord(fields, st, s); r.Next? ==> Good(fields, r.st.msg, whole)
    decreases |s|, 3
  {
    hide DecSlot, DecVarint32, GoodSlot, WellFormedField;
    match DecVarint32(s)
    case Err =>
    case Ok(key, rest) =>
      var found := Find(fields, key / 8);
      if key != 0 && found.Some? && StartFixed(fields, st, found.value).Some? {
        var i, h := found.value, Home(fields, found.value);
        var got := StartFixed(fields, st, i).value.got;
        assert GoodAt(fields, i, st.msg[h], whole);
        SlotGood(fields, fields[i], key % 8, st.msg[h], got, rest, whole);
        var r := DecSlot(fields, fields[i], key % 8, st.msg[h], got, rest);
        if r.Ok? { StoreGood(fields, st.msg, i, r.value.0, whole); }
      }
  }

  lemma LoopGood(fields: seq<Field>, st: State, s: bytes, whole: bool)
    requires WellFormed(fields) && Good(fields, st.msg, whole)
    ensures var r := DecLoop(fields, st, s); r.Done? ==> Good(fields, r.st.msg, whole)
    decreases |s|, 4
  {
    hide DecRecord, WellFormed;
    if s != [] {
      RecordGood(fields, st, s, whole);
      var r := DecRecord(fields, st, s);
      if r.Next? { LoopGood(fields, r.st, r.rest, whole); }
    }
  }

  lemma MessageGood(fields: seq<Field>, m: Message, s: bytes, whole: bool)
    requires WellFormed(fields) && Good(fields, m, whole)
    ensures var r := DecMessage(fields, m, s); r.Ok? ==> Good(fields, r.value, whole)
    decreases |s|, 5
  {
    hide DecLoop;
    LoopGood(fields, Initial(m), s, whole);
  }

  // ---------------------------------------------------------------- arrays that received records

  ghost predicate AllGood(f: Field, c: Slot) {
    c.Many? && GoodItems(f, c.items, |c.items|, false)
  }

  /** A fixed-count array is as it was, or complete, or the one being received. */
  ghost predicate Followed(fields: seq<Field>, start: Message, st: State, i: nat)
    requires |start| == |st.msg| == |fields| && i < |fields|
  {
    if st.fixed == Some(i) then st.msg[i].Many? && GoodItems(fields[i], st.msg[i].items, st.got, false)
    else st.msg[i] == start[i] || AllGood(fields[i], st.msg[i])
  }

  ghost predicate AllFollowed(fields: seq<Field>, start: Message, st: State)
    requires |start| == |st.msg| == |fields|
  {
    && (st.fixed.Some? ==> st.fixed.value < |fields| && FixedCount(fields[st.fixed.value]))
    && forall i :: 0 <= i < |fields| && FixedCount(fields[i]) ==> Followed(fields, start, st, i)
  }

  lemma StartFollowed(fields: seq<Field>, start: Message, st: State, i: nat)
    requires WellFormed(fields) && |start| == |st.msg| == |fields| && i < |fields| && Shaped(fields, st.msg)
    requires AllFollowed(fields, start, st) && StartFixed(fields, st, i).Some?
    ensures AllFollowed(fields, start, StartFixed(fields, st, i).value)
  {
    hide ShapedDatum, GoodDatum, WellFormedField;
    var st1 := StartFixed(fields, st, i).value;
    forall j | 0 <= j < |fields| && FixedCount(fields[j]) ensures Followed(fields, start, st1, j) {
      assert Followed(fields, start, st, j) && ShapedSlot(fields[j], st.msg[Home(fields, j)]);
    }
  }

  lemma FieldFollowed(fields: seq<Field>, start: Message, st: State, i: nat, wireType: nat, s: bytes)
    requires WellFormed(fields) && |start| == |fields| && i < |fields| && Shaped(fields, st.msg) &&
             AllFollowed(fields, start, st)
    ensures var r := DecField(fields, st, i, wireType, s); r.Next? ==> AllFollowed(fields, start, r.st)
  {
    hide DecSlot, ShapedSlot, WellFormedField, GoodItems;
    if StartFixed(fields, st, i).Some? {
      StartFollowed(fields, start, st, i);
      var st1, h := StartFixed(fields, st, i).value, Home(fields, i);
      var r := DecSlot(fields, fields[i], wireType, st1.msg[h], st1.got, s);
      if FixedCount(fields[i]) {
        assert Followed(fields, start, st1, i);
        FixedArrayGood(fields, fields[i], wireType, st1.msg[h], st1.got, s, st1.got, false);
      } else {
        CounterStays(fields, fields[i], wireType, st1.msg[h], st1.got, s);
      }
      var q := DecField(fields, st, i, wireType, s);
      if q.Next? {
        forall j | 0 <= j < |fields| && FixedCount(fields[j]) ensures Followed(fields, start, q.st, j) {
          assert Followed(fields, start, st1, j);
        }
      }
    }
  }

  lemma RecordFollowed(fields: seq<Field>, start: Message, st: State, s: bytes)
    requires WellFormed(fields) && |start| == |fields| && Good(fields, st.msg, false) && AllFollowed(fields, start, st)
    ensures var r := DecRecord(fields, st, s); r.Next? ==> AllFollowed(fields, start, r.st)
  {
    hide DecField, DecVarint32, WellFormedField, AllFollowed, Shaped, Good, Find;
    GoodShaped(fields, st.msg, false);
    match DecVarint32(s)
    case Err =>
    case Ok(key, rest) =>
      var found := Find(fields, key / 8);
      if key != 0 && found.Some? { FieldFollowed(fields, start, st, found.value, key % 8, rest); }
  }

  lemma CounterStays(fields: seq<Field>, f: Field, wireType: nat, c: Slot, got: nat, s: bytes)
    requires !FixedCount(f)
    ensures var r := DecSlot(fields, f, wireType, c, got, s); r.Ok? ==> r.value.1 == got
  {
  }

  lemma LoopFollowed(fields: seq<Field>, start: Message, st: State, s: bytes)
    requires WellFormed(fields) && |start| == |fields| && Good(fields, st.msg, false) && AllFollowed(fields, start, st)
    ensures var r := DecLoop(fields, st, s); r.Done? ==> AllFollowed(fields, start, r.st)
    decreases |s|
  {
    hide DecRecord, WellFormed, AllFollowed;
    if s != [] {
      RecordGood(fields, st, s, false);
      RecordFollowed(fields, start, st, s);
      var r := DecRecord(fields, st, s);
      if r.Next? { LoopFollowed(fields, start, r.st, r.rest); }
    }
  }

  /** In every call of the decoder, nested or not: an array without a counter is left exactly as it was, or all
      of its elements have been received and are good. */
  lemma ReceivedIsComplete(fields: seq<Field>, m: Message, s: bytes, i: nat)
    requires WellFormed(fields) && Good(fields, m, false) && i < |fields| && FixedCount(fields[i])
    ensures var r := DecMessage(fields, m, s);
            r.Ok? ==> r.value[i] == m[i] || AllGood(fields[i], r.value[i])
  {
    hide DecLoop, WellFormed, GoodDatum, ShapedDatum;
    LoopFollowed(fields, m, Initial(m), s);
    match DecLoop(fields, Initial(m), s)
    case Failed =>
    case Done(st, _, _) =>
      LoopGood(fields, Initial(m), s, false);
      assert Followed(fields, m, st, i) && GoodAt(fields, i, st.msg[Home(fields, i)], false);
  }

  // ---------------------------------------------------------------- whole runs

  /** For every descriptor, every input that is accepted and any previous contents: the layout is right, counts are
      within the arrays, byte arrays within their buffers, strings terminated, numbers in range, and which_ is 0 or a
      member's tag, everywhere outside the arrays without a counter. */
  lemma DecodedIsGood(fields: seq<Field>, dest: Message, s: bytes)
    requires WellFormed(fields) && Shaped(fields, dest)
    ensures var r := Decode(fields, dest, s); r.Ok? ==> Good(fields, r.value, false) && Shaped(fields, r.value)
  {
    DefaultGood(fields, dest, false);
    MessageGood(fields, Default(fields, dest), s, false);
    var r := Decode(fields, dest, s);
    if r.Ok? { GoodShaped(fields, r.value, false); }
  }

  /** The structure is valid throughout when those arrays were fine before. */
  lemma DecodedIsValid(fields: seq<Field>, dest: Message, s: bytes)
    requires WellFormed(fields) && Shaped(fields, dest) && Fine(fields, dest)
    ensures var r := Decode(fields, dest, s);
            r.Ok? ==> Shaped(fields, r.value) && Valid(fields, r.value) && Fine(fields, r.value)
  {
    DefaultGood(fields, dest, true);
    MessageGood(fields, Default(fields, dest), s, true);
    var r := Decode(fields, dest, s);
    if r.Ok? { GoodShaped(fields, r.value, true); GoodIsValid(fields, r.value); GoodIsFine(fields, r.value); }
  }

  /** A zeroed structure is fine; without arrays that lack a counter every structure is. */
  lemma FineStarts(fields: seq<Field>, dest: Message)
    requires WellFormed(fields)
    ensures Shaped(fields, ZeroMessage(fields)) && Fine(fields, ZeroMessage(fields))
    ensures CountedFields(fields) && Shaped(fields, dest) ==> Fine(fields, dest)
  {
    ZeroGood(fields);
    GoodShaped(fields, ZeroMessage(fields), true);
    if CountedFields(fields) && Shaped(fields, dest) { CountedIsFine(fields, dest); }
  }

  /** A fixed-count array of two strings of at most three characters. */
  function Names(): seq<Field> {
    [Field(1, LString, Repeated, Static, 0, 0, 4, 2, [], None)]
  }

  const EMPTY_NAME: Datum := Text([0, 0, 0, 0])
  const LONG_NAME: Datum := Text([1, 1, 1, 1])
  const NAMES_BYTES: bytes := [10, 0, 10, 4, 1, 1, 1, 1]

  /** Why those arrays have to be fine: an unterminated string survives an accepted input that has no record for it.
      The result is invalid, and the decoder refuses its encoding whatever the destination. */
  lemma UnreceivedStaysInvalid(dest2: Message)
    requires Shaped(Names(), dest2)
    ensures WellFormed(Names())
    ensures var dest := [Many(0, [EMPTY_NAME, LONG_NAME])];
            && Shaped(Names(), dest) && !Fine(Names(), dest)
            && Decode(Names(), dest, []) == Ok(dest, []) && !Valid(Names(), dest)
            && EncMessage(Names(), dest) == Some(NAMES_BYTES)
            && Decode(Names(), dest2, NAMES_BYTES).Err?
  {
    hide DecMessage, EncSlot, ValidSlot, FineSlot, ShapedSlot, Find;
    var f, c := Names()[0], Many(0, [EMPTY_NAME, LONG_NAME]);
    NamesAreSound(c);
    UnterminatedString(f, c);
    assert Home(Names(), 0) == 0;
    EmptyKeeps([c]);
    NamesKeep(c);
    assert EncFrom(Names(), [c], 1) == Some([]) && NAMES_BYTES + [] == NAMES_BYTES;
    NamesRefuses(dest2);
  }

  lemma NamesAreSound(c: Slot)
    requires c == Many(0, [EMPTY_NAME, LONG_NAME])
    ensures WellFormed(Names()) && Shaped(Names(), [c])
  {
    var f := Names()[0];
    assert WellFormedField(f) by { assert WellFormed(f.sub); }
    assert ShapedDatum(f, c.items[0]) && ShapedDatum(f, c.items[1]);
  }

  lemma EmptyKeeps(m: Message)
    requires |m| == 1
    ensures DecMessage(Names(), m, []) == Ok(m, [])
  {
    assert ReqIndex(Names(), 1) == ReqIndex(Names(), 0);
  }

  /** The count is stored over the first name, which is empty already. */
  lemma NamesKeep(c: Slot)
    requires c == Many(0, [EMPTY_NAME, LONG_NAME])
    ensures Default(Names(), [c]) == [c]
  {
    var f := Names()[0];
    assert WipedBytes(EMPTY_NAME.buf, 4) == EMPTY_NAME.buf;
    assert WipedItems(f, c.items, COUNT_BYTES) == c.items;
    assert DefaultSlot(f, c) == c;
  }

  lemma LongName()
    ensures CStr(LONG_NAME.buf) == LONG_NAME.buf && CStr(EMPTY_NAME.buf) == []
  {
    assert forall k :: 0 <= k < |LONG_NAME.buf| ==> LONG_NAME.buf[k] != 0;
  }

  lemma UnterminatedString(f: Field, c: Slot)
    requires f == Names()[0] && c == Many(0, [EMPTY_NAME, LONG_NAME])
    ensures !FineSlot(f, c) && !ValidSlot(f, c) && EncSlot(f, c) == Some(NAMES_BYTES)
  {
    hide CStr;
    LongName();
    assert !ValidDatum(f, c.items[1]);
    NameRecord(EMPTY_NAME, [], [10, 0]);
    NameRecord(LONG_NAME, LONG_NAME.buf, [10, 4, 1, 1, 1, 1]);
    assert c.items[..2] == c.items && c.items[1..] == [LONG_NAME] && c.items[1..][1..] == [];
    assert EncTaggedItems(f, [LONG_NAME][1..]) == Some([]);
    var e: bytes := [10, 4, 1, 1, 1, 1];
    assert e + [] == e && [10, 0] + e == NAMES_BYTES;
    assert EncTaggedItems(f, [LONG_NAME]) == Some(e);
  }

  lemma NameRecord(d: Datum, name: bytes, e: bytes)
    requires d.Text? && CStr(d.buf) == name && |name| < 128 && e == [10, |name|] + name
    ensures EncTagged(Names()[0], d) == Some(e)
  {
    assert EncVarint(10) == [10] && EncVarint(|name|) == [|name|];
    assert EncTag(1, WT_STRING) == [10] && [10] + ([|name|] + name) == e;
  }

  lemma NamesRefuses(dest2: Message)
    requires Shaped(Names(), dest2)
    ensures Decode(Names(), dest2, NAMES_BYTES).Err?
  {
    hide DecVarint32, DecSlot, DecDatum;
    var s := NAMES_BYTES;
    var f := Names()[0];
    assert Home(Names(), 0) == 0;
    var m := Default(Names(), dest2);
    assert m == [DefaultSlot(f, dest2[0])] && m[0].Many? && |m[0].items| == 2;
    NamesKey(s);
    NamesKey(s[2..]);
    var items := m[0].items;
    FirstName(m[0], s);
    var slot := Many(0, items[0 := DecDatum(f, items[0], s[1..]).value]);
    SecondName(slot, s);
    assert s[1..][1..] == s[2..];
    var st := State(m[0 := slot], {}, Some(0), 1);
    assert DecRecord(Names(), Initial(m), s) == Next(st, s[2..]);
    assert DecRecord(Names(), st, s[2..]).Fail?;
  }

  lemma NamesKey(s: bytes)
    requires s != [] && s[0] == 10
    ensures DecVarint32(s) == Ok(10, s[1..]) && Find(Names(), 1) == Some(0) && Home(Names(), 0) == 0
  {
  }

  lemma FirstName(c: Slot, s: bytes)
    requires c.Many? && |c.items| == 2 && s == NAMES_BYTES
    ensures var d := DecDatum(Names()[0], c.items[0], s[1..]);
            d.Ok? && DecSlot(Names(), Names()[0], WT_STRING, c, 0, s[1..]) ==
                Ok((Many(c.count, c.items[0 := d.value]), 1), s[2..])
  {
    assert s[1..][1..] == s[2..];
    assert DecVarint32(s[1..]) == Ok(0, s[2..]);
    assert Take(s[2..], 0) == Ok([], s[2..]);
  }

  lemma SecondName(c: Slot, s: bytes)
    requires c.Many? && |c.items| == 2 && s == NAMES_BYTES
    ensures DecSlot(Names(), Names()[0], WT_STRING, c, 1, s[2..][1..]).Err?
  {
    assert DecVarint32(s[2..][1..]) == Ok(4, s[2..][1..][1..]);
    assert DecDatum(Names()[0], c.items[1], s[2..][1..]).Err?;
  }
}
