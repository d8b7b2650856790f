/** Decoding what the encoder wrote gives back the same structure, as seen by its user. */
module RoundTrip {
  import opened Wire
  import opened Descriptor
  import opened Options
  import opened EncodeSpec
  import opened DecodeSpec

  // ---------------------------------------------------------------- single entries

  lemma SignedTwice(n: int, size: nat)
    requires IntSize(size) && -Half(size) <= n < Half(size)
    ensures ToSigned(n, Half(size)) == n
    ensures ToSigned(ToUnsigned(n, TWO64), if size == 8 then TWO63 else TWO31) == n
  {
  }

  lemma UnsignedKept(n: nat, size: nat)
    requires IntSize(size) && n < 2 * Half(size)
    ensures n % (2 * Half(size)) == n && ToUnsigned(n, TWO64) == n
  {
  }

  lemma SignedRoundTrip(f: Field, n: int, base: Datum, t: bytes)
    requires (f.ltype.LVarint? || f.ltype.LSVarint?) && SizesFit(f) && InRange(f, n)
    ensures EncNumber(f, n).Some? && EncNumber(f, n).value != []
    ensures DecLeaf(f, base, EncNumber(f, n).value + t) == Ok(Num(n), t)
  {
    hide EncVarint, DecVarint, DecVarint32;
    SignedTwice(n, f.dataSize);
    if f.ltype.LVarint? {
      VarintRoundTrip(ToUnsigned(n, TWO64), t);
    } else {
      SignedTwice(n, 8);
      ZigZagRoundTrip(n);
      VarintRoundTrip(ZigZag(n), t);
    }
  }

  lemma UnsignedRoundTrip(f: Field, n: int, base: Datum, t: bytes)
    requires (f.ltype.LUVarint? || f.ltype.LFixed32? || f.ltype.LFixed64?) && SizesFit(f) && InRange(f, n)
    ensures EncNumber(f, n).Some? && EncNumber(f, n).value != []
    ensures DecLeaf(f, base, EncNumber(f, n).value + t) == Ok(Num(n), t)
  {
    hide EncVarint, DecVarint, DecVarint32, EncFixed, DecFixed;
    if f.ltype.LUVarint? {
      UnsignedKept(n, f.dataSize);
      VarintRoundTrip(n, t);
    } else if f.ltype.LFixed32? {
      FixedPayload(n, 4, t);
    } else {
      FixedPayload(n, 8, t);
    }
  }

  lemma NumberRoundTrip(f: Field, n: int, base: Datum, t: bytes)
    requires Packable(f) && SizesFit(f) && InRange(f, n)
    ensures EncNumber(f, n).Some? && EncNumber(f, n).value != []
    ensures DecLeaf(f, base, EncNumber(f, n).value + t) == Ok(Num(if f.ltype.LBool? && n != 0 then 1 else n), t)
  {
    hide EncVarint, DecVarint32;
    if f.ltype.LBool? { Varint32RoundTrip(if n != 0 then 1 else 0, t); }
    else if f.ltype.LVarint? || f.ltype.LSVarint? { SignedRoundTrip(f, n, base, t); }
    else { UnsignedRoundTrip(f, n, base, t); }
  }

  lemma FixedPayload(n: nat, width: nat, t: bytes)
    requires width == 4 || width == 8
    requires n < if width == 4 then TWO32 else TWO64
    ensures ToUnsigned(n, if width == 4 then TWO32 else TWO64) == n
    ensures DecFixed(EncFixed(n, width) + t, width) == Ok(n, t)
  {
    Pow2Values();
    FixedRoundTrip(n, width);
    var s := EncFixed(n, width) + t;
    assert s[..width] == EncFixed(n, width) && s[width..] == t;
  }

  lemma DelimitedPrefix(b: bytes, t: bytes)
    requires |b| < TWO32
    ensures DecVarint32(EncDelimited(b) + t) == Ok(|b|, b + t)
    ensures Take(b + t, |b|) == Ok(b, t)
  {
    hide EncVarint, DecVarint32;
    assert EncDelimited(b) + t == EncVarint(|b|) + (b + t);
    Varint32RoundTrip(|b|, b + t);
    TakeWhole(b, t);
  }

  lemma {:induction false} CStrIs(s: bytes, tail: bytes)
    requires forall k :: 0 <= k < |s| ==> s[k] != 0
    ensures CStr(s + [0] + tail) == s
  {
    if s != [] {
      assert (s + [0] + tail)[1..] == s[1..] + [0] + tail;
      CStrIs(s[1..], tail);
    }
  }

  /** One non-message entry, decoded over any previous contents. */
  lemma LeafRoundTrip(f: Field, d: Datum, base: Datum, t: bytes) returns (d': Datum)
    requires WellFormedField(f) && !f.ltype.LSubmessage?
    requires ShapedDatum(f, d) && ValidDatum(f, d) && ShapedDatum(f, base)
    ensures EncDatum(f, d).Some? && EncDatum(f, d).value != []
    ensures DecLeaf(f, base, EncDatum(f, d).value + t) == Ok(d', t)
    ensures ShapedDatum(f, d') && ViewDatum(f, d') == ViewDatum(f, d)
  {
    match d
    case Num(n) =>
      NumberRoundTrip(f, n, base, t);
      d' := Num(if f.ltype.LBool? && n != 0 then 1 else n);
    case Blob(size, buf) =>
      DelimitedPrefix(buf[..size], t);
      d' := Blob(size, Overwrite(Buffer(base), buf[..size]));
    case Text(buf) =>
      var s := CStr(buf);
      DelimitedPrefix(s, t);
      d' := Text(Overwrite(Buffer(base), s + [0]));
      CStrIs(s, Buffer(base)[|s| + 1..]);
    case Raw(buf) =>
      DelimitedPrefix(buf, t);
      d' := d;
  }

  // ---------------------------------------------------------------- default structures

  /** The state pb_message_set_to_defaults leaves behind. */
  ghost predicate FreshDatum(f: Field, d: Datum)
    decreases f, 0
  {
    if f.ltype.LSubmessage? then d.Sub? && Fresh(f.sub, d.slots)
    else ShapedDatum(f, d) && d == DefaultDatum(f, d)
  }

  ghost predicate FreshSlot(f: Field, s: Slot)
    decreases f, 1
  {
    match s
    case One(has, d) => !has && FreshDatum(f, d)
    case Many(count, _) => count == 0
    case Union(which, _) => which == 0
  }

  ghost predicate Fresh(fields: seq<Field>, m: Message)
    decreases fields
  {
    Shaped(fields, m) && forall i :: 0 <= i < |fields| ==> FreshSlot(fields[i], m[Home(fields, i)])
  }

  lemma ZeroShapedDatum(f: Field)
    requires WellFormedField(f)
    ensures ShapedDatum(f, ZeroDatum(f))
    decreases f, 0
  {
    if f.ltype.LSubmessage? { ZeroShaped(f.sub); }
  }

  lemma ZeroShapedSlot(f: Field)
    requires WellFormedField(f)
    ensures ShapedSlot(f, ZeroSlot(f))
    decreases f, 1
  {
    ZeroShapedDatum(f);
  }

  lemma ZeroShaped(fields: seq<Field>)
    requires WellFormed(fields)
    ensures Shaped(fields, ZeroMessage(fields))
    decreases fields
  {
    forall i | 0 <= i < |fields| ensures ShapedSlot(fields[i], ZeroMessage(fields)[Home(fields, i)]) {
      var h := Home(fields, i);
      assert WellFormedField(fields[h]) && WellFormedField(fields[i]);
      ZeroShapedSlot(fields[h]);
    }
  }

  // ---------------------------------------------------------------- wiped structures keep their layout

  lemma WipedShapedDatum(f: Field, d: Datum, c: int)
    requires WellFormedField(f) && ShapedDatum(f, d)
    ensures ShapedDatum(f, WipedDatum(f, d, c))
    decreases f, 0
  {
    if c > 0 && f.ltype.LSubmessage? { WipedShaped(f.sub, d.slots, c); }
  }

  lemma WipedShapedItems(f: Field, items: seq<Datum>, c: int)
    requires WellFormedField(f) && forall k :: 0 <= k < |items| ==> ShapedDatum(f, items[k])
    ensures forall k :: 0 <= k < |items| ==> ShapedDatum(f, WipedItems(f, items, c)[k])
    decreases f, 1
  {
    hide ShapedDatum, WipedDatum, WellFormedField;
    forall k | 0 <= k < |items| ensures ShapedDatum(f, WipedItems(f, items, c)[k]) {
      WipedShapedDatum(f, items[k], c - k * f.dataSize);
    }
  }

  lemma WipedShapedSlot(f: Field, s: Slot, data: int, size: int)
    requires WellFormedField(f) && ShapedSlot(f, s)
    ensures ShapedSlot(f, WipedSlot(f, s, data, size))
    decreases f, 2
  {
    hide ShapedDatum, WipedDatum, WipedItems, WellFormed;
    match s
    case One(_, d) => WipedShapedDatum(f, d, data);
    case Many(_, items) => WipedShapedItems(f, items, data);
    case Union(_, _) => assert f.htype.Oneof?;
  }

  lemma WipedShaped(fields: seq<Field>, m: Message, c: int)
    requires WellFormed(fields) && Shaped(fields, m)
    ensures Shaped(fields, Wiped(fields, m, c))
    decreases fields, 1
  {
    hide ShapedSlot, Wiped, Home, WellFormed;
    var r := Wiped(fields, m, c);
    forall i | 0 <= i < |fields| ensures ShapedSlot(fields[i], r[Home(fields, i)]) { WipedShapedAt(fields, m, c, i); }
  }

  lemma WipedShapedAt(fields: seq<Field>, m: Message, c: int, i: nat)
    requires WellFormed(fields) && Shaped(fields, m) && i < |fields|
    ensures ShapedSlot(fields[i], Wiped(fields, m, c)[Home(fields, i)])
    decreases fields, 0
  {
    hide ShapedSlot, WipedSlot, Wiped, DataOffset, SizeOffset, WellFormedField;
    var h := Home(fields, i);
    assert ShapedSlot(fields[i], m[h]) && WellFormedField(fields[i]);
    WipedAt(fields, m, c, i);
    var data, size := c - DataOffset(fields, h), c - SizeOffset(fields, h);
    if h == i { WipedShapedSlot(fields[i], m[i], data, size); }
    else { WipedShapedUnion(fields[i], fields[h], m[h], data, size); }
  }

  lemma WipedShapedUnion(f: Field, home: Field, s: Slot, data: int, size: int)
    requires WellFormedField(f) && f.htype.Oneof? && ShapedSlot(f, s)
    ensures ShapedSlot(f, WipedSlot(home, s, data, size))
  {
  }

  lemma DefaultFreshDatum(f: Field, d: Datum)
    requires WellFormedField(f) && ShapedDatum(f, d)
    ensures FreshDatum(f, DefaultDatum(f, d)) && ShapedDatum(f, DefaultDatum(f, d))
    decreases f, 0
  {
    if f.ltype.LSubmessage? { DefaultFresh(f.sub, d.slots); } else { ZeroShapedDatum(f); }
  }

  lemma DefaultFreshSlot(f: Field, s: Slot)
    requires WellFormedField(f) && ShapedSlot(f, s)
    ensures FreshSlot(f, DefaultSlot(f, s)) && ShapedSlot(f, DefaultSlot(f, s))
    decreases f, 1
  {
    hide ShapedDatum, FreshDatum, WipedItems;
    if s.One? { DefaultFreshDatum(f, s.data); }
    if s.Many? { WipedShapedItems(f, s.items, COUNT_BYTES); }
  }

  /** Setting a structure to defaults makes it init, whatever it held. */
  lemma DefaultFresh(fields: seq<Field>, m: Message)
    requires WellFormed(fields) && Shaped(fields, m)
    ensures Fresh(fields, Default(fields, m))
    decreases fields
  {
    var r := Default(fields, m);
    forall i | 0 <= i < |fields|
      ensures ShapedSlot(fields[i], r[Home(fields, i)]) && FreshSlot(fields[i], r[Home(fields, i)])
    {
      var h := Home(fields, i);
      assert WellFormedField(fields[i]) && ShapedSlot(fields[i], m[h]);
      assert r[h] == DefaultSlot(fields[h], m[h]);
      if h == i { DefaultFreshSlot(fields[i], m[i]); }
    }
  }

  lemma {:induction false} CStrZeros(n: nat)
    ensures CStr(Zeros(n)) == []
  {
  }

  /** A slot the encoder omits looks like the default the decoder starts from. */
  lemma OmittedView(f: Field, s: Slot, init: Slot)
    requires WellFormedField(f) && ShapedSlot(f, s) && ShapedSlot(f, init) && FreshSlot(f, init) && IsDefault(f, s)
    ensures ViewSlot(f, s) == ViewSlot(f, init)
    decreases f, 0
  {
    if f.htype.Repeated? {
      assert ViewSlot(f, s) == List([]) == ViewSlot(f, init);
    } else if Singular(f) {
      match s.data
      case Sub(slots) => OmittedMessageView(f.sub, slots, init.data.slots);
      case Blob(size, buf) => assert init.data == ZeroDatum(f);
      case Text(buf) => CStrZeros(f.dataSize);
      case _ =>
    }
  }

  lemma OmittedMessageView(fields: seq<Field>, m: Message, init: Message)
    requires WellFormed(fields) && Shaped(fields, m) && Fresh(fields, init) && AllDefault(fields, m)
    ensures ViewMessage(fields, m) == ViewMessage(fields, init)
    decreases fields
  {
    forall i | 0 <= i < |fields|
      ensures ViewSlot(fields[i], m[Home(fields, i)]) == ViewSlot(fields[i], init[Home(fields, i)])
    {
      OmittedView(fields[i], m[Home(fields, i)], init[Home(fields, i)]);
    }
  }

  // ---------------------------------------------------------------- one record

  /** A complete record for field i, alone in the stream. */
  lemma RecordRuns(fields: seq<Field>, st: State, i: nat, wireType: nat, p: bytes, st': State)
    requires WellFormed(fields) && |st.msg| == |fields| && i < |fields| && wireType < 8
    requires DecField(fields, st, i, wireType, p) == Next(st', [])
    ensures Runs(fields, st, EncTag(fields[i].tag, wireType) + p, st')
  {
    hide DecField, EncVarint, DecVarint32;
    var key := 8 * fields[i].tag + wireType;
    assert WellFormedField(fields[i]);
    Varint32RoundTrip(key, p);
    FindIsIndex(fields, i, 0);
    var s := EncTag(fields[i].tag, wireType) + p;
    assert DecRecord(fields, st, s) == Next(st', []);
    assert DecLoop(fields, st', []) == Done(st', [], false);
  }

  // ---------------------------------------------------------------- progress through a message

  /** What the decoder has made of field j once the records of fields 0..i of m are decoded: an earlier
      field looks as in m, a later one is untouched except that a oneof sibling may have been chosen. */
  ghost predicate FieldProgress(fields: seq<Field>, m: Message, i: nat, j: nat, st: State)
    requires |m| == |fields| == |st.msg| && j < |fields|
  {
    var f, c, s := fields[j], st.msg[Home(fields, j)], m[Home(fields, j)];
    && ShapedSlot(f, c)
    && if j < i then
         && ViewSlot(f, c) == ViewSlot(f, s)
         && (f.htype.Required? && ReqIndex(fields, j) < PB_MAX_REQUIRED_FIELDS ==> ReqIndex(fields, j) in st.seen)
       else if c.Union? then c.which != 0 ==> s.Union? && c.which == s.which != f.tag
       else FreshSlot(f, c)
  }

  ghost predicate Progress(fields: seq<Field>, m: Message, i: nat, st: State)
    requires |m| == |fields|
  {
    && |st.msg| == |fields|
    && (forall j :: 0 <= j < |fields| ==> FieldProgress(fields, m, i, j, st))
    && FixedComplete(fields, st)
    && (st.fixed.Some? ==> st.fixed.value < i)
  }

  /** st' is st with field i's slot replaced by one that looks like m's. */
  ghost predicate Stores(fields: seq<Field>, m: Message, i: nat, st: State, slot: Slot, st': State)
    requires |m| == |fields| == |st.msg| && i < |fields|
  {
    && st'.msg == st.msg[Home(fields, i) := slot] && st'.seen == MarkSeen(fields, st.seen, i)
    && ShapedSlot(fields[i], slot) && ViewSlot(fields[i], slot) == ViewSlot(fields[i], m[Home(fields, i)])
    && (slot.Union? ==> m[Home(fields, i)].Union? && slot.which == m[Home(fields, i)].which == fields[i].tag)
  }

  lemma StepAt(fields: seq<Field>, m: Message, i: nat, st: State, slot: Slot, st': State, j: nat)
    requires DistinctTags(fields) && |m| == |fields| == |st.msg| && i < |fields| && j < |fields|
    requires Stores(fields, m, i, st, slot, st') && FieldProgress(fields, m, i, j, st)
    ensures FieldProgress(fields, m, i + 1, j, st')
  {
    hide ViewDatum, ShapedDatum, FreshDatum, ReqIndex, Home;
    if Home(fields, j) == Home(fields, i) && j != i { Sibling(fields, m, i, j, slot); }
  }

  /** Another field in the slot of field i is a member of the same oneof and sees only that it was not chosen. */
  lemma Sibling(fields: seq<Field>, m: Message, i: nat, j: nat, slot: Slot)
    requires DistinctTags(fields) && |m| == |fields| && i < |fields| && j < |fields| && i != j
    requires Home(fields, i) == Home(fields, j) && ShapedSlot(fields[i], slot)
    requires slot.Union? ==> m[Home(fields, i)].Union? && slot.which == m[Home(fields, i)].which == fields[i].tag
    ensures slot.Union? && slot.which != fields[j].tag
    ensures ShapedSlot(fields[j], slot) &&
            ViewSlot(fields[j], slot) == Absent == ViewSlot(fields[j], m[Home(fields, j)])
  {
  }

  /** Storing a slot for field i moves the progress one field on. */
  lemma ProgressStep(fields: seq<Field>, m: Message, i: nat, st: State, slot: Slot, st': State)
    requires DistinctTags(fields) && |m| == |fields| && i < |fields| && Progress(fields, m, i, st)
    requires Stores(fields, m, i, st, slot, st')
    requires FixedComplete(fields, st') && (st'.fixed.Some? ==> st'.fixed.value <= i)
    ensures Progress(fields, m, i + 1, st')
  {
    hide FieldProgress, FixedComplete;
    var next := i + 1;
    forall j | 0 <= j < |fields| ensures FieldProgress(fields, m, next, j, st') {
      StepAt(fields, m, i, st, slot, st', j);
    }
  }

  lemma SkippedView(f: Field, s: Slot, c: Slot)
    requires WellFormedField(f) && ShapedSlot(f, s) && ShapedSlot(f, c) && EncSlot(f, s) == Some([])
    requires if c.Union? then c.which != f.tag else FreshSlot(f, c)
    ensures !f.htype.Required? && ViewSlot(f, s) == ViewSlot(f, c)
  {
    if !f.htype.Oneof? {
      if f.htype.Repeated? && Present(f, s) > 0 { ArrayNotEmpty(f, s.items, Present(f, s)); }
      OmittedView(f, s, c);
    }
  }

  lemma SkipAt(fields: seq<Field>, m: Message, i: nat, st: State, j: nat)
    requires WellFormed(fields) && Shaped(fields, m) && |st.msg| == |fields| && i < |fields| && j < |fields|
    requires FieldProgress(fields, m, i, j, st) && EncSlot(fields[i], m[Home(fields, i)]) == Some([])
    ensures FieldProgress(fields, m, i + 1, j, st)
  {
    hide ViewSlot, ShapedDatum, FreshSlot, ReqIndex, Home, IsDefault, EncDatum, Default;
    if j == i {
      var f, c, s := fields[i], st.msg[Home(fields, i)], m[Home(fields, i)];
      assert ShapedSlot(f, s) && WellFormedField(f);
      assert f.tag != 0;
      assert c.Union? ==> c.which != f.tag;
      SkippedView(f, s, c);
    }
  }

  /** Field i wrote nothing: the state already looks right. */
  lemma ProgressSkip(fields: seq<Field>, m: Message, i: nat, st: State)
    requires WellFormed(fields) && |m| == |fields| && Shaped(fields, m) && i < |fields| && Progress(fields, m, i, st)
    requires EncSlot(fields[i], m[Home(fields, i)]) == Some([])
    ensures Progress(fields, m, i + 1, st)
  {
    hide FieldProgress, FixedComplete, WellFormed, Shaped, EncSlot;
    var next := i + 1;
    forall j | 0 <= j < |fields| ensures FieldProgress(fields, m, next, j, st) {
      SkipAt(fields, m, i, st, j);
    }
  }

  // ---------------------------------------------------------------- arrays

  ghost predicate GoodItems(f: Field, items: seq<Datum>, n: nat) {
    n <= |items| && n <= f.arraySize && forall x :: 0 <= x < n ==> ShapedDatum(f, items[x]) && ValidDatum(f, items[x])
  }

  /** its is an array of the right shape whose first k entries look like those of items. */
  ghost predicate SameFirst(f: Field, its: seq<Datum>, items: seq<Datum>, k: nat) {
    && k <= |its| == f.arraySize && k <= |items|
    && (forall x :: 0 <= x < |its| ==> ShapedDatum(f, its[x]))
    && (forall x :: 0 <= x < k ==> ViewDatum(f, its[x]) == ViewDatum(f, items[x]))
  }

  lemma SameFirstStep(f: Field, its: seq<Datum>, items: seq<Datum>, k: nat, d: Datum)
    requires SameFirst(f, its, items, k) && k < |its| && k < |items|
    requires ShapedDatum(f, d) && ViewDatum(f, d) == ViewDatum(f, items[k])
    ensures SameFirst(f, its[k := d], items, k + 1)
  {
    hide ShapedDatum, ViewDatum;
  }

  /** The elements of a packed record. */
  lemma PackedRoundTrip(f: Field, items: seq<Datum>, n: nat, its: seq<Datum>, k: nat, p: bytes)
                        returns (its': seq<Datum>)
    requires WellFormedField(f) && Packable(f) && GoodItems(f, items, n) && k <= n
    requires SameFirst(f, its, items, k) && EncItems(f, items[k..n]) == Some(p)
    ensures DecPacked(f, its, k, p) == Some((its', n)) && SameFirst(f, its', items, n)
    decreases n - k
  {
    hide ShapedDatum, ViewDatum, ValidDatum, EncDatum, DecLeaf, WellFormedField;
    its' := its;
    if k < n {
      var ds := items[k..n];
      assert ds[0] == items[k] && ds[1..] == items[k + 1..n];
      var rest := EncItems(f, items[k + 1..n]).value;
      var d := LeafRoundTrip(f, items[k], its[k], rest);
      SameFirstStep(f, its, items, k, d);
      its' := PackedRoundTrip(f, items, n, its[k := d], k + 1, rest);
      assert p == EncDatum(f, items[k]).value + rest;
    } else {
      assert items[k..n] == [];
    }
  }

  /** Field i is an array that holds k decoded elements and may receive the next one. */
  ghost predicate ArrayAt(fields: seq<Field>, st: State, i: nat, items: seq<Datum>, k: nat)
    requires i < |fields|
  {
    && |st.msg| == |fields| && fields[i].htype.Repeated? && st.msg[i].Many?
    && StartFixed(fields, st, i).Some?
    && k == (if FixedCount(fields[i]) then StartFixed(fields, st, i).value.got else st.msg[i].count)
    && SameFirst(fields[i], st.msg[i].items, items, k)
  }

  /** st' differs from st in the array field i only, and there by its entries and element counter. */
  ghost predicate OnlyArray(fields: seq<Field>, st: State, st': State, i: nat)
    requires i < |fields| == |st.msg| && st.msg[i].Many?
  {
    && |st'.msg| == |fields| && st'.msg[i].Many? && st'.seen == st.seen
    && st'.msg == st.msg[i := st'.msg[i]]
    && if FixedCount(fields[i]) then st'.fixed == Some(i) && st'.msg[i].count == st.msg[i].count
       else st'.fixed == st.fixed && st'.got == st.got
  }

  /** One element record. */
  lemma ElementRuns(fields: seq<Field>, st: State, i: nat, items: seq<Datum>, k: nat, p: bytes, d: Datum)
                    returns (st': State)
    requires WellFormed(fields) && i < |fields| && ArrayAt(fields, st, i, items, k) && !Packable(fields[i])
    requires k < |items| && k < fields[i].arraySize
    requires DecDatum(fields[i], st.msg[i].items[k], p) == Ok(d, [])
    requires ShapedDatum(fields[i], d) && ViewDatum(fields[i], d) == ViewDatum(fields[i], items[k])
    ensures Runs(fields, st, EncTag(fields[i].tag, WireType(fields[i])) + p, st')
    ensures ArrayAt(fields, st', i, items, k + 1) && OnlyArray(fields, st, st', i)
  {
    hide ShapedDatum, ViewDatum, DecDatum, WellFormed, EncVarint, DecLoop;
    var f := fields[i];
    var st1 := StartFixed(fields, st, i).value;
    SameFirstStep(f, st.msg[i].items, items, k, d);
    var (slot, got) := Counted(f, st.msg[i].items[k := d], k + 1, st.msg[i].count, st1.got);
    st' := State(st.msg[i := slot], st.seen, st1.fixed, got);
    assert DecSlot(fields, f, WireType(f), st.msg[i], st1.got, p) == Ok((slot, got), []);
    assert MarkSeen(fields, st1.seen, i) == st.seen;
    RecordRuns(fields, st, i, WireType(f), p, st');
  }

  // ---------------------------------------------------------------- whole messages

  lemma DatumRoundTrip(f: Field, d: Datum, base: Datum, p: bytes) returns (d': Datum)
    requires WellFormedField(f) && ShapedDatum(f, d) && ValidDatum(f, d) && ShapedDatum(f, base)
    requires EncDatum(f, d) == Some(p) && |p| < TWO32
    requires f.htype.Repeated? || FreshDatum(f, base) || !f.ltype.LSubmessage?
    ensures DecDatum(f, base, p) == Ok(d', [])
    ensures ShapedDatum(f, d') && ViewDatum(f, d') == ViewDatum(f, d)
    decreases f, 0
  {
    if f.ltype.LSubmessage? {
      var b := EncMessage(f.sub, d.slots).value;
      var start := if f.htype.Repeated? then Default(f.sub, base.slots) else base.slots;
      if f.htype.Repeated? { DefaultFresh(f.sub, base.slots); }
      var st := MessageRoundTrip(f.sub, d.slots, start, b);
      d' := Sub(st.msg);
      DelimitedPrefix(b, []);
      assert EncDelimited(b) + [] == p && b + [] == b;
      assert TakeDelimited(p) == Ok(b, []);
      assert DecMessage(f.sub, start, b) == Ok(st.msg, []);
      assert SlotsOf(f, base) == base.slots;
    } else {
      d' := LeafRoundTrip(f, d, base, []);
      assert p + [] == p;
    }
  }

  lemma ItemsRoundTrip(fields: seq<Field>, st: State, i: nat, items: seq<Datum>, n: nat, k: nat, e: bytes)
                       returns (st': State)
    requires WellFormed(fields) && i < |fields| && !Packable(fields[i]) && GoodItems(fields[i], items, n) && k < n
    requires ArrayAt(fields, st, i, items, k)
    requires EncTaggedItems(fields[i], items[k..n]) == Some(e) && |e| < TWO32
    ensures Runs(fields, st, e, st') && ArrayAt(fields, st', i, items, n) && OnlyArray(fields, st, st', i)
    decreases fields[i], 1, n - k
  {
    hide ShapedDatum, ViewDatum, ValidDatum, EncDatum, DecDatum, DecLoop, EncVarint, StartFixed;
    var f := fields[i];
    var ds := items[k..n];
    assert ds[0] == items[k] && ds[1..] == items[k + 1..n];
    assert WellFormedField(f);
    var p := EncDatum(f, items[k]).value;
    var a := EncTag(f.tag, WireType(f)) + p;
    var b := EncTaggedItems(f, items[k + 1..n]).value;
    assert e == a + b;
    var d := DatumRoundTrip(f, items[k], st.msg[i].items[k], p);
    var st1 := ElementRuns(fields, st, i, items, k, p, d);
    if k + 1 == n {
      assert items[k + 1..n] == [] && e == a;
      st' := st1;
    } else {
      st' := ItemsRoundTrip(fields, st1, i, items, n, k + 1, b);
      DecLoopResumes(fields, st, a, st1, b);
    }
  }

  /** A packed or element-wise array that is not empty. */
  lemma ArrayRoundTrip(fields: seq<Field>, st: State, i: nat, items: seq<Datum>, n: nat, e: bytes) returns (st': State)
    requires WellFormed(fields) && i < |fields| && GoodItems(fields[i], items, n) && 0 < n
    requires ArrayAt(fields, st, i, items, 0)
    requires EncArray(fields[i], items, n) == Some(e) && |e| < TWO32
    ensures Runs(fields, st, e, st') && ArrayAt(fields, st', i, items, n) && OnlyArray(fields, st, st', i)
    decreases fields[i], 2
  {
    hide ShapedDatum, ViewDatum, ValidDatum, EncDatum, DecDatum, DecLoop, EncVarint;
    var f := fields[i];
    assert items[0..n] == items[..n] && WellFormedField(f);
    if Packable(f) {
      var p := EncItems(f, items[..n]).value;
      var its := PackedRoundTrip(f, items, n, st.msg[i].items, 0, p);
      var st1 := StartFixed(fields, st, i).value;
      var (slot, got) := Counted(f, its, n, st.msg[i].count, st1.got);
      st' := State(st.msg[i := slot], st.seen, st1.fixed, got);
      DelimitedPrefix(p, []);
      assert EncDelimited(p) + [] == EncDelimited(p) && p + [] == p;
      assert TakeDelimited(EncDelimited(p)) == Ok(p, []);
      assert DecSlot(fields, f, WT_STRING, st.msg[i], st1.got, EncDelimited(p)) == Ok((slot, got), []);
      RecordRuns(fields, st, i, WT_STRING, EncDelimited(p), st');
    } else {
      st' := ItemsRoundTrip(fields, st, i, items, n, 0, e);
    }
  }

  /** A single entry: required, optional or oneof. */
  lemma SingleRuns(fields: seq<Field>, m: Message, i: nat, st: State, p: bytes, d: Datum) returns (st': State)
    requires WellFormed(fields) && |m| == |fields| && i < |fields| && Progress(fields, m, i, st)
    requires !fields[i].htype.Repeated? && ShapedSlot(fields[i], m[Home(fields, i)])
    requires var s := m[Home(fields, i)]; if s.Union? then s.which == fields[i].tag else HasFlag(fields[i]) ==> s.has
    requires var c := st.msg[Home(fields, i)];
             (c.Union? || c.One?) &&
                 DecDatum(fields[i], if c.Union? then UnionStart(fields[i], 0, c.data) else c.data, p) == Ok(d, [])
    requires ShapedDatum(fields[i], d) && ViewDatum(fields[i], d) == ViewDatum(fields[i], m[Home(fields, i)].data)
    ensures Runs(fields, st, EncTag(fields[i].tag, WireType(fields[i])) + p, st')
    ensures Progress(fields, m, i + 1, st')
  {
    hide ShapedDatum, ViewDatum, DecDatum, EncVarint, DecLoop, Home, UnionStart, Default, FreshDatum;
    var f, h := fields[i], Home(fields, i);
    var c := st.msg[h];
    assert FieldProgress(fields, m, i, i, st) && WellFormedField(f);
    assert c.Union? ==> c.which == 0;
    var slot := if c.Union? then Union(f.tag, d) else One(c.has || HasFlag(f), d);
    st' := State(st.msg[h := slot], MarkSeen(fields, st.seen, i), st.fixed, st.got);
    assert DecSlot(fields, f, WireType(f), c, st.got, p) == Ok((slot, st.got), []);
    RecordRuns(fields, st, i, WireType(f), p, st');
    assert Stores(fields, m, i, st, slot, st');
    ProgressStep(fields, m, i, st, slot, st');
  }

  lemma SingleStart(fields: seq<Field>, m: Message, i: nat, st: State)
    requires WellFormed(fields) && |m| == |fields| && i < |fields| && Progress(fields, m, i, st) &&
             !fields[i].htype.Repeated?
    ensures var c := st.msg[Home(fields, i)];
            && (c.Union? || c.One?)
            && var base := if c.Union? then UnionStart(fields[i], 0, c.data) else c.data;
               ShapedDatum(fields[i], base) && (fields[i].ltype.LSubmessage? ==> FreshDatum(fields[i], base))
  {
    hide ShapedDatum, ShapedSlot, FreshDatum, FreshSlot, UnionStart, Home;
    assert FieldProgress(fields, m, i, i, st) && WellFormedField(fields[i]);
    SlotStart(fields[i], st.msg[Home(fields, i)]);
  }

  lemma SlotStart(f: Field, c: Slot)
    requires WellFormedField(f) && !f.htype.Repeated? && ShapedSlot(f, c) && (c.Union? || FreshSlot(f, c))
    ensures c.Union? || c.One?
    ensures var base := if c.Union? then UnionStart(f, 0, c.data) else c.data;
            ShapedDatum(f, base) && (f.ltype.LSubmessage? ==> FreshDatum(f, base))
  {
    if c.Union? {
      ZeroShapedDatum(f);
      DefaultFreshDatum(f, ZeroDatum(f));
    }
  }

  lemma SlotRoundTrip(fields: seq<Field>, m: Message, i: nat, st: State, a: bytes) returns (st': State)
    requires WellFormed(fields) && Shaped(fields, m) && Valid(fields, m) && i < |fields| && Progress(fields, m, i, st)
    requires EncSlot(fields[i], m[Home(fields, i)]) == Some(a) && |a| < TWO32
    ensures Runs(fields, st, a, st') && Progress(fields, m, i + 1, st')
    decreases fields, 0
  {
    var f, s := fields[i], m[Home(fields, i)];
    assert WellFormedField(f) && ShapedSlot(f, s) && ValidSlot(f, s);
    if a == [] {
      ProgressSkip(fields, m, i, st);
      st' := st;
    } else if f.htype.Repeated? {
      st' := RepeatedRoundTrip(fields, m, i, st, a);
    } else {
      SingleStart(fields, m, i, st);
      var c := st.msg[Home(fields, i)];
      var base := if c.Union? then UnionStart(f, 0, c.data) else c.data;
      var p := EncDatum(f, s.data).value;
      var d := DatumRoundTrip(f, s.data, base, p);
      st' := SingleRuns(fields, m, i, st, p, d);
    }
  }

  lemma RepeatedRoundTrip(fields: seq<Field>, m: Message, i: nat, st: State, a: bytes) returns (st': State)
    requires WellFormed(fields) && Shaped(fields, m) && Valid(fields, m) && i < |fields| && Progress(fields, m, i, st)
    requires fields[i].htype.Repeated? && a != []
    requires EncSlot(fields[i], m[Home(fields, i)]) == Some(a) && |a| < TWO32
    ensures Runs(fields, st, a, st') && Progress(fields, m, i + 1, st')
    decreases fields[i], 3
  {
    hide ShapedDatum, ViewDatum, ValidDatum, EncDatum, DecDatum, DecLoop, EncVarint, FreshDatum;
    var f, s := fields[i], m[i];
    assert WellFormedField(f) && ShapedSlot(f, s) && ValidSlot(f, s) && FieldProgress(fields, m, i, i, st);
    var n := Present(f, s);
    assert ArrayAt(fields, st, i, s.items, 0);
    st' := ArrayRoundTrip(fields, st, i, s.items, n, a);
    ArrayStores(fields, m, i, st, st', n);
    ProgressStep(fields, m, i, st, st'.msg[i], st');
  }

  lemma ArrayStores(fields: seq<Field>, m: Message, i: nat, st: State, st': State, n: nat)
    requires |m| == |fields| && i < |fields| && fields[i].htype.Repeated? && m[i].Many? &&
             n == Present(fields[i], m[i]) <= |m[i].items|
    requires |st.msg| == |fields| && st.msg[i].Many? && OnlyArray(fields, st, st', i) && 0 < n
    requires ArrayAt(fields, st', i, m[i].items, n)
    ensures Stores(fields, m, i, st, st'.msg[i], st')
    ensures FixedComplete(fields, st) ==> FixedComplete(fields, st')
  {
    hide ShapedDatum, ViewDatum;
    var f := fields[i];
    assert ViewSlot(f, st'.msg[i]) == ViewSlot(f, m[i]);
  }

  lemma FromRoundTrip(fields: seq<Field>, m: Message, i: nat, st: State, e: bytes) returns (st': State)
    requires WellFormed(fields) && |m| == |fields| && Shaped(fields, m) && Valid(fields, m) && i <= |fields| &&
             Progress(fields, m, i, st)
    requires EncFrom(fields, m, i) == Some(e) && |e| < TWO32
    ensures Runs(fields, st, e, st') && Progress(fields, m, |fields|, st')
    decreases fields, 1, |fields| - i
  {
    hide WellFormed, Shaped, Valid, FieldProgress, EncSlot, DecRecord;
    st' := st;
    if i < |fields| {
      var a := EncSlot(fields[i], m[Home(fields, i)]).value;
      var b := EncFrom(fields, m, i + 1).value;
      assert e == a + b;
      var st1 := SlotRoundTrip(fields, m, i, st, a);
      st' := FromRoundTrip(fields, m, i + 1, st1, b);
      DecLoopResumes(fields, st, a, st1, b);
    }
  }

  /** The decoder loop, started on a structure set to defaults, turns the encoding of m into a structure
      that looks like m, and every check after the loop passes. */
  lemma MessageRoundTrip(fields: seq<Field>, m: Message, base: Message, e: bytes) returns (st: State)
    requires WellFormed(fields) && Shaped(fields, m) && Valid(fields, m) && Fresh(fields, base)
    requires EncMessage(fields, m) == Some(e) && |e| < TWO32
    ensures Runs(fields, Initial(base), e, st) && Complete(fields, st)
    ensures Shaped(fields, st.msg) && ViewMessage(fields, st.msg) == ViewMessage(fields, m)
    decreases fields, 2
  {
    hide WellFormed, Valid, EncSlot, DecRecord, ViewSlot;
    assert forall j :: 0 <= j < |fields| ==> FieldProgress(fields, m, 0, j, Initial(base));
    st := FromRoundTrip(fields, m, 0, Initial(base), e);
    ProgressDone(fields, m, st);
  }

  lemma ProgressDone(fields: seq<Field>, m: Message, st: State)
    requires |m| == |fields| && Progress(fields, m, |fields|, st)
    ensures Complete(fields, st) && Shaped(fields, st.msg) && ViewMessage(fields, st.msg) == ViewMessage(fields, m)
  {
    hide ViewSlot, ShapedSlot, FixedComplete, ReqIndex, Home;
    forall k | 0 <= k < TrackedRequired(fields) ensures k in st.seen {
      var j := RequiredAt(fields, |fields|, k);
      assert FieldProgress(fields, m, |fields|, j, st);
    }
    ProgressViews(fields, m, st);
  }

  lemma ProgressViews(fields: seq<Field>, m: Message, st: State)
    requires |m| == |fields| && Progress(fields, m, |fields|, st)
    ensures Shaped(fields, st.msg) && ViewMessage(fields, st.msg) == ViewMessage(fields, m)
  {
    hide ViewSlot, ShapedSlot, FixedComplete, ReqIndex, Home;
    forall j | 0 <= j < |fields|
      ensures ShapedSlot(fields[j], st.msg[Home(fields, j)])
      ensures ViewSlot(fields[j], st.msg[Home(fields, j)]) == ViewSlot(fields[j], m[Home(fields, j)])
    {
      assert FieldProgress(fields, m, |fields|, j, st);
    }
  }

  /** The field that carries a required index. */
  lemma {:induction false} RequiredAt(fields: seq<Field>, n: nat, k: nat) returns (j: nat)
    requires n <= |fields| && k < ReqIndex(fields, n)
    ensures j < n && fields[j].htype.Required? && ReqIndex(fields, j) == k
    decreases n
  {
    if ReqIndex(fields, n - 1) == k { j := n - 1; } else { j := RequiredAt(fields, n - 1, k); }
  }

  /** pb_decode undoes pb_encode: for every valid structure and any previous contents of the destination,
      decoding succeeds, consumes every byte and yields the same structure for its user. */
  lemma EncodeDecode(fields: seq<Field>, m: Message, dest: Message)
    requires WellFormed(fields) && Shaped(fields, m) && Valid(fields, m) && Shaped(fields, dest)
    ensures EncMessage(fields, m).Some?
    ensures |EncMessage(fields, m).value| < TWO32 ==>
              var r := Decode(fields, dest, EncMessage(fields, m).value);
              r.Ok? && r.rest == [] && ViewMessage(fields, r.value) == ViewMessage(fields, m)
  {
    MessageEncodes(fields, m);
    var e := EncMessage(fields, m).value;
    if |e| < TWO32 {
      DefaultFresh(fields, dest);
      var st := MessageRoundTrip(fields, m, Default(fields, dest), e);
    }
  }
}
