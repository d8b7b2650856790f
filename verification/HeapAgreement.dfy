/** The decoder with allocation and the decoder for static fields are the same function where both apply:
    on message types without pointers it accepts the same inputs, consumes the same bytes, counts the same
    elements and never touches the heap. */
module HeapAgreement {
  import opened Wire
  import opened Descriptor
  import opened Options
  import opened DecodeSpec
  import opened HeapDecoder
  import opened Ownership
  import opened HeapRelease
  import opened HeapWipes
  import opened HeapDefaults

  /** The nested descriptor of a submessage field is that of the type it names, at every level of ty. */
  predicate Embedded(types: Schema, ty: nat)
    decreases ty
  {
    ty < |types| &&
    forall i :: 0 <= i < |types[ty]| && types[ty][i].f.ltype.LSubmessage? ==>
      types[ty][i].sub < ty && types[ty][i].f.sub == Bare(types[types[ty][i].sub]) && Embedded(types, types[ty][i].sub)
  }

  predicate StaticType(types: Schema, ty: nat) {
    SoundSchema(types) && Embedded(types, ty) && Pointerless(types, ty)
  }

  // ---------------------------------------------------------------- the same structure in both models

  predicate SameVal(types: Schema, p: PField, v: Val, d: Datum)
    decreases v
  {
    if p.f.ltype.LSubmessage? then v.Struct? && d.Sub? && Same(types, p.sub, v.slots, d.slots) else v.Plain?
  }

  predicate SameSlot(types: Schema, p: PField, slot: PSlot, s: Slot)
    decreases slot
  {
    match p.f.htype
    case Repeated =>
      && s.Many? && slot.size == s.count && |slot.vals| == |s.items| == p.f.arraySize
      && forall k :: 0 <= k < |slot.vals| ==> SameVal(types, p, slot.vals[k], s.items[k])
    case Oneof =>
      && s.Union? && slot.size == s.which
      && (s.which == p.f.tag ==> |slot.vals| == 1 && SameVal(types, p, slot.vals[0], s.data))
    case _ => s.One? && |slot.vals| == 1 && SameVal(types, p, slot.vals[0], s.data)
  }

  predicate Same(types: Schema, ty: nat, slots: seq<PSlot>, m: Message)
    decreases slots
  {
    && ty < |types| && |slots| == |m| == |types[ty]|
    && forall i :: 0 <= i < |slots| ==>
         SameSlot(types, types[ty][i], slots[Home(Bare(types[ty]), i)], m[Home(Bare(types[ty]), i)])
  }

  lemma SameAt(types: Schema, ty: nat, slots: seq<PSlot>, m: Message, i: nat)
    requires Same(types, ty, slots, m) && i < |slots|
    ensures ty < |types| && |slots| == |m| == |types[ty]|
    ensures SameSlot(types, types[ty][i], slots[Home(Bare(types[ty]), i)], m[Home(Bare(types[ty]), i)])
  {
  }

  lemma SameLength(types: Schema, ty: nat, slots: seq<PSlot>, m: Message)
    requires Same(types, ty, slots, m)
    ensures ty < |types| && |slots| == |m| == |types[ty]|
  {
  }

  lemma StaticField(types: Schema, ty: nat, i: nat)
    requires ty < |types| && i < |types[ty]| && StaticType(types, ty)
    ensures var p := types[ty][i];
            && !IsPointer(p) && SoundField(types, ty, p) && Bare(types[ty])[i] == p.f && DistinctTags(Bare(types[ty]))
            && (p.f.ltype.LSubmessage? ==> p.sub < ty && StaticType(types, p.sub) && p.f.sub == Bare(types[p.sub]))
  {
    SchemaField(types, ty, i);
  }

  // ---------------------------------------------------------------- defaults

  lemma {:induction false} BlankSame(types: Schema, ty: nat)
    requires StaticType(types, ty)
    ensures Same(types, ty, Blank(types, ty), ZeroMessage(Bare(types[ty])))
    decreases ty
  {
    hide StaticType, Bare, SameSlot, BlankSlot, ZeroSlot, Pointerless;
    StaticPointerless(types, ty);
    assert |Bare(types[ty])| == |types[ty]|;
    forall i | 0 <= i < |types[ty]|
      ensures var at := Home(Bare(types[ty]), i);
              SameSlot(types, types[ty][i], Blank(types, ty)[at], ZeroMessage(Bare(types[ty]))[at])
    {
      StaticField(types, ty, i);
      if types[ty][i].f.ltype.LSubmessage? { BlankSame(types, types[ty][i].sub); }
      BlankSlotSame(types, ty, i);
    }
  }

  lemma BlankSlotSame(types: Schema, ty: nat, i: nat)
    requires ty < |types| && i < |types[ty]| && StaticType(types, ty)
    requires var p := types[ty][i];
             p.f.ltype.LSubmessage? ==> p.sub < ty && Same(types, p.sub, Blank(types, p.sub), ZeroMessage(p.f.sub))
    ensures var at := Home(Bare(types[ty]), i);
            SameSlot(types, types[ty][i], BlankSlot(types, ty, at), ZeroSlot(Bare(types[ty])[at]))
  {
    hide StaticType, Same, Blank, ZeroMessage, Pointerless;
    StaticField(types, ty, i);
    var at := Home(Bare(types[ty]), i);
    assert Bare(types[ty])[at] == types[ty][at].f;
    var p := types[ty][i];
    if !p.f.htype.Oneof? { assert SameVal(types, p, BlankEntry(types, ty, p), ZeroDatum(p.f)); }
    else { TagPositive(types, ty, p); }
  }

  lemma {:induction false} WipedValSame(types: Schema, ty: nat, p: PField, v: Val, d: Datum, c: int)
    requires SameVal(types, p, v, d)
    requires p.f.ltype.LSubmessage? ==> p.sub < ty && StaticType(types, p.sub) && p.f.sub == Bare(types[p.sub])
    ensures SameVal(types, p, WipedVal(types, ty, p, v, c), WipedDatum(p.f, d, c))
    decreases ty, 0
  {
    hide StaticType, Same, WipedSlots, Wiped;
    if p.f.ltype.LSubmessage? && c > 0 { WipedSame(types, p.sub, v.slots, d.slots, c); }
  }

  lemma {:induction false} WipedSame(types: Schema, ty: nat, slots: seq<PSlot>, m: Message, c: int)
    requires StaticType(types, ty) && Same(types, ty, slots, m)
    ensures Same(types, ty, WipedSlots(types, ty, slots, c), Wiped(Bare(types[ty]), m, c))
    decreases ty, 3
  {
    hide StaticType, Bare, SameSlot, WipedSlots, Wiped;
    SameLength(types, ty, slots, m);
    forall i | 0 <= i < |slots|
      ensures var at := Home(Bare(types[ty]), i);
              SameSlot(types, types[ty][i], WipedSlots(types, ty, slots, c)[at], Wiped(Bare(types[ty]), m, c)[at])
    {
      WipedFieldSame(types, ty, slots, m, c, i);
    }
  }

  lemma {:induction false} WipedFieldSame(types: Schema, ty: nat, slots: seq<PSlot>, m: Message, c: int, i: nat)
    requires StaticType(types, ty) && Same(types, ty, slots, m) && i < |slots|
    ensures |slots| == |m| == |types[ty]|
    ensures var at := Home(Bare(types[ty]), i);
            SameSlot(types, types[ty][i], WipedSlots(types, ty, slots, c)[at], Wiped(Bare(types[ty]), m, c)[at])
    decreases ty, 2
  {
    hide StaticType, Same, SameSlot, WipedSlots, Wiped, WipedPSlot, WipedSlot, DataOffset, SizeOffset;
    SameAt(types, ty, slots, m, i);
    StaticField(types, ty, i);
    var fields := Bare(types[ty]);
    var p, at := types[ty][i], Home(fields, i);
    WipedSlotAt(types, ty, slots, c, i);
    WipedAt(fields, m, c, i);
    var data, size := c - DataOffset(fields, at), c - SizeOffset(fields, at);
    assert fields[at] == types[ty][at].f;
    if p.f.htype.Oneof? {
      TagPositive(types, ty, p);
      WipedUnionSame(types, ty, p, types[ty][at], slots[at], m[at], data, size);
    } else {
      WipedPlaceSame(types, ty, p, slots[i], m[i], data, size);
    }
  }

  lemma WipedUnionSame(types: Schema, ty: nat, p: PField, home: PField, slot: PSlot, s: Slot, data: int, size: int)
    requires p.f.htype.Oneof? && home.f.htype.Oneof? && p.f.tag >= 1 && SameSlot(types, p, slot, s)
    ensures SameSlot(types, p, WipedPSlot(types, ty, home, slot, data, size), WipedSlot(home.f, s, data, size))
  {
    hide SameVal;
  }

  lemma {:induction false} WipedPlaceSame(types: Schema, ty: nat, p: PField, slot: PSlot, s: Slot, data: int, size: int)
    requires !IsPointer(p) && !p.f.htype.Oneof? && SameSlot(types, p, slot, s)
    requires p.f.ltype.LSubmessage? ==> p.sub < ty && StaticType(types, p.sub) && p.f.sub == Bare(types[p.sub])
    ensures SameSlot(types, p, WipedPSlot(types, ty, p, slot, data, size), WipedSlot(p.f, s, data, size))
    decreases ty, 1
  {
    hide StaticType, SameVal, WipedVal, WipedDatum;
    if p.f.htype.Repeated? {
      forall k | 0 <= k < |slot.vals|
        ensures SameVal(types, p, WipedVals(types, ty, p, slot.vals, data)[k], WipedItems(p.f, s.items, data)[k])
      {
        WipedValSame(types, ty, p, slot.vals[k], s.items[k], data - k * p.f.dataSize);
      }
    } else {
      WipedValSame(types, ty, p, slot.vals[0], s.data, data);
      assert data - 0 * p.f.dataSize == data;
    }
  }

  lemma {:induction false} DefaultsSame(types: Schema, ty: nat, slots: seq<PSlot>, m: Message)
    requires StaticType(types, ty) && Same(types, ty, slots, m)
    ensures Same(types, ty, Defaults(types, ty, slots), Default(Bare(types[ty]), m))
    decreases ty, 1
  {
    hide StaticType, Bare, SameSlot, DefaultPSlot, DefaultSlot;
    forall i | 0 <= i < |slots|
      ensures var at := Home(Bare(types[ty]), i);
              SameSlot(types, types[ty][i], Defaults(types, ty, slots)[at], Default(Bare(types[ty]), m)[at])
    {
      DefaultSlotSame(types, ty, slots, m, i);
    }
  }

  lemma {:induction false} DefaultSlotSame(types: Schema, ty: nat, slots: seq<PSlot>, m: Message, i: nat)
    requires StaticType(types, ty) && Same(types, ty, slots, m) && i < |slots|
    ensures |slots| == |m| == |types[ty]|
    ensures var at := Home(Bare(types[ty]), i);
            SameSlot(types, types[ty][i], DefaultPSlot(types, ty, at, slots[at]),
                DefaultSlot(Bare(types[ty])[at], m[at]))
    decreases ty, 0
  {
    hide StaticType, Same, Blank, ZeroMessage, Pointerless, Default, Defaults;
    SameAt(types, ty, slots, m, i);
    StaticField(types, ty, i);
    var at := Home(Bare(types[ty]), i);
    assert Bare(types[ty])[at] == types[ty][at].f;
    var p := types[ty][i];
    if p.f.htype.Oneof? {
      TagPositive(types, ty, p);
    } else if !p.f.htype.Repeated? && p.f.ltype.LSubmessage? {
      var d := m[at].data;
      assert SameVal(types, p, slots[at].vals[0], d);
      SubSlots(types, p, slots[at].vals[0], d);
      DefaultsSame(types, p.sub, slots[at].vals[0].slots, d.slots);
      assert SameVal(types, p, Struct(Defaults(types, p.sub, slots[at].vals[0].slots)), DefaultDatum(p.f, d));
    } else if p.f.htype.Repeated? {
      ArraySame(types, ty, i, slots[i], m[i]);
    }
  }

  /** Both models store the zero count of an array that has no count of its own over its first entries. */
  lemma ArraySame(types: Schema, ty: nat, i: nat, slot: PSlot, s: Slot)
    requires ty < |types| && StaticType(types, ty) && i < |types[ty]| && types[ty][i].f.htype.Repeated? &&
             SameSlot(types, types[ty][i], slot, s)
    ensures SameSlot(types, types[ty][i], DefaultPSlot(types, ty, i, slot), DefaultSlot(types[ty][i].f, s))
  {
    hide StaticType, SameVal, WipedVals, WipedItems;
    StaticField(types, ty, i);
    var p := types[ty][i];
    DefaultArray(types, ty, i, slot);
    if FixedCount(p.f) {
      WipedPlaceSame(types, ty, p, slot, s, COUNT_BYTES, 0);
      assert SameSlot(types, p, PSlot(slot.size, WipedVals(types, ty, p, slot.vals, COUNT_BYTES)),
             Many(s.count, WipedItems(p.f, s.items, COUNT_BYTES)));
    }
  }

  lemma SubSlots(types: Schema, p: PField, v: Val, d: Datum)
    requires p.f.ltype.LSubmessage? && SameVal(types, p, v, d) && p.sub < |types| && p.f.sub == Bare(types[p.sub])
    ensures SlotsOf(p.f, d) == d.slots && Same(types, p.sub, v.slots, SlotsOf(p.f, d))
  {
    hide SameSlot;
  }

  // ---------------------------------------------------------------- releasing nothing

  lemma {:induction false} NothingReleased(types: Schema, ty: nat, slots: seq<PSlot>, n: nat, h: Heap)
    requires Pointerless(types, ty) && |slots| == |types[ty]| && n <= |slots|
    ensures ReleaseUpTo(types, ty, slots, n, h).1 == h
    decreases ty, 2, n
  {
    hide ReleaseCurrent, Bare;
    if n > 0 {
      NothingReleased(types, ty, slots, n - 1, h);
      NothingHere(types, ty, types[ty][n - 1], slots[Home(Bare(types[ty]), n - 1)], h);
    }
  }

  lemma {:induction false} NothingHere(types: Schema, ty: nat, p: PField, slot: PSlot, h: Heap)
    requires !IsPointer(p) && (p.f.ltype.LSubmessage? ==> p.sub < ty && Pointerless(types, p.sub))
    ensures var (slot', h') := ReleaseCurrent(types, p, slot, h); h' == h && slot'.size == slot.size
    decreases ty, 1
  {
    hide ReleaseEntries, Pointerless;
    if p.f.ltype.LSubmessage? { NothingInEntries(types, p.sub, slot.vals, InPlace(p, slot, false), h); }
  }

  lemma {:induction false} NothingInEntries(types: Schema, ty: nat, vals: seq<Val>, n: nat, h: Heap)
    requires Pointerless(types, ty)
    ensures ReleaseEntries(types, ty, vals, n, h).1 == h
    decreases ty, 3, n
  {
    hide ReleaseUpTo, Pointerless;
    if 0 < n <= |vals| {
      NothingInEntries(types, ty, vals, n - 1, h);
      if vals[n - 1].Struct? { NothingInStruct(types, ty, vals[n - 1].slots, h); }
    }
  }

  lemma NothingInStruct(types: Schema, ty: nat, slots: seq<PSlot>, h: Heap)
    requires Pointerless(types, ty)
    ensures Release(types, ty, slots, h).1 == h
    decreases ty, 2, |slots| + 1
  {
    hide ReleaseUpTo;
    if |slots| == |types[ty]| { NothingReleased(types, ty, slots, |slots|, h); }
  }

  // ---------------------------------------------------------------- entries and fields

  /** A leaf is accepted and consumed independently of what its memory held. */
  lemma LeafAgrees(f: Field, d: Datum, s: bytes)
    requires !f.ltype.LSubmessage?
    ensures DecLeaf(f, d, s).Ok? == LeafRest(f, s).Ok?
    ensures LeafRest(f, s).Ok? ==> DecLeaf(f, d, s).rest == LeafRest(f, s).rest
  {
    hide DecVarint32, DecVarint, DecFixed;
  }

  lemma {:induction false} PackedAgrees(f: Field, a: seq<Datum>, b: seq<Datum>, n: nat, s: bytes)
    requires |a| == |b| && Packable(f)
    ensures DecPacked(f, a, n, s).Some? == DecPacked(f, b, n, s).Some?
    ensures DecPacked(f, a, n, s).Some? ==> DecPacked(f, a, n, s).value.1 == DecPacked(f, b, n, s).value.1
    decreases |s|
  {
    hide DecLeaf, LeafRest;
    if s != [] && n < f.arraySize && n < |a| {
      LeafAgrees(f, a[n], s);
      LeafAgrees(f, b[n], s);
      if LeafRest(f, s).Ok? {
        var d, e, rest := DecLeaf(f, a[n], s).value, DecLeaf(f, b[n], s).value, LeafRest(f, s).rest;
        PackedAgrees(f, a[n := d], b[n := e], n + 1, rest);
      }
    }
  }

  /** Both decoders did the same to an entry. */
  predicate EntryAgree(types: Schema, p: PField, h: Heap, r: Out<Val>, q: Res<Datum>) {
    r.heap == h && r.ok == q.Ok? && (r.ok ==> r.rest == q.rest && SameVal(types, p, r.v, q.value))
  }

  lemma {:induction false} EntryAgrees(types: Schema, ty: nat, i: nat, v: Val, d: Datum, h: Heap, s: bytes)
    requires ty < |types| && i < |types[ty]| && StaticType(types, ty) && SameVal(types, types[ty][i], v, d)
    ensures EntryAgree(types, types[ty][i], h, DecHeapEntry(types, types[ty][i], v, h, s),
            DecDatum(types[ty][i].f, d, s))
    decreases |s|, 1
  {
    hide StaticType, Same, HeapDecode, HeapDecodeNoinit, DecMessage, DecLeaf, LeafRest, Default;
    StaticField(types, ty, i);
    var p := types[ty][i];
    if p.f.ltype.LSubmessage? {
      SubSlots(types, p, v, d);
      match TakeDelimited(s)
      case Err =>
      case Ok(body, rest) =>
        if p.f.htype.Repeated? {
          DecodeAgrees(types, p.sub, v.slots, SlotsOf(p.f, d), h, body);
        } else {
          NoinitAgrees(types, p.sub, v.slots, SlotsOf(p.f, d), h, body);
        }
    } else {
      LeafAgrees(p.f, d, s);
    }
  }

  predicate FieldAgree(types: Schema, p: PField, h: Heap, r: Out<(PSlot, nat)>, q: Res<(Slot, nat)>) {
    && r.heap == h && r.ok == q.Ok?
    && (r.ok ==> r.rest == q.rest && r.v.1 == q.value.1 && SameSlot(types, p, r.v.0, q.value.0) && Current(p, r.v.0))
  }

  lemma {:induction false} StaticAgrees(types: Schema, ty: nat, i: nat, wireType: nat, slot: PSlot, sl: Slot, got: nat,
                                        h: Heap, s: bytes)
    requires ty < |types| && i < |types[ty]| && StaticType(types, ty) && SameSlot(types, types[ty][i], slot, sl)
    requires sl.Union? ==> sl.which == 0 || sl.which == types[ty][i].f.tag || Find(Bare(types[ty]), sl.which).Some?
    ensures FieldAgree(types, types[ty][i], h, DecHeapStatic(types, ty, types[ty][i], wireType, slot, got, h, s),
                       DecSlot(Bare(types[ty]), types[ty][i].f, wireType, sl, got, s))
    decreases |s|, 2
  {
    hide StaticType, Same, SameVal, DecHeapEntry, DecDatum, DecPacked, Default, Defaults, Blank, ZeroMessage;
    hide TakeDelimited;
    StaticField(types, ty, i);
    var p := types[ty][i];
    match p.f.htype
    case Repeated =>
      var n := if FixedCount(p.f) then got else slot.size;
      if wireType == WT_STRING && Packable(p.f) {
        if TakeDelimited(s).Ok? {
          PackedAgrees(p.f, seq(p.f.arraySize, _ => ZeroDatum(p.f)), sl.items, n, TakeDelimited(s).value);
          if DecPacked(p.f, sl.items, n, TakeDelimited(s).value).Some? {
            PackedKeepsSame(types, p, slot, sl, n, TakeDelimited(s).value);
          }
        }
      } else if n < p.f.arraySize {
        EntryAgrees(types, ty, i, slot.vals[n], sl.items[n], h, s);
      }
    case Oneof =>
      UnionStartSame(types, ty, i, slot, sl);
      EntryAgrees(types, ty, i, HeapStart(types, ty, p, slot), UnionStart(p.f, sl.which, sl.data), h, s);
    case _ =>
      EntryAgrees(types, ty, i, slot.vals[0], sl.data, h, s);
  }

  /** What a union member is decoded into. */
  function HeapStart(types: Schema, ty: nat, p: PField, slot: PSlot): Val
    requires ty < |types|
  {
    if !p.f.ltype.LSubmessage? then Plain
    else if slot.size != p.f.tag || |slot.vals| != 1 then
      if p.sub < ty then Struct(Defaults(types, p.sub, Blank(types, p.sub))) else Plain
    else slot.vals[0]
  }

  lemma UnionStartSame(types: Schema, ty: nat, i: nat, slot: PSlot, sl: Slot)
    requires ty < |types| && i < |types[ty]| && StaticType(types, ty) && SameSlot(types, types[ty][i], slot, sl) &&
             types[ty][i].f.htype.Oneof?
    ensures SameVal(types, types[ty][i], HeapStart(types, ty, types[ty][i], slot),
            UnionStart(types[ty][i].f, sl.which, sl.data))
  {
    hide StaticType, Same, Default, Defaults, Blank, ZeroMessage;
    StaticField(types, ty, i);
    var p := types[ty][i];
    if p.f.ltype.LSubmessage? && sl.which != p.f.tag {
      BlankSame(types, p.sub);
      DefaultsSame(types, p.sub, Blank(types, p.sub), ZeroMessage(p.f.sub));
    }
  }

  lemma PackedKeepsSame(types: Schema, p: PField, slot: PSlot, sl: Slot, n: nat, body: bytes)
    requires p.f.htype.Repeated? && Packable(p.f) && SameSlot(types, p, slot, sl) &&
             DecPacked(p.f, sl.items, n, body).Some?
    ensures var (items, n') := DecPacked(p.f, sl.items, n, body).value;
            && SameSlot(types, p, slot, sl.(items := items))
            && SameSlot(types, p, slot.(size := n'), Many(n', items))
  {
    hide DecPacked;
  }

  lemma {:induction false} FieldAgrees(types: Schema, ty: nat, i: nat, wireType: nat, slot: PSlot, sl: Slot, got: nat,
                                       h: Heap, s: bytes)
    requires ty < |types| && i < |types[ty]| && StaticType(types, ty) && SameSlot(types, types[ty][i], slot, sl)
    ensures FieldAgree(types, types[ty][i], h, DecHeapField(types, ty, types[ty][i], wireType, slot, got, h, s),
                       DecSlot(Bare(types[ty]), types[ty][i].f, wireType, sl, got, s))
    decreases |s|, 3
  {
    hide StaticType, SameVal, DecHeapStatic, ReleaseCurrent, DecDatum, DecPacked;
    StaticField(types, ty, i);
    var p := types[ty][i];
    if p.f.htype.Oneof? && slot.size != 0 && slot.size != p.f.tag {
      match Find(Bare(types[ty]), slot.size)
      case None =>
      case Some(j) =>
        StaticField(types, ty, j);
        assert Bare(types[ty])[j] == types[ty][j].f;
        StaticIsPointerless(types, ty, j);
        NothingHere(types, ty, types[ty][j], slot, h);
        var released := ReleaseCurrent(types, types[ty][j], slot, h).0;
        StaticAgrees(types, ty, i, wireType, released, sl, got, h, s);
    } else {
      StaticAgrees(types, ty, i, wireType, slot, sl, got, h, s);
    }
  }

  lemma StaticIsPointerless(types: Schema, ty: nat, j: nat)
    requires ty < |types| && j < |types[ty]| && StaticType(types, ty)
    ensures var p := types[ty][j]; !IsPointer(p) && (p.f.ltype.LSubmessage? ==> p.sub < ty && Pointerless(types, p.sub))
  {
  }

  // ---------------------------------------------------------------- messages

  lemma StoreSame(types: Schema, ty: nat, slots: seq<PSlot>, m: Message, i: nat, slot: PSlot, sl: Slot)
    requires StaticType(types, ty) && Same(types, ty, slots, m) && i < |slots|
    requires ty < |types| && |slots| == |m| == |types[ty]|
    requires SameSlot(types, types[ty][i], slot, sl) && Current(types[ty][i], slot)
    ensures Same(types, ty, slots[Home(Bare(types[ty]), i) := slot], m[Home(Bare(types[ty]), i) := sl])
  {
    hide StaticType, SameVal, Bare;
    var at := Home(Bare(types[ty]), i);
    forall j | 0 <= j < |slots|
      ensures SameSlot(types, types[ty][j], slots[at := slot][Home(Bare(types[ty]), j)],
              m[at := sl][Home(Bare(types[ty]), j)])
    {
      SameAt(types, ty, slots, m, j);
      if Home(Bare(types[ty]), j) == at && j != i { DifferentMembers(types, ty, i, j); }
    }
  }

  lemma DifferentMembers(types: Schema, ty: nat, i: nat, j: nat)
    requires ty < |types| && i < |types[ty]| && StaticType(types, ty) && j < |types[ty]| && i != j
    requires Home(Bare(types[ty]), i) == Home(Bare(types[ty]), j)
    ensures types[ty][i].f.htype.Oneof? && types[ty][j].f.htype.Oneof? && types[ty][i].f.tag != types[ty][j].f.tag
  {
    hide StaticType;
    StaticField(types, ty, i);
    var fields := Bare(types[ty]);
    assert fields[i] == types[ty][i].f && fields[j] == types[ty][j].f;
    assert fields[i].htype.Oneof? && fields[j].htype.Oneof?;
    if i < j { assert fields[i].tag != fields[j].tag; } else { assert fields[j].tag != fields[i].tag; }
  }

  /** The control state of both loops is the same. */
  predicate SameControl(c: State, st: State) {
    c.seen == st.seen && c.fixed == st.fixed && c.got == st.got
  }

  lemma {:induction false} LoopAgrees(types: Schema, ty: nat, slots: seq<PSlot>, c: State, st: State, h: Heap, s: bytes)
    requires StaticType(types, ty) && Same(types, ty, slots, st.msg) && SameControl(c, st)
    requires ty < |types| && |slots| == |st.msg| == |types[ty]|
    ensures var (r, c') := HeapLoop(types, ty, slots, c, h, s); var q := DecLoop(Bare(types[ty]), st, s);
            && r.heap == h && r.ok == q.Done?
            && (r.ok ==> r.rest == q.rest && Same(types, ty, r.v, q.st.msg) && SameControl(c', q.st))
    decreases |s|, 4
  {
    hide StaticType, Same, Bare, DecHeapField, DecSlot, SkipUnknown, DecVarint32, MarkSeen, SameSlot;
    var fields := Bare(types[ty]);
    if s != [] && DecVarint32(s).Ok? && DecVarint32(s).value != 0 {
      var key, rest := DecVarint32(s).value, DecVarint32(s).rest;
      match Find(fields, key / 8)
      case None =>
        var r := SkipUnknown(fields, key / 8, key % 8, rest);
        if r.Ok? { LoopAgrees(types, ty, slots, c, st, h, r.rest); }
      case Some(i) =>
        if StartFixed(fields, st, i).Some? {
          var c1, st1 := StartFixed(fields, c, i).value, StartFixed(fields, st, i).value;
          var at := Home(fields, i);
          SameAt(types, ty, slots, st.msg, i);
          StaticField(types, ty, i);
          FieldAgrees(types, ty, i, key % 8, slots[at], st.msg[at], st1.got, h, rest);
          var r := DecHeapField(types, ty, types[ty][i], key % 8, slots[at], c1.got, h, rest);
          var q := DecSlot(fields, fields[i], key % 8, st1.msg[at], st1.got, rest);
          assert FieldAgree(types, types[ty][i], h, r, q);
          var seen := MarkSeen(fields, st1.seen, i);
          assert DecRecord(fields, st, s) ==
                 if q.Ok? then Next(State(st1.msg[at := q.value.0], seen, st1.fixed, q.value.1), q.rest) else Fail;
          if r.ok {
            StoreSame(types, ty, slots, st.msg, i, r.v.0, q.value.0);
            LoopAgrees(types, ty, slots[at := r.v.0], State([], seen, c1.fixed, r.v.1),
                       State(st1.msg[at := q.value.0], seen, st1.fixed, q.value.1), h, r.rest);
          }
        } else {
          assert StartFixed(fields, c, i).None?;
          assert DecRecord(fields, st, s) == Fail;
        }
    }
  }

  predicate MessageAgree(types: Schema, ty: nat, h: Heap, r: Out<seq<PSlot>>, q: Res<Message>) {
    r.heap == h && r.ok == q.Ok? && (r.ok ==> r.rest == q.rest && Same(types, ty, r.v, q.value))
  }

  lemma {:induction false} NoinitAgrees(types: Schema, ty: nat, slots: seq<PSlot>, m: Message, h: Heap, s: bytes)
    requires StaticType(types, ty) && Same(types, ty, slots, m) && |m| == |Bare(types[ty])|
    ensures MessageAgree(types, ty, h, HeapDecodeNoinit(types, ty, slots, h, s), DecMessage(Bare(types[ty]), m, s))
    decreases |s|, 5
  {
    hide StaticType, Same, Bare, HeapLoop, DecLoop, TrackedRequired;
    SameLength(types, ty, slots, m);
    LoopAgrees(types, ty, slots, State([], {}, None, 0), Initial(m), h, s);
  }

  /** pb_decode: the same inputs are accepted, the same bytes consumed, and the structures correspond. */
  lemma {:induction false} DecodeAgrees(types: Schema, ty: nat, slots: seq<PSlot>, m: Message, h: Heap, s: bytes)
    requires StaticType(types, ty) && Same(types, ty, slots, m)
    ensures MessageAgree(types, ty, h, HeapDecode(types, ty, slots, h, s), Decode(Bare(types[ty]), m, s))
    decreases |s|, 6
  {
    hide StaticType, Same, Bare, HeapDecodeNoinit, DecMessage, Defaults, Default, Release, Owned, Pointerless;
    SameLength(types, ty, slots, m);
    DefaultsSame(types, ty, slots, m);
    var start := Defaults(types, ty, slots);
    NoinitAgrees(types, ty, start, Default(Bare(types[ty]), m), h, s);
    StaticPointerless(types, ty);
    NothingForgotten(types, ty, slots, start, h);
    var r := HeapDecodeNoinit(types, ty, start, h, s);
    if !r.ok { NothingInStruct(types, ty, r.v, r.heap); }
  }

  lemma NothingForgotten(types: Schema, ty: nat, a: seq<PSlot>, b: seq<PSlot>, h: Heap)
    requires Pointerless(types, ty)
    ensures h.(lost := h.lost + (Owned(types, true, ty, a) - Owned(types, true, ty, b))) == h
  {
    hide OwnedUpTo;
    if |a| == |types[ty]| { PointerlessOwnsNothing(types, true, ty, a, |a|); }
    assert Owned(types, true, ty, a) - Owned(types, true, ty, b) == multiset{};
  }

  lemma StaticPointerless(types: Schema, ty: nat)
    requires StaticType(types, ty)
    ensures ty < |types| && Pointerless(types, ty)
  {
  }

  // ---------------------------------------------------------------- pointer fields against static ones

  /** When memory is granted, a pointer string or byte array is accepted exactly like a static one of the
      largest size, and consumes the same bytes. */
  lemma BufferMatches(p: PField, v: Val, d: Datum, h: Heap, s: bytes)
    requires (p.f.ltype.LString? || p.f.ltype.LBytes?) && h.grants == []
    ensures var largest := if p.f.ltype.LString? then TWO32 - 1 else TWO32 - 1 + BYTES_OFFSET;
            var r, q := DecHeapBuffer(p, v, h, s), DecLeaf(p.f.(dataSize := largest), d, s);
            r.ok == q.Ok? && (r.ok ==> r.rest == q.rest)
  {
    hide DecVarint32, Allocate;
    DecVarint32Bound(s);
    if DecVarint32(s).Ok? { OneGranted(v, BufferSize(p, DecVarint32(s).value), h); }
  }

  lemma OneGranted(v: Val, size: nat, h: Heap)
    requires h.grants == [] && size <= SIZE_MAX
    ensures Allocate(v, size, 1, h).0 == (size > 0)
  {
    hide TooLarge;
    TooLargeIsExact(size, 1);
  }

  lemma Granted(v: Val, dataSize: nat, count: nat, h: Heap)
    requires h.grants == [] && 0 < dataSize <= PB_SIZE_MAX && 0 < count <= PB_SIZE_MAX
    ensures var (ok, v', h') := Allocate(v, dataSize, count, h);
            ok && v'.Block? && v'.cap == dataSize * count && h'.grants == []
  {
    hide TooLarge;
    MulMonotone(dataSize, PB_SIZE_MAX, count);
    MulMonotone(count, PB_SIZE_MAX, PB_SIZE_MAX);
    TooLargeIsExact(dataSize, count);
  }

  lemma LeafIgnoresArraySize(f: Field, n: nat, d: Datum, s: bytes)
    requires !f.ltype.LSubmessage?
    ensures DecLeaf(f.(arraySize := n), d, s).Ok? == LeafRest(f, s).Ok?
    ensures LeafRest(f, s).Ok? ==> DecLeaf(f.(arraySize := n), d, s).rest == LeafRest(f, s).rest
  {
    hide DecVarint32, DecVarint, DecFixed;
  }

  lemma WantedFits(p: PField, size: nat, reserved: nat, left: nat)
    requires p.f.dataSize > 0 && left > 0 && size < PB_SIZE_MAX && size <= reserved <= PB_SIZE_MAX
    ensures size < Wanted(p, size, reserved, left) <= PB_SIZE_MAX
  {
  }

  lemma GrownGranted(p: PField, slot: PSlot, reserved: nat, h: Heap, left: nat)
    requires 0 < p.f.dataSize <= PB_SIZE_MAX && left > 0 && |slot.vals| == 1 && h.grants == []
    requires slot.size < PB_SIZE_MAX && slot.size <= reserved <= PB_SIZE_MAX
    requires slot.size < reserved ==> slot.vals[0].Block?
    ensures var (ok, v, h') := Grown(p, slot, reserved, h, left); ok && v.Block? && h'.grants == []
  {
    hide Wanted, Allocate;
    WantedFits(p, slot.size, reserved, left);
    if slot.size + 1 > reserved { Granted(slot.vals[0], p.f.dataSize, Wanted(p, slot.size, reserved, left), h); }
  }

  /** When memory is granted, a packed pointer array accepts exactly the records that a static array with
      room for them, or of the largest size, accepts, and counts the same number of elements. */
  lemma {:induction false} PackedPointersMatch(p: PField, slot: PSlot, reserved: nat, h: Heap, items: seq<Datum>,
                                               s: bytes)
    requires Packable(p.f) && 0 < p.f.dataSize <= PB_SIZE_MAX && h.grants == []
    requires |slot.vals| == 1 && slot.size <= reserved <= PB_SIZE_MAX && (slot.size < reserved ==> slot.vals[0].Block?)
    requires slot.size + |s| <= |items| <= PB_SIZE_MAX || |items| == PB_SIZE_MAX
    ensures var r := DecHeapPacked(p, slot, reserved, h, s);
            var q := DecPacked(p.f.(arraySize := |items|), items, slot.size, s);
            r.ok == q.Some? && (r.ok ==> r.v.size == q.value.1 <= PB_SIZE_MAX && |r.v.vals| == 1)
    decreases |s|
  {
    hide DecLeaf, LeafRest, Wanted, Grown;
    if s != [] && slot.size < PB_SIZE_MAX {
      var f := p.f.(arraySize := |items|);
      LeafIgnoresArraySize(p.f, |items|, items[slot.size], s);
      var wanted := Wanted(p, slot.size, reserved, |s|);
      WantedFits(p, slot.size, reserved, |s|);
      GrownGranted(p, slot, reserved, h, |s|);
      var (ok, v, h1) := Grown(p, slot, reserved, h, |s|);
      if LeafRest(p.f, s).Ok? {
        var (v', h') := Append(v, Plain, p.f.dataSize, h1);
        var d := DecLeaf(f, items[slot.size], s).value;
        PackedPointersMatch(p, PSlot(slot.size + 1, [v']), wanted, h', items[slot.size := d], LeafRest(p.f, s).rest);
      }
    }
  }
}
