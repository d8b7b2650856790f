/** Where the conditions for losing no block and for doing no harm fail, a block is lost or harm is done: for every
    type that can make a delicate array be decoded twice, and every way into it, an input is constructed after which
    a block stays allocated for good, or pb_release frees a pointer of which bytes were overwritten. */
module HeapLeaks {
  import opened Wire
  import opened Descriptor
  import opened Options
  import opened EncodeSpec
  import opened DecodeSpec
  import opened HeapDecoder
  import opened Ownership
  import opened HeapRelease
  import opened HeapDefaults
  import opened HeapSafety
  import opened HeapRuns

  /** A structure as pb_decode finds it after zeroing and default initialisation. */
  function Fresh(types: Schema, ty: nat): (slots: seq<PSlot>)
    requires ty < |types|
    ensures |slots| == |types[ty]|
  {
    Defaults(types, ty, Blank(types, ty))
  }

  /** A record of field f with the given payload, and one whose payload is a message. */
  function Record(f: Field, payload: bytes): bytes {
    EncTag(f.tag, WireType(f)) + payload
  }

  function Nested(f: Field, body: bytes): bytes {
    Record(f, EncDelimited(body))
  }

  // ---------------------------------------------------------------- what is shown of an input

  /** Releasing the structure, the field or the entry does harm, whatever the heap. */
  ghost predicate Doomed(types: Schema, ty: nat, slots: seq<PSlot>) {
    forall h: Heap :: Release(types, ty, slots, h).1.bad
  }

  ghost predicate DoomedSlot(types: Schema, p: PField, slot: PSlot) {
    Current(p, slot) && forall h: Heap :: ReleaseCurrent(types, p, slot, h).1.bad
  }

  ghost predicate DoomedVal(types: Schema, p: PField, v: Val) {
    p.f.ltype.LSubmessage? && v.Struct? && Doomed(types, p.sub, v.slots)
  }

  /** A step loses a block, or it does harm or leaves behind what does harm when it is released. */
  ghost predicate Hit(harm: bool, before: Heap, after: Heap, doomed: bool) {
    if harm then after.bad || doomed else after.lost != before.lost
  }

  ghost predicate Hurts(types: Schema, harm: bool, ty: nat, h: Heap, r: Out<seq<PSlot>>) {
    Hit(harm, h, r.heap, Doomed(types, ty, r.v))
  }

  ghost predicate HurtsVal(types: Schema, harm: bool, p: PField, h: Heap, r: Out<Val>) {
    Hit(harm, h, r.heap, DoomedVal(types, p, r.v))
  }

  ghost predicate HurtsSlot(types: Schema, harm: bool, p: PField, h: Heap, r: Out<(PSlot, nat)>) {
    Hit(harm, h, r.heap, DoomedSlot(types, p, r.v.0))
  }

  lemma HitFrom(harm: bool, a: Heap, b: Heap, c: Heap, doomed: bool)
    requires a.lost <= b.lost <= c.lost && Hit(harm, b, c, doomed)
    ensures Hit(harm, a, c, doomed)
  {
  }

  lemma {:induction false} EntryDoomed(types: Schema, p: PField, vals: seq<Val>, n: nat, k: nat, h: Heap)
    requires k < n <= |vals| && DoomedVal(types, p, vals[k])
    ensures ReleaseEntries(types, p.sub, vals, n, h).1.bad
    decreases n
  {
    hide Release;
    if k < n - 1 {
      EntryDoomed(types, p, vals, n - 1, k, h);
    } else {
      var h1 := ReleaseEntries(types, p.sub, vals, n - 1, h).1;
      assert Release(types, p.sub, vals[k].slots, h1).1.bad;
    }
  }

  /** An entry that is part of the value is released with its field. */
  lemma PlaceDoomed(types: Schema, p: PField, slot: PSlot, k: nat)
    requires !IsPointer(p) && Current(p, slot) && k < InPlace(p, slot, false) <= |slot.vals| &&
             DoomedVal(types, p, slot.vals[k])
    ensures DoomedSlot(types, p, slot)
  {
    hide ReleaseEntries, Doomed;
    forall h: Heap ensures ReleaseCurrent(types, p, slot, h).1.bad {
      EntryDoomed(types, p, slot.vals, InPlace(p, slot, false), k, h);
    }
  }

  lemma PointerDoomed(types: Schema, p: PField, slot: PSlot, k: nat)
    requires IsPointer(p) && Current(p, slot) && |slot.vals| == 1 && slot.vals[0].Block?
    requires k < (if p.f.htype.Repeated? then slot.size else 1) <= |slot.vals[0].items| &&
             DoomedVal(types, p, slot.vals[0].items[k])
    ensures DoomedSlot(types, p, slot)
  {
    hide ReleaseEntries, Doomed;
    forall h: Heap ensures ReleaseCurrent(types, p, slot, h).1.bad {
      EntryDoomed(types, p, slot.vals[0].items, if p.f.htype.Repeated? then slot.size else 1, k, h);
    }
  }

  lemma {:induction false} UpToDoomed(types: Schema, ty: nat, slots: seq<PSlot>, i: nat, n: nat, h: Heap)
    requires ty < |types| && |slots| == |types[ty]| && i < n <= |slots|
    requires DoomedSlot(types, types[ty][i], slots[Home(Bare(types[ty]), i)])
    ensures ReleaseUpTo(types, ty, slots, n, h).1.bad
    decreases n
  {
    hide ReleaseCurrent, Home;
    if i < n - 1 { UpToDoomed(types, ty, slots, i, n - 1, h); }
  }

  lemma SlotDoomed(types: Schema, ty: nat, slots: seq<PSlot>, i: nat)
    requires ty < |types| && |slots| == |types[ty]| && i < |slots|
    requires DoomedSlot(types, types[ty][i], slots[Home(Bare(types[ty]), i)])
    ensures Doomed(types, ty, slots)
  {
    hide DoomedSlot, ReleaseUpTo;
    forall h: Heap ensures Release(types, ty, slots, h).1.bad { UpToDoomed(types, ty, slots, i, |slots|, h); }
  }

  // ---------------------------------------------------------------- one record at a time

  /** What the loop does with a record it starts with. */
  lemma RecordKey(types: Schema, ty: nat, i: nat, payload: bytes, rest: bytes)
    requires SoundSchema(types) && ty < |types| && i < |types[ty]|
    ensures var f := types[ty][i].f; var s := Record(f, payload) + rest;
            && s != [] && f.tag > 0 && DecVarint32(s) == Ok(8 * f.tag + WireType(f), payload + rest)
            && Find(Bare(types[ty]), f.tag) == Some(i)
  {
    hide DecVarint32, EncVarint, SoundSchema, Bare;
    SchemaField(types, ty, i);
    var f := types[ty][i].f;
    var key := 8 * f.tag + WireType(f);
    assert Record(f, payload) + rest == EncVarint(key) + (payload + rest);
    Varint32RoundTrip(key, payload + rest);
    assert |EncVarint(key)| >= 1 by { assert EncTag(f.tag, WireType(f)) == EncVarint(key); }
    assert Bare(types[ty])[i] == f by { BareAt(types[ty], i); }
    FindIsIndex(Bare(types[ty]), i, 0);
  }

  lemma RecordStep(types: Schema, ty: nat, i: nat, slots: seq<PSlot>, c: State, h: Heap, payload: bytes, rest: bytes)
    requires SoundSchema(types) && ty < |types| && |slots| == |types[ty]| && i < |slots|
    ensures var fields := Bare(types[ty]); var f := types[ty][i].f; var at := Home(fields, i);
            var all := HeapLoop(types, ty, slots, c, h, Record(f, payload) + rest);
            match StartFixed(fields, c, i)
            case None => !all.0.ok
            case Some(d) =>
              var r := DecHeapField(types, ty, types[ty][i], WireType(f), slots[at], d.got, h, payload + rest);
              var slots' := slots[at := r.v.0];
              if r.ok then all ==
                  HeapLoop(types, ty, slots', State([], MarkSeen(fields, d.seen, i), d.fixed, r.v.1), r.heap, r.rest)
              else !all.0.ok && all.0.heap == r.heap && all.0.v == slots'
  {
    hide DecHeapField, DecVarint32, EncVarint, SoundSchema, StartFixed, MarkSeen, Bare, Record, WireType, Find, Home;
    RecordKey(types, ty, i, payload, rest);
    WireTypeBound(types[ty][i].f);
  }

  lemma WireTypeBound(f: Field)
    ensures WireType(f) < 8
  {
  }

  lemma BareAt(t: seq<PField>, i: nat)
    requires i < |t|
    ensures Bare(t)[i] == t[i].f
  {
  }

  /** A loop whose last record hurts. */
  lemma LastRecord(types: Schema, harm: bool, ty: nat, i: nat, slots: seq<PSlot>, c: State, h: Heap, payload: bytes)
    requires SoundSchema(types) && ty < |types| && |slots| == |types[ty]| && i < |slots| &&
             StartFixed(Bare(types[ty]), c, i).Some?
    requires var p := types[ty][i]; var got := StartFixed(Bare(types[ty]), c, i).value.got;
             var r := DecHeapField(types, ty, p, WireType(p.f), slots[Home(Bare(types[ty]), i)], got, h, payload + []);
             HurtsSlot(types, harm, p, h, r) && (r.ok ==> r.rest == [])
    ensures Hurts(types, harm, ty, h, HeapLoop(types, ty, slots, c, h, Record(types[ty][i].f, payload)).0)
  {
    hide SoundSchema, HeapLoop, DecHeapField, StartFixed, Record, MarkSeen, Doomed, DoomedSlot;
    var p, at := types[ty][i], Home(Bare(types[ty]), i);
    var d := StartFixed(Bare(types[ty]), c, i).value;
    RecordStep(types, ty, i, slots, c, h, payload, []);
    assert Record(p.f, payload) + [] == Record(p.f, payload);
    var r := DecHeapField(types, ty, p, WireType(p.f), slots[at], d.got, h, payload + []);
    var slots' := slots[at := r.v.0];
    if r.ok { LoopAtEnd(types, ty, slots', State([], MarkSeen(Bare(types[ty]), d.seen, i), d.fixed, r.v.1), r.heap); }
    if DoomedSlot(types, p, r.v.0) { SlotDoomed(types, ty, slots', i); }
  }

  lemma NoinitIs(types: Schema, ty: nat, slots: seq<PSlot>, h: Heap, s: bytes)
    requires ty < |types| && |slots| == |types[ty]|
    ensures var r, q := HeapDecodeNoinit(types, ty, slots, h, s),
            HeapLoop(types, ty, slots, State([], {}, None, 0), h, s).0;
            r.heap == q.heap && r.v == q.v
  {
    hide HeapLoop, Complete;
  }

  lemma NotFixed(types: Schema, ty: nat, q: nat, c: State)
    requires ty < |types| && q < |types[ty]| && !FixedCount(types[ty][q].f)
    ensures StartFixed(Bare(types[ty]), c, q) == Some(c)
  {
    BareAt(types[ty], q);
  }

  /** pb_decode: when the message is refused, releasing the structure takes no loss back and does the harm. */
  lemma DecodeHurts(types: Schema, harm: bool, ty: nat, slots: seq<PSlot>, h: Heap, s: bytes)
    requires ty < |types|
    requires var start := Defaults(types, ty, slots);
             var h1 := h.(lost := h.lost + (Owned(types, true, ty, slots) - Owned(types, true, ty, start)));
             Hurts(types, harm, ty, h, HeapDecodeNoinit(types, ty, start, h1, s))
    ensures Hurts(types, harm, ty, h, HeapDecode(types, ty, slots, h, s))
  {
    hide HeapDecodeNoinit, Defaults, Owned, Release;
  }

  // ---------------------------------------------------------------- inputs that hurt

  /** With memory granted, decoding s into a fresh structure hurts. */
  ghost predicate Hurting(types: Schema, harm: bool, ty: nat, s: bytes)
    requires ty < |types|
  {
    forall h: Heap :: h.grants == [] ==> Hurts(types, harm, ty, h, HeapDecodeNoinit(types, ty, Fresh(types, ty), h, s))
  }

  lemma HurtingAt(types: Schema, harm: bool, ty: nat, s: bytes, h: Heap)
    requires ty < |types| && Hurting(types, harm, ty, s) && h.grants == []
    ensures Hurts(types, harm, ty, h, HeapDecodeNoinit(types, ty, Fresh(types, ty), h, s))
  {
    hide Hurts;
  }

  lemma HurtingIf(types: Schema, harm: bool, ty: nat, s: bytes)
    requires ty < |types|
    requires forall h: Heap :: h.grants == [] ==>
             Hurts(types, harm, ty, h, HeapDecodeNoinit(types, ty, Fresh(types, ty), h, s))
    ensures Hurting(types, harm, ty, s)
  {
    hide Hurts;
  }

  /** An entry that is fresh, or becomes so by default initialisation. */
  predicate FreshEntryFor(types: Schema, p: PField, v: Val) {
    p.f.ltype.LSubmessage? && p.sub < |types| && v.Struct? &&
    (if p.f.htype.Repeated? then Defaults(types, p.sub, v.slots) else v.slots) == Fresh(types, p.sub)
  }

  lemma EntryIs(types: Schema, p: PField, v: Val, h: Heap, body: bytes, rest: bytes)
    requires p.f.ltype.LSubmessage? && p.sub < |types| && v.Struct? && |body| < TWO32
    ensures var r := if p.f.htype.Repeated? then HeapDecode(types, p.sub, v.slots, h, body)
            else HeapDecodeNoinit(types, p.sub, v.slots, h, body);
            DecHeapEntry(types, p, v, h, EncDelimited(body) + rest) == Out(r.ok, Struct(r.v), r.heap, rest)
  {
    hide HeapDecodeNoinit, HeapDecode, EncVarint;
    DelimitedRoundTrip(body, rest);
    assert EncDelimited(body) + rest == EncVarint(|body|) + body + rest;
  }

  lemma EntryHurts(types: Schema, harm: bool, p: PField, v: Val, h: Heap, body: bytes, rest: bytes)
    requires FreshEntryFor(types, p, v) && Hurting(types, harm, p.sub, body) && h.grants == [] && |body| < TWO32
    ensures var r := DecHeapEntry(types, p, v, h, EncDelimited(body) + rest);
            HurtsVal(types, harm, p, h, r) && r.rest == rest
  {
    hide HeapDecodeNoinit, HeapDecode, Defaults, Owned, Hurting, EncDelimited, Blank, DecHeapEntry, Doomed;
    EntryIs(types, p, v, h, body, rest);
    if p.f.htype.Repeated? {
      var start := Defaults(types, p.sub, v.slots);
      var h1 := h.(lost := h.lost + (Owned(types, true, p.sub, v.slots) - Owned(types, true, p.sub, start)));
      HurtingAt(types, harm, p.sub, body, h1);
      var q := HeapDecodeNoinit(types, p.sub, start, h1, body);
      HitFrom(harm, h, h1, q.heap, Doomed(types, p.sub, q.v));
      DecodeHurts(types, harm, p.sub, v.slots, h, body);
    } else {
      HurtingAt(types, harm, p.sub, body, h);
    }
  }

  lemma Granted(v: Val, dataSize: nat, h: Heap)
    requires h.grants == [] && 0 < dataSize <= PB_SIZE_MAX
    ensures var (ok, v', h') := Allocate(v, dataSize, 1, h); ok && v'.Block? && h'.grants == [] && h'.lost == h.lost
  {
  }

  /** Clearing bytes of a zeroed structure changes nothing. */
  lemma {:induction false} BlankWiped(types: Schema, ty: nat, c: int)
    requires ty < |types|
    ensures WipedSlots(types, ty, Blank(types, ty), c) == Blank(types, ty)
    decreases ty
  {
    hide DataOffset, SizeOffset, BlankSlot, WipedPSlot;
    var s, fields := Blank(types, ty), Bare(types[ty]);
    forall i | 0 <= i < |s| ensures WipedSlots(types, ty, s, c)[i] == s[i] {
      if !InsideUnion(fields, i) { BlankSlotWiped(types, ty, i, c - DataOffset(fields, i), c - SizeOffset(fields, i)); }
    }
    assert WipedSlots(types, ty, s, c) == s;
  }

  lemma {:induction false} BlankSlotWiped(types: Schema, ty: nat, i: nat, data: int, size: int)
    requires ty < |types| && i < |types[ty]| && !InsideUnion(Bare(types[ty]), i)
    ensures WipedPSlot(types, ty, types[ty][i], BlankSlot(types, ty, i), data, size) == BlankSlot(types, ty, i)
    decreases ty, 1
  {
    hide Blank, WipedSlots;
    var p, slot := types[ty][i], BlankSlot(types, ty, i);
    if !IsPointer(p) && !p.f.htype.Oneof? { BlankValsWiped(types, ty, p, slot.vals, data); }
  }

  lemma {:induction false} BlankValsWiped(types: Schema, ty: nat, p: PField, vals: seq<Val>, c: int)
    requires ty < |types| && forall k :: 0 <= k < |vals| ==> vals[k] == BlankEntry(types, ty, p)
    ensures WipedVals(types, ty, p, vals, c) == vals
    decreases ty, 0
  {
    hide Blank, WipedSlots;
    forall k | 0 <= k < |vals| ensures WipedVals(types, ty, p, vals, c)[k] == vals[k] {
      if p.f.ltype.LSubmessage? && p.sub < ty { BlankWiped(types, p.sub, c - k * p.f.dataSize); }
    }
  }

  lemma {:induction false} BlankTwice(types: Schema, ty: nat)
    requires SoundSchema(types) && ty < |types|
    ensures Defaults(types, ty, Fresh(types, ty)) == Fresh(types, ty)
    decreases ty
  {
    hide SoundSchema, DefaultPSlot, Blank;
    var s := Fresh(types, ty);
    forall i | 0 <= i < |s| ensures DefaultPSlot(types, ty, i, s[i]) == s[i] { FreshTwice(types, ty, i); }
    assert Defaults(types, ty, s) == s;
  }

  lemma {:induction false} FreshTwice(types: Schema, ty: nat, i: nat)
    requires SoundSchema(types) && ty < |types| && i < |types[ty]|
    ensures var slot := Fresh(types, ty)[i]; DefaultPSlot(types, ty, i, slot) == slot
    decreases ty, 0
  {
    hide SoundSchema, Blank, Defaults, WipedVals;
    SchemaField(types, ty, i);
    var p := types[ty][i];
    assert Bare(types[ty])[i] == p.f;
    assert Fresh(types, ty)[i] == DefaultPSlot(types, ty, i, BlankSlot(types, ty, i)) by { FreshAt(types, ty, i); }
    if !IsPointer(p) && !p.f.htype.Oneof? {
      BlankValsWiped(types, ty, p, BlankSlot(types, ty, i).vals, COUNT_BYTES);
      if p.f.ltype.LSubmessage? && p.sub < ty { BlankTwice(types, p.sub); }
    }
  }

  lemma FreshAt(types: Schema, ty: nat, i: nat)
    requires ty < |types| && i < |types[ty]|
    ensures Fresh(types, ty)[i] == DefaultPSlot(types, ty, i, BlankSlot(types, ty, i))
  {
    hide DefaultPSlot, BlankSlot;
  }

  /** The slot of a field in a fresh structure. */
  lemma FreshSlot(types: Schema, ty: nat, i: nat)
    requires SoundSchema(types) && ty < |types| && i < |types[ty]|
    ensures var p := types[ty][i]; var slot := Fresh(types, ty)[Home(Bare(types[ty]), i)];
            && slot.size == 0
            && (IsPointer(p) || p.f.htype.Oneof? ==> slot.vals == [Null])
            && (!IsPointer(p) && !p.f.htype.Oneof? ==>
                  && |slot.vals| == (if p.f.htype.Repeated? then p.f.arraySize else 1)
                  && forall k :: 0 <= k < |slot.vals| ==>
                       slot.vals[k]
                           == if p.f.htype.Repeated? || !p.f.ltype.LSubmessage? then BlankEntry(types, ty, p)
                               else Struct(Fresh(types, p.sub)))
  {
    hide SoundSchema, Blank, Defaults, WipedVals;
    SchemaField(types, ty, i);
    var p := types[ty][i];
    var at := Home(Bare(types[ty]), i);
    assert Bare(types[ty])[i] == p.f && Bare(types[ty])[at] == types[ty][at].f;
    FreshAt(types, ty, at);
    var slot := DefaultPSlot(types, ty, at, BlankSlot(types, ty, at));
    if !IsPointer(p) && !p.f.htype.Oneof? {
      if p.f.htype.Repeated? {
        BlankValsWiped(types, ty, p, BlankSlot(types, ty, i).vals, COUNT_BYTES);
        assert slot.vals == seq(p.f.arraySize, _ => BlankEntry(types, ty, p));
      } else if p.f.ltype.LSubmessage? {
        assert slot.vals == [Struct(Fresh(types, p.sub))];
      } else {
        assert slot.vals == [BlankEntry(types, ty, p)];
      }
    }
  }

  /** A nested message that hurts makes its field do so, whichever kind of field it is. */
  lemma FieldHurts(types: Schema, harm: bool, ty: nat, i: nat, h: Heap, body: bytes, rest: bytes)
    requires SoundSchema(types) && ty < |types| && i < |types[ty]| && h.grants == [] && |body| < TWO32
    requires types[ty][i].f.ltype.LSubmessage? && types[ty][i].sub < |types| &&
             Hurting(types, harm, types[ty][i].sub, body)
    ensures var p := types[ty][i];
            var r := DecHeapField(types, ty, p, WT_STRING, Fresh(types, ty)[Home(Bare(types[ty]), i)], 0, h,
                EncDelimited(body) + rest);
            HurtsSlot(types, harm, p, h, r) && r.rest == rest
  {
    hide SoundSchema, HeapDecode, HeapDecodeNoinit, Owned, Hurting, Defaults, Blank, DecHeapEntry, DecHeapPointer;
    hide EncDelimited;
    hide Allocate, Doomed, ReleaseCurrent, Follows, DecHeapStatic;
    var p := types[ty][i];
    var slot := Fresh(types, ty)[Home(Bare(types[ty]), i)];
    SchemaField(types, ty, i);
    FreshSlot(types, ty, i);
    TagPositive(types, ty, p);
    assert ReleaseUnion(types, types[ty], p, slot, h) == (true, slot, h);
    if IsPointer(p) {
      FreshPointerHurts(types, harm, ty, p, slot, h, body, rest);
    } else {
      FreshPlaceHurts(types, harm, ty, p, slot, h, body, rest);
    }
  }

  lemma FreshPlaceHurts(types: Schema, harm: bool, ty: nat, p: PField, slot: PSlot, h: Heap, body: bytes, rest: bytes)
    requires SoundSchema(types) && ty < |types| && !IsPointer(p) && SoundField(types, ty, p) && h.grants == [] &&
             |body| < TWO32
    requires p.f.ltype.LSubmessage? && p.sub < ty && Hurting(types, harm, p.sub, body) && slot.size == 0
    requires if p.f.htype.Oneof? then slot.vals == [Null]
             else |slot.vals| == (if p.f.htype.Repeated? then p.f.arraySize else 1)
    requires !p.f.htype.Oneof? ==>
             slot.vals[0] == Struct(if p.f.htype.Repeated? then Blank(types, p.sub) else Fresh(types, p.sub))
    ensures var r := DecHeapStatic(types, ty, p, WT_STRING, slot, 0, h, EncDelimited(body) + rest);
            HurtsSlot(types, harm, p, h, r) && r.rest == rest
  {
    hide SoundSchema, Hurting, Defaults, Blank, DecHeapEntry, EncDelimited, Doomed, ReleaseCurrent, Follows;
    var s := EncDelimited(body) + rest;
    var v := if p.f.htype.Oneof? then Struct(Fresh(types, p.sub)) else slot.vals[0];
    EntryHurts(types, harm, p, v, h, body, rest);
    var r, e := DecHeapStatic(types, ty, p, WT_STRING, slot, 0, h, s), DecHeapEntry(types, p, v, h, s);
    assert r.heap == e.heap && r.rest == rest && Current(p, r.v.0) && r.v.0.vals[0] == e.v;
    if DoomedVal(types, p, e.v) { PlaceDoomed(types, p, r.v.0, 0); }
  }

  lemma FreshPointerHurts(types: Schema, harm: bool, ty: nat, p: PField, slot: PSlot, h: Heap, body: bytes, rest: bytes)
    requires SoundSchema(types) && IsPointer(p) && SoundField(types, ty, p) && h.grants == [] && |body| < TWO32
    requires p.f.ltype.LSubmessage? && p.sub < |types| && Hurting(types, harm, p.sub, body) && slot == PSlot(0, [Null])
    ensures var r := DecHeapPointer(types, p, WT_STRING, slot, h, EncDelimited(body) + rest);
            Hit(harm, h, r.heap, DoomedSlot(types, p, r.v)) && r.rest == rest
  {
    hide SoundSchema, HeapDecode, HeapDecodeNoinit, Owned, Hurting, Defaults, Blank, DecHeapEntry, EncDelimited;
    hide Allocate;
    hide Doomed, ReleaseCurrent, Follows;
    var s := EncDelimited(body) + rest;
    Granted(Null, p.f.dataSize, h);
    var (_, v, h1) := Allocate(Null, p.f.dataSize, 1, h);
    assert v.items == [] by { AllocateIs(Null, p.f.dataSize, 1, h); }
    BlankTwice(types, p.sub);
    var r := DecHeapPointer(types, p, WT_STRING, slot, h, s);
    if p.f.htype.Repeated? {
      var h2 := Append(v, FreshEntry(types, p), p.f.dataSize, h1).1;
      EntryHurts(types, harm, p, FreshEntry(types, p), h2, body, rest);
      var e := DecHeapEntry(types, p, FreshEntry(types, p), h2, s);
      assert r == DecHeapAppend(types, p, slot, h, s);
      var items := v.items + [FreshEntry(types, p)];
      assert items[0 := e.v] == [e.v];
      assert r.heap == e.heap && r.rest == rest && r.v == PSlot(1, [Block(v.id, v.cap, [e.v])]);
      if DoomedVal(types, p, e.v) { PointerDoomed(types, p, r.v, 0); }
    } else {
      EntryHurts(types, harm, p, FreshEntry(types, p), h1, body, rest);
      var e := DecHeapEntry(types, p, FreshEntry(types, p), h1, s);
      var q := DecHeapTarget(types, p, Null, h, s);
      assert q == Out(e.ok, Block(v.id, v.cap, [e.v]), e.heap, e.rest);
      assert BeforeSingle(types, p, slot, h) == (slot, h);
      assert r == DecHeapSingle(types, p, slot, h, s);
      assert r.heap == e.heap && r.rest == rest && r.v.vals == [Block(v.id, v.cap, [e.v])] && Current(p, r.v);
      if DoomedVal(types, p, e.v) { PointerDoomed(types, p, r.v, 0); }
    }
  }

  lemma {:induction false} NestedHurts(types: Schema, harm: bool, ty: nat, i: nat, body: bytes)
    requires SoundSchema(types) && ty < |types| && i < |types[ty]| && |body| < TWO32
    requires types[ty][i].f.ltype.LSubmessage? && types[ty][i].sub < |types| &&
             Hurting(types, harm, types[ty][i].sub, body)
    ensures Hurting(types, harm, ty, Nested(types[ty][i].f, body))
  {
    hide SoundSchema, HeapLoop, DecHeapField, HeapDecodeNoinit, Hurting, Fresh, EncDelimited, Complete, Doomed;
    hide DoomedSlot;
    var f := types[ty][i].f;
    forall h: Heap | h.grants == []
      ensures Hurts(types, harm, ty, h, HeapDecodeNoinit(types, ty, Fresh(types, ty), h, Nested(f, body)))
    {
      var c := State([], {}, None, 0);
      FieldHurts(types, harm, ty, i, h, body, []);
      assert StartFixed(Bare(types[ty]), c, i).Some? && StartFixed(Bare(types[ty]), c, i).value.got == 0;
      LastRecord(types, harm, ty, i, Fresh(types, ty), c, h, EncDelimited(body));
      NoinitIs(types, ty, Fresh(types, ty), h, Nested(f, body));
    }
    HurtingIf(types, harm, ty, Nested(f, body));
  }

  /** The records that lead to a nested message. */
  function Wrap(types: Schema, ty: nat, path: seq<nat>, s: bytes): (b: bytes)
    requires Leads(types, ty, path)
    ensures |b| >= |s|
    decreases |path|
  {
    if path == [] then s else Nested(types[ty][path[0]].f, Wrap(types, types[ty][path[0]].sub, path[1..], s))
  }

  lemma {:induction false} WrapHurts(types: Schema, harm: bool, ty: nat, path: seq<nat>, s: bytes)
    requires SoundSchema(types) && Leads(types, ty, path) && Hurting(types, harm, EndOf(types, ty, path), s)
    requires path == [] || |Wrap(types, ty, path, s)| < TWO32
    ensures Hurting(types, harm, ty, Wrap(types, ty, path, s))
    decreases |path|
  {
    hide SoundSchema, Hurting;
    if path != [] {
      var body := Wrap(types, types[ty][path[0]].sub, path[1..], s);
      WrapHurts(types, harm, types[ty][path[0]].sub, path[1..], s);
      NestedHurts(types, harm, ty, path[0], body);
    }
  }

  // ---------------------------------------------------------------- what a second decoding does

  /** Following d from a structure that is about to be set to defaults leads to a structure, in the first entry of
      its array each time, from which default initialisation takes pointers away, or over one of whose pointers it
      stores a count. */
  ghost predicate Below(types: Schema, harm: bool, ty: nat, slots: seq<PSlot>, d: seq<nat>)
    decreases |d|
  {
    && ty < |types| && |slots| == |types[ty]|
    && if d == [] then
         if harm then Doomed(types, ty, Defaults(types, ty, slots))
         else Owned(types, true, ty, slots) - Owned(types, true, ty, Defaults(types, ty, slots)) != multiset{}
       else
         && d[0] < |slots|
         && var p := types[ty][d[0]]; var vals := if p.f.htype.Repeated? then Defaults(types, ty, slots)[d[0]].vals
              else slots[d[0]].vals;
            && p.f.ltype.LSubmessage? && !IsPointer(p) && !p.f.htype.Oneof?
            && |vals| == (if p.f.htype.Repeated? then p.f.arraySize else 1) && |vals| > 0 && vals[0].Struct?
            && (p.f.htype.Repeated? || |d| > 1)
            && Below(types, harm, p.sub, vals[0].slots, d[1..])
  }

  /** The records that follow d. */
  function Follow(types: Schema, ty: nat, d: seq<nat>): bytes
    decreases |d|
  {
    if d == [] || ty >= |types| || d[0] >= |types[ty]| then []
    else Nested(types[ty][d[0]].f, Follow(types, types[ty][d[0]].sub, d[1..]))
  }

  lemma SomeMore(a: multiset<nat>, b: multiset<nat>)
    requires b != multiset{}
    ensures a + b != a
  {
    assert exists id :: id in b;
    var id :| id in b;
    assert (a + b)[id] > a[id];
  }

  /** Decoding into such a structure again. */
  lemma {:induction false} AgainHurts(types: Schema, harm: bool, ty: nat, slots: seq<PSlot>, d: seq<nat>, h: Heap)
    requires SoundSchema(types) && Below(types, harm, ty, slots, d) && |Follow(types, ty, d)| < TWO32
    ensures Hurts(types, harm, ty, h, HeapDecode(types, ty, slots, h, Follow(types, ty, d)))
    decreases |d|, 2
  {
    hide HeapDecodeNoinit, HeapDecode, Defaults, Owned, Release, SoundSchema, Doomed;
    var s := Follow(types, ty, d);
    var start := Defaults(types, ty, slots);
    var forgotten := Owned(types, true, ty, slots) - Owned(types, true, ty, start);
    var h1 := h.(lost := h.lost + forgotten);
    var q := HeapDecodeNoinit(types, ty, start, h1, s);
    if d == [] {
      SomeMoreOrNone(h.lost, forgotten);
      NoinitOfNothing(types, ty, start, h1);
    } else {
      FollowHurts(types, harm, ty, slots, d, h1);
      HitFrom(harm, h, h1, q.heap, Doomed(types, ty, q.v));
    }
    DecodeHurts(types, harm, ty, slots, h, s);
  }

  lemma SomeMoreOrNone(a: multiset<nat>, b: multiset<nat>)
    ensures b != multiset{} ==> a + b != a
  {
    if b != multiset{} { SomeMore(a, b); }
  }

  lemma NoinitOfNothing(types: Schema, ty: nat, slots: seq<PSlot>, h: Heap)
    requires ty < |types| && |slots| == |types[ty]|
    ensures var r := HeapDecodeNoinit(types, ty, slots, h, []); r.v == slots && r.heap == h
  {
    hide Complete;
  }

  lemma {:induction false} FollowHurts(types: Schema, harm: bool, ty: nat, slots: seq<PSlot>, d: seq<nat>, h: Heap)
    requires SoundSchema(types) && d != [] && Below(types, harm, ty, slots, d) && |Follow(types, ty, d)| < TWO32
    ensures Hurts(types, harm, ty, h, HeapDecodeNoinit(types, ty, Defaults(types, ty, slots), h, Follow(types, ty, d)))
    decreases |d|, 1
  {
    hide SoundSchema, HeapLoop, HeapDecodeNoinit, DecHeapField, Complete, Below, Follow, Defaults, Doomed, DoomedSlot;
    hide EncDelimited;
    var i := d[0];
    BelowHead(types, harm, ty, slots, d);
    var p := types[ty][i];
    var body := Follow(types, p.sub, d[1..]);
    var start := Defaults(types, ty, slots);
    var c := State([], {}, None, 0);
    BareAt(types[ty], i);
    FollowField(types, harm, ty, slots, d, h);
    assert StartFixed(Bare(types[ty]), c, i).Some? && StartFixed(Bare(types[ty]), c, i).value.got == 0;
    LastRecord(types, harm, ty, i, start, c, h, EncDelimited(body));
    NoinitIs(types, ty, start, h, Follow(types, ty, d));
  }

  lemma BelowHead(types: Schema, harm: bool, ty: nat, slots: seq<PSlot>, d: seq<nat>)
    requires d != [] && Below(types, harm, ty, slots, d) && |Follow(types, ty, d)| < TWO32
    ensures ty < |types| && |slots| == |types[ty]| && d[0] < |slots|
    ensures var p := types[ty][d[0]];
            && p.f.ltype.LSubmessage? && !p.f.htype.Oneof?
            && Follow(types, ty, d) == Nested(p.f, Follow(types, p.sub, d[1..]))
            && |Follow(types, p.sub, d[1..])| < TWO32
  {
    hide Doomed, Owned, Defaults;
  }

  lemma {:induction false} FollowField(types: Schema, harm: bool, ty: nat, slots: seq<PSlot>, d: seq<nat>, h: Heap)
    requires SoundSchema(types) && d != [] && Below(types, harm, ty, slots, d) && |Follow(types, ty, d)| < TWO32
    requires ty < |types| && |slots| == |types[ty]| && d[0] < |slots|
    ensures var p := types[ty][d[0]];
            var r := DecHeapField(types, ty, p, WT_STRING, Defaults(types, ty, slots)[d[0]], 0, h,
                EncDelimited(Follow(types, p.sub, d[1..])) + []);
            HurtsSlot(types, harm, p, h, r) && r.rest == []
    decreases |d|, 0
  {
    hide SoundSchema, HeapDecode, HeapDecodeNoinit, Defaults, EncDelimited, Follow, Doomed, Owned, DecHeapField;
    hide DecHeapEntry, DoomedSlot;
    var i := d[0];
    var p := types[ty][i];
    BelowHead(types, harm, ty, slots, d);
    SchemaField(types, ty, i);
    var slot := Defaults(types, ty, slots)[i];
    FollowSlot(types, ty, slots, i);
    var body := Follow(types, p.sub, d[1..]);
    if p.f.htype.Repeated? {
      AgainHurts(types, harm, p.sub, slot.vals[0].slots, d[1..], h);
    } else {
      FollowHurts(types, harm, p.sub, slots[i].vals[0].slots, d[1..], h);
    }
    EntryIs(types, p, slot.vals[0], h, body, []);
    PlaceHurts(types, harm, ty, p, slot, 0, h, EncDelimited(body) + []);
  }

  /** What the first entry in place does to its field. */
  lemma PlaceHurts(types: Schema, harm: bool, ty: nat, p: PField, slot: PSlot, got: nat, h: Heap, s: bytes)
    requires ty < |types| && p.f.ltype.LSubmessage? && !IsPointer(p) && |slot.vals| > 0 && Current(p, slot)
    requires if p.f.htype.Repeated?
             then |slot.vals| == p.f.arraySize && (if FixedCount(p.f) then got else slot.size) == 0
                 else |slot.vals| == 1
    requires var e := DecHeapEntry(types, p, slot.vals[0], h, s); HurtsVal(types, harm, p, h, e) && e.rest == []
    ensures var r := DecHeapField(types, ty, p, WT_STRING, slot, got, h, s);
            HurtsSlot(types, harm, p, h, r) && r.rest == [] && Current(p, r.v.0)
  {
    hide DecHeapEntry, Doomed, DoomedSlot, Defaults, Blank;
    var e, r := DecHeapEntry(types, p, slot.vals[0], h, s), DecHeapField(types, ty, p, WT_STRING, slot, got, h, s);
    assert ReleaseUnion(types, types[ty], p, slot, h) == (true, slot, h);
    assert r == DecHeapStatic(types, ty, p, WT_STRING, slot, got, h, s);
    assert r.heap == e.heap && r.rest == e.rest && Current(p, r.v.0) && r.v.0.vals[0] == e.v;
    if DoomedVal(types, p, e.v) { PlaceDoomed(types, p, r.v.0, 0); }
  }

  /** Defaults keep array entries but for a zero count, and go into a single embedded structure. */
  lemma FollowSlot(types: Schema, ty: nat, slots: seq<PSlot>, i: nat)
    requires SoundSchema(types) && ty < |types| && |slots| == |types[ty]| && i < |slots|
    requires var p := types[ty][i]; p.f.ltype.LSubmessage? && !IsPointer(p) && !p.f.htype.Oneof?
    ensures var p := types[ty][i]; var slot := Defaults(types, ty, slots)[i];
            && slot.size == 0 && |slot.vals| == |slots[i].vals|
            && (!p.f.htype.Repeated? && |slots[i].vals| == 1 && slots[i].vals[0].Struct? ==>
                  slot.vals == [Struct(Defaults(types, p.sub, slots[i].vals[0].slots))])
  {
    hide SoundSchema, WipedVals;
    SchemaField(types, ty, i);
    assert Bare(types[ty])[i] == types[ty][i].f;
  }

  // ---------------------------------------------------------------- a second record of an embedded structure

  /** The first entry of fixed-count array i holds what decoding it again takes away or spoils. */
  ghost predicate Loaded(types: Schema, harm: bool, ty: nat, slots: seq<PSlot>, i: nat, d: seq<nat>) {
    && ty < |types| && |slots| == |types[ty]| && i < |slots|
    && var p := types[ty][i]; var vals := slots[i].vals;
       && FixedCount(p.f) && !IsPointer(p) && p.f.ltype.LSubmessage?
       && |vals| == p.f.arraySize > 0 && vals[0].Struct? && Below(types, harm, p.sub, vals[0].slots, d)
  }

  /** The record that decodes the first entry again. */
  function Reload(types: Schema, ty: nat, i: nat, d: seq<nat>): bytes
    requires ty < |types| && i < |types[ty]|
  {
    Nested(types[ty][i].f, Follow(types, types[ty][i].sub, d))
  }

  /** In a loop that is free to start array i, the record hurts. */
  lemma ReloadHurts(types: Schema, harm: bool, ty: nat, slots: seq<PSlot>, i: nat, d: seq<nat>, c: State, h: Heap)
    requires SoundSchema(types) && Loaded(types, harm, ty, slots, i, d) && |Follow(types, types[ty][i].sub, d)| < TWO32
    requires c.fixed != Some(i) && FixedComplete(Bare(types[ty]), c)
    ensures Hurts(types, harm, ty, h, HeapLoop(types, ty, slots, c, h, Reload(types, ty, i, d)).0)
  {
    hide SoundSchema, DecHeapField, DecHeapEntry, HeapDecode, EncDelimited, Follow, Below, HeapLoop, Doomed, DoomedSlot;
    var p := types[ty][i];
    var body := Follow(types, p.sub, d);
    BareAt(types[ty], i);
    SchemaField(types, ty, i);
    AgainHurts(types, harm, p.sub, slots[i].vals[0].slots, d, h);
    EntryIs(types, p, slots[i].vals[0], h, body, []);
    PlaceHurts(types, harm, ty, p, slots[i], 0, h, EncDelimited(body) + []);
    assert StartFixed(Bare(types[ty]), c, i).Some? && StartFixed(Bare(types[ty]), c, i).value.got == 0;
    LastRecord(types, harm, ty, i, slots, c, h, EncDelimited(body));
  }

  /** With memory granted, a is accepted by a fresh structure and loads array i. */
  ghost predicate Loads(types: Schema, harm: bool, ty: nat, a: bytes, i: nat, d: seq<nat>)
    requires ty < |types|
  {
    forall h: Heap :: h.grants == [] ==>
      var r := HeapDecodeNoinit(types, ty, Fresh(types, ty), h, a); r.ok && Loaded(types, harm, ty, r.v, i, d)
  }

  lemma LoadsAt(types: Schema, harm: bool, ty: nat, a: bytes, i: nat, d: seq<nat>, h: Heap)
    requires ty < |types| && Loads(types, harm, ty, a, i, d) && h.grants == []
    ensures var r := HeapDecodeNoinit(types, ty, Fresh(types, ty), h, a); r.ok && Loaded(types, harm, ty, r.v, i, d)
  {
    hide Loaded;
  }

  /** The first record of an embedded structure. */
  lemma FirstRecord(types: Schema, harm: bool, ty: nat, q: nat, a: bytes, i: nat, d: seq<nat>, h: Heap, rest: bytes)
    requires SoundSchema(types) && ty < |types| && q < |types[ty]| && Embeds(types[ty][q]) && types[ty][q].sub < |types|
    requires Loads(types, harm, types[ty][q].sub, a, i, d) && |a| < TWO32 && h.grants == []
    ensures var p := types[ty][q];
            var r := DecHeapField(types, ty, p, WT_STRING, Fresh(types, ty)[Home(Bare(types[ty]), q)], 0, h,
                EncDelimited(a) + rest);
            && r.ok && r.rest == rest && Current(p, r.v.0) && |r.v.0.vals| == 1 && h.lost <= r.heap.lost
            && r.v.0.vals[0].Struct? && Loaded(types, harm, p.sub, r.v.0.vals[0].slots, i, d)
  {
    hide SoundSchema, HeapDecodeNoinit, Loads, Loaded, EncDelimited, Defaults, Blank, DecHeapEntry;
    var p := types[ty][q];
    SchemaField(types, ty, q);
    FreshSlot(types, ty, q);
    TagPositive(types, ty, p);
    LoadsAt(types, harm, p.sub, a, i, d, h);
    var v := Struct(Fresh(types, p.sub));
    EntryIs(types, p, v, h, a, rest);
    var slot := Fresh(types, ty)[Home(Bare(types[ty]), q)];
    assert ReleaseUnion(types, types[ty], p, slot, h) == (true, slot, h);
    assert !p.f.htype.Oneof? ==> slot.vals[0] == v;
  }

  function TwoRecords(f: Field, a: bytes, b: bytes): bytes {
    Nested(f, a) + Nested(f, b)
  }

  /** Two records of an embedded structure whose type has a loaded array: the second one hurts. */
  lemma EmbeddedHurts(types: Schema, harm: bool, ty: nat, q: nat, i: nat, a: bytes, d: seq<nat>)
    requires SoundSchema(types) && ty < |types| && q < |types[ty]| && Embeds(types[ty][q])
    requires types[ty][q].sub < |types| && i < |types[types[ty][q].sub]| &&
             Loads(types, harm, types[ty][q].sub, a, i, d)
    requires |a| < TWO32 && |Reload(types, types[ty][q].sub, i, d)| < TWO32
    ensures Hurting(types, harm, ty, TwoRecords(types[ty][q].f, a, Reload(types, types[ty][q].sub, i, d)))
  {
    hide Hurts, Hurting, HeapDecodeNoinit, SoundSchema, Loads, Reload, Fresh, TwoRecords;
    var s := TwoRecords(types[ty][q].f, a, Reload(types, types[ty][q].sub, i, d));
    forall h: Heap | h.grants ==
        [] ensures Hurts(types, harm, ty, h, HeapDecodeNoinit(types, ty, Fresh(types, ty), h, s)) {
      EmbeddedHurtsAt(types, harm, ty, q, i, a, d, h);
    }
    HurtingIf(types, harm, ty, s);
  }

  lemma EmbeddedHurtsAt(types: Schema, harm: bool, ty: nat, q: nat, i: nat, a: bytes, d: seq<nat>, h: Heap)
    requires SoundSchema(types) && ty < |types| && q < |types[ty]| && Embeds(types[ty][q]) && h.grants == []
    requires types[ty][q].sub < |types| && i < |types[types[ty][q].sub]| &&
             Loads(types, harm, types[ty][q].sub, a, i, d)
    requires |a| < TWO32 && |Reload(types, types[ty][q].sub, i, d)| < TWO32
    ensures var s := TwoRecords(types[ty][q].f, a, Reload(types, types[ty][q].sub, i, d));
            Hurts(types, harm, ty, h, HeapDecodeNoinit(types, ty, Fresh(types, ty), h, s))
  {
    hide SoundSchema, HeapLoop, DecHeapField, DecHeapEntry, HeapDecodeNoinit, Loads, Loaded, Fresh, EncDelimited;
    hide Complete, Reload, StartFixed;
    hide Doomed, DoomedSlot;
    var p := types[ty][q];
    var b := Reload(types, p.sub, i, d);
    var s := TwoRecords(p.f, a, b);
    var at, c := Home(Bare(types[ty]), q), State([], {}, None, 0);
    NotFixed(types, ty, q, c);
    var tail := Nested(p.f, b);
    assert s == Record(p.f, EncDelimited(a)) + tail;
    RecordStep(types, ty, q, Fresh(types, ty), c, h, EncDelimited(a), tail);
    FirstRecord(types, harm, ty, q, a, i, d, h, tail);
    var r := DecHeapField(types, ty, p, WT_STRING, Fresh(types, ty)[at], 0, h, EncDelimited(a) + tail);
    var slots := Fresh(types, ty)[at := r.v.0];
    var c1 := State([], MarkSeen(Bare(types[ty]), {}, q), None, r.v.1);
    NotFixed(types, ty, q, c1);
    NoinitReloads(types, harm, p.sub, r.v.0.vals[0].slots, i, d, r.heap);
    EntryIs(types, p, r.v.0.vals[0], r.heap, b, []);
    PlaceHurts(types, harm, ty, p, r.v.0, r.v.1, r.heap, EncDelimited(b) + []);
    LastRecord(types, harm, ty, q, slots, c1, r.heap, EncDelimited(b));
    var all := HeapLoop(types, ty, Fresh(types, ty), c, h, s).0;
    assert all == HeapLoop(types, ty, slots, c1, r.heap, tail).0;
    HitFrom(harm, h, r.heap, all.heap, Doomed(types, ty, all.v));
    NoinitIs(types, ty, Fresh(types, ty), h, s);
  }

  /** Merging a record into a structure that has a loaded array. */
  lemma NoinitReloads(types: Schema, harm: bool, ty: nat, slots: seq<PSlot>, i: nat, d: seq<nat>, h: Heap)
    requires SoundSchema(types) && Loaded(types, harm, ty, slots, i, d) && |Reload(types, ty, i, d)| < TWO32
    ensures Hurts(types, harm, ty, h, HeapDecodeNoinit(types, ty, slots, h, Reload(types, ty, i, d)))
  {
    hide SoundSchema, HeapLoop, HeapDecodeNoinit, Follow, Below, Doomed;
    ReloadHurts(types, harm, ty, slots, i, d, State([], {}, None, 0), h);
    NoinitIs(types, ty, slots, h, Reload(types, ty, i, d));
  }

  // ---------------------------------------------------------------- two fixed-count arrays

  function Copies(r: bytes, n: nat): bytes {
    if n == 0 then [] else r + Copies(r, n - 1)
  }

  /** With memory granted, payload g is accepted by an entry that still is as zeroed. */
  ghost predicate Takes(types: Schema, ty: nat, j: nat, g: bytes)
    requires ty < |types| && j < |types[ty]|
  {
    forall h: Heap, rest: bytes :: h.grants == [] ==>
      var r := DecHeapEntry(types, types[ty][j], BlankEntry(types, ty, types[ty][j]), h, g + rest);
          r.ok && r.rest == rest
  }

  /** And leaves in it what decoding it again takes away or spoils. */
  ghost predicate Fills(types: Schema, harm: bool, ty: nat, i: nat, e: bytes, d: seq<nat>)
    requires ty < |types| && i < |types[ty]|
  {
    types[ty][i].f.ltype.LSubmessage? &&
    forall h: Heap, rest: bytes :: h.grants == [] ==>
      var p := types[ty][i];
      var r := DecHeapEntry(types, p, BlankEntry(types, ty, p), h, e + rest);
          r.v.Struct? && Below(types, harm, p.sub, r.v.slots, d)
  }

  /** Array i from element k on is as zeroed, the loop has received the k elements before it or may start it. */
  ghost predicate Filling(types: Schema, ty: nat, slots: seq<PSlot>, i: nat, c: State, k: nat) {
    && ty < |types| && |slots| == |types[ty]| && i < |slots| && FixedCount(types[ty][i].f) && !IsPointer(types[ty][i])
    && |slots[i].vals| == types[ty][i].f.arraySize && k <= |slots[i].vals|
    && (forall x :: k <= x < |slots[i].vals| ==> slots[i].vals[x] == BlankEntry(types, ty, types[ty][i]))
    && (if k < |slots[i].vals| then StartFixed(Bare(types[ty]), c, i) == Some(State(c.msg, c.seen, Some(i), k))
         else c.fixed == Some(i) && c.got == k)
  }

  lemma FillOne(types: Schema, ty: nat, slots: seq<PSlot>, i: nat, c: State, k: nat, g: bytes, h: Heap, rest: bytes)
    requires SoundSchema(types) && Filling(types, ty, slots, i, c, k) && k < |slots[i].vals| && h.grants == []
    requires Takes(types, ty, i, g)
    ensures var p := types[ty][i];
            var e := DecHeapEntry(types, p, BlankEntry(types, ty, p), h, g + rest);
            var slots' := slots[i := PSlot(slots[i].size, slots[i].vals[k := e.v])];
            var c' := State([], MarkSeen(Bare(types[ty]), c.seen, i), Some(i), k + 1);
            && HeapLoop(types, ty, slots, c, h, Record(p.f, g) + rest) == HeapLoop(types, ty, slots', c', e.heap, rest)
            && Filling(types, ty, slots', i, c', k + 1) && e.heap.grants == [] && h.lost <= e.heap.lost
  {
    hide SoundSchema, HeapLoop, DecHeapEntry, DecHeapField, BlankEntry, MarkSeen, Filling, StartFixed;
    FillingAt(types, ty, slots, i, c, k);
    var p := types[ty][i];
    BareAt(types[ty], i);
    RecordStep(types, ty, i, slots, c, h, g, rest);
    FillField(types, ty, slots, i, c, k, g, h, rest);
    var e := DecHeapEntry(types, p, BlankEntry(types, ty, p), h, g + rest);
    FillNext(types, ty, slots, i, c, k, e.v, State([], MarkSeen(Bare(types[ty]), c.seen, i), Some(i), k + 1));
  }

  lemma FillingAt(types: Schema, ty: nat, slots: seq<PSlot>, i: nat, c: State, k: nat)
    requires Filling(types, ty, slots, i, c, k) && k < |slots[i].vals|
    ensures ty < |types| && |slots| == |types[ty]| && i < |slots|
    ensures StartFixed(Bare(types[ty]), c, i) == Some(State(c.msg, c.seen, Some(i), k)) && !types[ty][i].f.htype.Oneof?
  {
    hide StartFixed;
  }

  lemma FillField(types: Schema, ty: nat, slots: seq<PSlot>, i: nat, c: State, k: nat, g: bytes, h: Heap, rest: bytes)
    requires SoundSchema(types) && Filling(types, ty, slots, i, c, k) && k < |slots[i].vals| && h.grants == []
    requires Takes(types, ty, i, g)
    ensures var p := types[ty][i];
            var e := DecHeapEntry(types, p, BlankEntry(types, ty, p), h, g + rest);
            && DecHeapField(types, ty, p, WireType(p.f), slots[i], k, h, g + rest)
               == Out(true, (PSlot(slots[i].size, slots[i].vals[k := e.v]), k + 1), e.heap, rest)
            && e.heap.grants == [] && h.lost <= e.heap.lost
  {
    hide SoundSchema, DecHeapEntry, BlankEntry, StartFixed, DecHeapPointer, DecPacked, TakeDelimited, Takes, Blank;
    hide Defaults;
    var p := types[ty][i];
    TakesAt(types, ty, i, g, h, rest);
    assert slots[i].vals[k] == BlankEntry(types, ty, p);
    assert ReleaseUnion(types, types[ty], p, slots[i], h) == (true, slots[i], h);
    assert !(WireType(p.f) == WT_STRING && Packable(p.f));
  }

  lemma TakesAt(types: Schema, ty: nat, j: nat, g: bytes, h: Heap, rest: bytes)
    requires ty < |types| && j < |types[ty]| && Takes(types, ty, j, g) && h.grants == []
    ensures var r := DecHeapEntry(types, types[ty][j], BlankEntry(types, ty, types[ty][j]), h, g + rest);
            r.ok && r.rest == rest
  {
    hide DecHeapEntry, BlankEntry;
  }

  lemma FillNext(types: Schema, ty: nat, slots: seq<PSlot>, i: nat, c: State, k: nat, v: Val, c': State)
    requires Filling(types, ty, slots, i, c, k) && k < |slots[i].vals| && c'.msg == [] && c'.fixed == Some(i) &&
             c'.got == k + 1
    ensures Filling(types, ty, slots[i := PSlot(slots[i].size, slots[i].vals[k := v])], i, c', k + 1)
  {
    hide BlankEntry;
  }

  lemma {:induction false} FillArray(types: Schema, ty: nat, slots: seq<PSlot>, i: nat, c: State, k: nat, g: bytes,
                                     h: Heap, rest: bytes)
    returns (slots': seq<PSlot>, c': State, h': Heap)
    requires SoundSchema(types) && Filling(types, ty, slots, i, c, k) && h.grants == [] && Takes(types, ty, i, g)
    ensures |slots'| == |slots| && |slots'[i].vals| == |slots[i].vals| && slots'[i].vals[..k] == slots[i].vals[..k]
    ensures HeapLoop(types, ty, slots, c, h, Copies(Record(types[ty][i].f, g), |slots[i].vals| - k) + rest) ==
            HeapLoop(types, ty, slots', c', h', rest)
    ensures Filling(types, ty, slots', i, c', |slots[i].vals|) && h'.grants == [] && h.lost <= h'.lost
    ensures forall j :: 0 <= j < |slots| && j != i ==> slots'[j] == slots[j]
    ensures k == 0 ==> forall harm: bool, d :: Fills(types, harm, ty, i, g, d) ==> Loaded(types, harm, ty, slots', i, d)
    decreases |slots[i].vals| - k
  {
    hide SoundSchema, HeapLoop, DecHeapEntry, MarkSeen, Takes, Fills, Loaded, StartFixed, Blank;
    var n := |slots[i].vals|;
    if k == n {
      slots', c', h' := slots, c, h;
      assert Copies(Record(types[ty][i].f, g), 0) + rest == rest;
      if n == 0 { SchemaField(types, ty, i); assert false by { FixedNotEmpty(types, ty, i); } }
    } else {
      var r := Record(types[ty][i].f, g);
      var more := Copies(r, n - k - 1) + rest;
      assert Copies(r, n - k) + rest == r + more;
      FillOne(types, ty, slots, i, c, k, g, h, more);
      var p := types[ty][i];
      var e := DecHeapEntry(types, p, BlankEntry(types, ty, p), h, g + more);
      var slots1 := slots[i := PSlot(slots[i].size, slots[i].vals[k := e.v])];
      var c1 := State([], MarkSeen(Bare(types[ty]), c.seen, i), Some(i), k + 1);
      slots', c', h' := FillArray(types, ty, slots1, i, c1, k + 1, g, e.heap, rest);
      assert slots'[i].vals[..k] == slots'[i].vals[..k + 1][..k];
      assert slots1[i].vals[..k] == slots[i].vals[..k] == slots1[i].vals[..k + 1][..k];
      if k == 0 {
        assert slots'[i].vals[0] == slots'[i].vals[..1][0] == e.v;
        forall harm: bool, d | Fills(types, harm, ty, i, g, d) ensures Loaded(types, harm, ty, slots', i, d) {
          FillsAt(types, harm, ty, slots', i, g, d, h, more);
        }
      }
    }
  }

  lemma FixedNotEmpty(types: Schema, ty: nat, i: nat)
    requires SoundSchema(types) && ty < |types| && i < |types[ty]| && FixedCount(types[ty][i].f) &&
             !IsPointer(types[ty][i])
    ensures types[ty][i].f.arraySize > 0
  {
    SchemaField(types, ty, i);
  }

  lemma FillsAt(types: Schema, harm: bool, ty: nat, slots: seq<PSlot>, i: nat, g: bytes, d: seq<nat>, h: Heap,
                rest: bytes)
    requires ty < |types| && i < |types[ty]| && |slots| == |types[ty]| && FixedCount(types[ty][i].f) &&
             !IsPointer(types[ty][i])
    requires Fills(types, harm, ty, i, g, d) && h.grants == []
    requires |slots[i].vals| == types[ty][i].f.arraySize > 0 &&
             slots[i].vals[0] == DecHeapEntry(types, types[ty][i], BlankEntry(types, ty, types[ty][i]), h, g + rest).v
    ensures Loaded(types, harm, ty, slots, i, d)
  {
    hide DecHeapEntry, Below;
  }

  lemma FreshFilling(types: Schema, ty: nat, slots: seq<PSlot>, i: nat, c: State)
    requires SoundSchema(types) && ty < |types| && |slots| == |types[ty]| && i < |slots| && FixedCount(types[ty][i].f)
    requires slots[i] == Fresh(types, ty)[i] && c.fixed != Some(i) && FixedComplete(Bare(types[ty]), c)
    ensures Filling(types, ty, slots, i, c, 0) && |slots[i].vals| == types[ty][i].f.arraySize > 0
  {
    hide SoundSchema, Blank, Defaults;
    SchemaField(types, ty, i);
    FreshSlot(types, ty, i);
    BareAt(types[ty], i);
  }

  /** All elements of array i, all of another fixed-count array j, and array i from its first element again. */
  function BackAgain(types: Schema, ty: nat, i: nat, j: nat, e: bytes, g: bytes, d: seq<nat>): bytes
    requires ty < |types| && i < |types[ty]| && j < |types[ty]|
  {
    var f, k := types[ty][i].f, types[ty][j].f;
    Copies(Record(f, e), f.arraySize) + (Copies(Record(k, g), k.arraySize) + Reload(types, ty, i, d))
  }

  lemma TwoArraysHurt(types: Schema, harm: bool, ty: nat, i: nat, j: nat, e: bytes, g: bytes, d: seq<nat>)
    requires SoundSchema(types) && ty < |types| && i < |types[ty]| && j < |types[ty]| && i != j
    requires FixedCount(types[ty][i].f) && FixedCount(types[ty][j].f)
    requires Takes(types, ty, i, e) && Fills(types, harm, ty, i, e, d) && Takes(types, ty, j, g)
    requires |Follow(types, types[ty][i].sub, d)| < TWO32
    ensures Hurting(types, harm, ty, BackAgain(types, ty, i, j, e, g, d))
  {
    hide SoundSchema, HeapLoop, HeapDecodeNoinit, Takes, Fills, Loaded, Hurting, Fresh, Reload, StartFixed, Filling;
    hide Copies, Record, Doomed;
    var s := BackAgain(types, ty, i, j, e, g, d);
    var f, k := types[ty][i].f, types[ty][j].f;
    forall h: Heap | h.grants ==
        [] ensures Hurts(types, harm, ty, h, HeapDecodeNoinit(types, ty, Fresh(types, ty), h, s)) {
      var c := State([], {}, None, 0);
      var tail := Copies(Record(k, g), k.arraySize) + Reload(types, ty, i, d);
      FreshFilling(types, ty, Fresh(types, ty), i, c);
      var slots1, c1, h1 := FillArray(types, ty, Fresh(types, ty), i, c, 0, e, h, tail);
      Filled(types, ty, slots1, i, c1);
      FreshFilling(types, ty, slots1, j, c1);
      var slots2, c2, h2 := FillArray(types, ty, slots1, j, c1, 0, g, h1, Reload(types, ty, i, d));
      Filled(types, ty, slots2, j, c2);
      StillLoaded(types, harm, ty, slots1, slots2, i, d);
      ReloadHurts(types, harm, ty, slots2, i, d, c2, h2);
      NoinitIs(types, ty, Fresh(types, ty), h, s);
      var all := HeapLoop(types, ty, Fresh(types, ty), c, h, s).0;
      HitFrom(harm, h, h2, all.heap, Doomed(types, ty, all.v));
    }
    HurtingIf(types, harm, ty, s);
  }

  lemma Filled(types: Schema, ty: nat, slots: seq<PSlot>, i: nat, c: State)
    requires ty < |types| && |slots| == |types[ty]| && i < |slots| && Filling(types, ty, slots, i, c, |slots[i].vals|)
    ensures FixedComplete(Bare(types[ty]), c) && c.fixed == Some(i)
  {
    BareAt(types[ty], i);
  }

  lemma StillLoaded(types: Schema, harm: bool, ty: nat, a: seq<PSlot>, b: seq<PSlot>, i: nat, d: seq<nat>)
    requires Loaded(types, harm, ty, a, i, d) && |a| == |b| && a[i] == b[i]
    ensures Loaded(types, harm, ty, b, i, d)
  {
    hide Below;
  }

  /** Elements alone load the array of an embedded structure whose type has no required fields. */
  lemma LoadedByElements(types: Schema, harm: bool, ty: nat, i: nat, e: bytes, d: seq<nat>)
    requires SoundSchema(types) && ty < |types| && i < |types[ty]| && FixedCount(types[ty][i].f)
    requires Takes(types, ty, i, e) && Fills(types, harm, ty, i, e, d) && TrackedRequired(Bare(types[ty])) == 0
    ensures Loads(types, harm, ty, Copies(Record(types[ty][i].f, e), types[ty][i].f.arraySize), i, d)
  {
    hide SoundSchema, HeapLoop, Takes, Fills, Loaded, Fresh, StartFixed, Filling, Copies, Record, TrackedRequired;
    var f := types[ty][i].f;
    var s := Copies(Record(f, e), f.arraySize);
    forall h: Heap | h.grants == []
      ensures var r := HeapDecodeNoinit(types, ty, Fresh(types, ty), h, s); r.ok && Loaded(types, harm, ty, r.v, i, d)
    {
      var c := State([], {}, None, 0);
      FreshFilling(types, ty, Fresh(types, ty), i, c);
      var slots1, c1, h1 := FillArray(types, ty, Fresh(types, ty), i, c, 0, e, h, []);
      assert s + [] == s;
      Filled(types, ty, slots1, i, c1);
      assert HeapLoop(types, ty, slots1, c1, h1, []) == (Out(true, slots1, h1, []), c1)
             by { LoopAtEnd(types, ty, slots1, c1, h1); }
    }
  }

  lemma LoopAtEnd(types: Schema, ty: nat, slots: seq<PSlot>, c: State, h: Heap)
    requires ty < |types| && |slots| == |types[ty]|
    ensures HeapLoop(types, ty, slots, c, h, []) == (Out(true, slots, h, []), c)
  {
  }

  // ---------------------------------------------------------------- the conditions are exact

  /** Encodings that show a risky type to hurt: of the embedded structure (field q) whose array i they load; of the
      elements of that array, when the structure has no required fields; or of the elements of array i and of another
      array j. d leads from an element of i to the pointer concerned. */
  datatype Evidence =
    | Embedded(q: nat, i: nat, a: bytes, d: seq<nat>)
    | ByElements(q: nat, i: nat, e: bytes, d: seq<nat>)
    | TwoArrays(i: nat, j: nat, e: bytes, g: bytes, d: seq<nat>)

  predicate EmbeddedArray(types: Schema, ty: nat, q: nat, i: nat)
    requires ty < |types|
  {
    q < |types[ty]| && Embeds(types[ty][q]) && types[ty][q].sub < |types| && i < |types[types[ty][q].sub]|
  }

  /** All elements of the array of the embedded structure. */
  function Elements(types: Schema, ty: nat, i: nat, e: bytes): bytes
    requires ty < |types| && i < |types[ty]|
  {
    Copies(Record(types[ty][i].f, e), types[ty][i].f.arraySize)
  }

  ghost predicate Shows(types: Schema, harm: bool, ty: nat, ev: Evidence)
    requires ty < |types|
  {
    match ev
    case Embedded(q, i, a, d) =>
      && EmbeddedArray(types, ty, q, i)
      && Loads(types, harm, types[ty][q].sub, a, i, d) && |a| < TWO32 && |Reload(types, types[ty][q].sub, i, d)| < TWO32
    case ByElements(q, i, e, d) =>
      && EmbeddedArray(types, ty, q, i)
      && var sub := types[ty][q].sub;
         && TrackedRequired(Bare(types[sub])) == 0 && FixedCount(types[sub][i].f)
         && Takes(types, sub, i, e) && Fills(types, harm, sub, i, e, d)
         && |Elements(types, sub, i, e)| < TWO32 && |Reload(types, sub, i, d)| < TWO32
    case TwoArrays(i, j, e, g, d) =>
      && i < |types[ty]| && j < |types[ty]| && i != j && FixedCount(types[ty][i].f) && FixedCount(types[ty][j].f)
      && Takes(types, ty, i, e) && Fills(types, harm, ty, i, e, d) && Takes(types, ty, j, g)
      && |Follow(types, types[ty][i].sub, d)| < TWO32
  }

  function HurtBytes(types: Schema, ty: nat, ev: Evidence): bytes
    requires ty < |types|
  {
    match ev
    case Embedded(q, i, a, d) =>
      if EmbeddedArray(types, ty, q, i) then TwoRecords(types[ty][q].f, a, Reload(types, types[ty][q].sub, i, d))
          else []
    case ByElements(q, i, e, d) =>
      if EmbeddedArray(types, ty, q, i) then
        TwoRecords(types[ty][q].f, Elements(types, types[ty][q].sub, i, e), Reload(types, types[ty][q].sub, i, d))
      else []
    case TwoArrays(i, j, e, g, d) =>
      if i < |types[ty]| && j < |types[ty]| then BackAgain(types, ty, i, j, e, g, d) else []
  }

  lemma ShownHurts(types: Schema, harm: bool, ty: nat, ev: Evidence)
    requires SoundSchema(types) && ty < |types| && Shows(types, harm, ty, ev)
    ensures Hurting(types, harm, ty, HurtBytes(types, ty, ev))
  {
    hide SoundSchema, Hurting, Loads, Takes, Fills, Follow, Reload, Copies;
    match ev
    case Embedded(q, i, a, d) => EmbeddedHurts(types, harm, ty, q, i, a, d);
    case ByElements(q, i, e, d) =>
      LoadedByElements(types, harm, types[ty][q].sub, i, e, d);
      EmbeddedHurts(types, harm, ty, q, i, Elements(types, types[ty][q].sub, i, e), d);
    case TwoArrays(i, j, e, g, d) => TwoArraysHurt(types, harm, ty, i, j, e, g, d);
  }

  /** Decode s into a zeroed structure and release it. */
  function DecodeRelease(types: Schema, ty: nat, h: Heap, s: bytes): Heap
    requires ty < |types|
  {
    var r := HeapDecode(types, ty, Blank(types, ty), h, s);
    Release(types, ty, r.v, r.heap).1
  }

  /** No input and no realloc failure makes a decoded and released structure leave a block behind. */
  ghost predicate NeverLeaks(types: Schema, ty: nat)
    requires ty < |types|
  {
    forall h: Heap, s: bytes :: Holds(h, Clean, h.live) ==> DecodeRelease(types, ty, h, s).live == h.live
  }

  /** None makes it free a block twice, free a pointer of which bytes were overwritten, or write outside a block. */
  ghost predicate NeverHarms(types: Schema, ty: nat)
    requires ty < |types|
  {
    forall h: Heap, s: bytes :: Holds(h, Clean, h.live) && h.lost == multiset{} ==> !DecodeRelease(types, ty, h, s).bad
  }

  const NOTHING: Heap := Heap(multiset{}, 0, [], multiset{}, false)

  lemma BlankHurts(types: Schema, harm: bool, ty: nat, s: bytes, h: Heap)
    requires SoundSchema(types) && ty < |types| && Hurting(types, harm, ty, s) && h.grants == []
    ensures Hurts(types, harm, ty, h, HeapDecode(types, ty, Blank(types, ty), h, s))
  {
    hide SoundSchema, Tidy, Owned, HeapDecodeNoinit, HeapDecode, Blank, Defaults, Hurting, Doomed;
    BlankOwnsNothing(types, Every, ty);
    var blank, start := Blank(types, ty), Fresh(types, ty);
    var h1 := h.(lost := h.lost + (Owned(types, true, ty, blank) - Owned(types, true, ty, start)));
    assert Owned(types, true, ty, blank) == multiset{};
    assert h1 == h;
    HurtingAt(types, harm, ty, s, h);
    DecodeHurts(types, harm, ty, blank, h, s);
  }

  /** A loss is for good: after pb_release a block is live that was not before. */
  lemma LossIsALeak(types: Schema, ty: nat, s: bytes)
    requires SoundSchema(types) && ty < |types| && Hurting(types, false, ty, s)
    ensures DecodeRelease(types, ty, NOTHING, s).live != multiset{}
  {
    hide SoundSchema, Tidy, Owned, HeapDecode, Blank, Release, Hurting, Doomed;
    var blank := Blank(types, ty);
    BlankOwnsNothing(types, Any, ty);
    BlankHurts(types, false, ty, s, NOTHING);
    assert Owned(types, true, ty, blank) == multiset{};
    assert Holds(NOTHING, Any, multiset{} + Owned(types, true, ty, blank));
    DecodeKeeps(types, Any, ty, blank, NOTHING, s, multiset{});
    var r := HeapDecode(types, ty, blank, NOTHING, s);
    ReleaseFrees(types, Any, ty, r.v, r.heap, multiset{});
    var (slots, h2) := Release(types, ty, r.v, r.heap);
    if h2.live == multiset{} { NothingIn(multiset{} + Owned(types, true, ty, slots), h2.lost); }
  }

  lemma NothingIn(a: multiset<nat>, b: multiset<nat>)
    requires a + b <= multiset{}
    ensures b == multiset{}
  {
    forall id ensures b[id] == 0 { assert (a + b)[id] <= multiset{}[id]; }
  }

  /** And harm is done at the latest when the structure is released. */
  lemma HarmIsDone(types: Schema, ty: nat, s: bytes)
    requires SoundSchema(types) && ty < |types| && Hurting(types, true, ty, s)
    ensures DecodeRelease(types, ty, NOTHING, s).bad
  {
    hide SoundSchema, HeapDecode, Blank, Release, Hurting;
    BlankHurts(types, true, ty, s, NOTHING);
  }

  /** Every way into a risky type for which such encodings exist is an input that leaks, or that does harm, provided
      the records around it fit their length prefixes. */
  lemma RiskyHurts(types: Schema, harm: bool, ty: nat, path: seq<nat>, ev: Evidence)
    requires SoundSchema(types) && Leads(types, ty, path) && Shows(types, harm, EndOf(types, ty, path), ev)
    requires var s := Wrap(types, ty, path, HurtBytes(types, EndOf(types, ty, path), ev)); path == [] || |s| < TWO32
    ensures var after := DecodeRelease(types, ty, NOTHING,
            Wrap(types, ty, path, HurtBytes(types, EndOf(types, ty, path), ev)));
            if harm then after.bad && !NeverHarms(types, ty) else after.live != multiset{} && !NeverLeaks(types, ty)
  {
    hide SoundSchema, Shows, Hurting, HurtBytes, DecodeRelease, Wrap;
    var t := EndOf(types, ty, path);
    var s := HurtBytes(types, t, ev);
    ShownHurts(types, harm, t, ev);
    WrapHurts(types, harm, ty, path, s);
    if harm {
      HarmIsDone(types, ty, Wrap(types, ty, path, s));
    } else {
      LossIsALeak(types, ty, Wrap(types, ty, path, s));
    }
    assert Holds(NOTHING, Clean, NOTHING.live);
  }

  /** There are encodings for some risky type that messages of type ty can contain. */
  ghost predicate Shown(types: Schema, harm: bool, ty: nat)
    requires ty < |types|
  {
    exists path, ev ::
      && Leads(types, ty, path) && Shows(types, harm, EndOf(types, ty, path), ev)
      && (path == [] || |Wrap(types, ty, path, HurtBytes(types, EndOf(types, ty, path), ev))| < TWO32)
  }

  lemma ShownRisk(types: Schema, harm: bool, ty: nat)
    requires SoundSchema(types) && ty < |types| && Shown(types, harm, ty)
    ensures if harm then !NeverHarms(types, ty) else !NeverLeaks(types, ty)
  {
    hide SoundSchema, Shows, Wrap, HurtBytes, DecodeRelease;
    var path, ev :| && Leads(types, ty, path) && Shows(types, harm, EndOf(types, ty, path), ev)
                    && (path == [] || |Wrap(types, ty, path, HurtBytes(types, EndOf(types, ty, path), ev))| < TWO32);
    RiskyHurts(types, harm, ty, path, ev);
  }

  /** Exactly the loss-free types never leak, wherever the others have messages to show it with. */
  lemma LossFreeIsExact(types: Schema, ty: nat)
    requires SoundSchema(types) && ty < |types| && (LossFree(types, ty) || Shown(types, false, ty))
    ensures LossFree(types, ty) <==> NeverLeaks(types, ty)
  {
    hide SoundSchema, LossFree, Shown, DecodeRelease;
    if LossFree(types, ty) {
      forall h: Heap, s: bytes | Holds(h, Clean, h.live) ensures DecodeRelease(types, ty, h, s).live == h.live {
        LossFreeGivesBack(types, ty, h, s);
      }
    } else {
      ShownRisk(types, false, ty);
    }
  }

  lemma LossFreeGivesBack(types: Schema, ty: nat, h: Heap, s: bytes)
    requires SoundSchema(types) && ty < |types| && LossFree(types, ty) && Holds(h, Clean, h.live)
    ensures DecodeRelease(types, ty, h, s).live == h.live
  {
    hide SoundSchema, LossFree, Release, HeapDecode, Blank;
    OneCall(types, Clean, ty, s);
    ReleaseEndsRun(types, ty, h, [Decode(s)]);
    var r := HeapDecode(types, ty, Blank(types, ty), h, s);
    assert Run(types, ty, Blank(types, ty), h, [Decode(s)]) == Run(types, ty, r.v, r.heap, []);
  }

  lemma OneCall(types: Schema, mode: Mode, ty: nat, s: bytes)
    requires ty < |types|
    ensures Allowed(types, mode, ty, [Decode(s)], true) && Allowed(types, mode, ty, [Decode(s), ReleaseIt], true)
  {
    hide Sturdy, Delicate;
    assert [Decode(s)][1..] == [] && [Decode(s), ReleaseIt][1..] == [ReleaseIt] && [ReleaseIt][1..] == [];
    assert Allowed(types, mode, ty, [], false) && Allowed(types, mode, ty, [], true);
    assert Allowed(types, mode, ty, [ReleaseIt], false);
  }

  /** Exactly the harm-free types never come to harm, wherever the others have messages to show it with. */
  lemma HarmFreeIsExact(types: Schema, ty: nat)
    requires SoundSchema(types) && ty < |types| && (HarmFree(types, ty) || Shown(types, true, ty))
    ensures HarmFree(types, ty) <==> NeverHarms(types, ty)
  {
    hide SoundSchema, HarmFree, Shown, DecodeRelease;
    if HarmFree(types, ty) {
      forall h: Heap, s: bytes | Holds(h, Clean, h.live) &&
          h.lost == multiset{} ensures !DecodeRelease(types, ty, h, s).bad {
        HarmFreeIsUnharmed(types, ty, h, s);
      }
    } else {
      ShownRisk(types, true, ty);
    }
  }

  lemma HarmFreeIsUnharmed(types: Schema, ty: nat, h: Heap, s: bytes)
    requires SoundSchema(types) && ty < |types| && HarmFree(types, ty) && Holds(h, Clean, h.live) &&
             h.lost == multiset{}
    ensures !DecodeRelease(types, ty, h, s).bad
  {
    hide SoundSchema, HarmFree, Release, HeapDecode, Blank;
    OneCall(types, Every, ty, s);
    NeverFreedTwice(types, ty, h, [Decode(s), ReleaseIt]);
    var r := HeapDecode(types, ty, Blank(types, ty), h, s);
    assert [Decode(s), ReleaseIt][1..] == [ReleaseIt];
    assert Run(types, ty, Blank(types, ty), h, [Decode(s), ReleaseIt]) == Run(types, ty, r.v, r.heap, [ReleaseIt]);
    var (slots, h1) := Release(types, ty, r.v, r.heap);
    assert Run(types, ty, r.v, r.heap, [ReleaseIt]) == Run(types, ty, slots, h1, []);
  }
}
