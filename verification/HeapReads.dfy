/** What the allocating decoder accepts. When memory is granted, it takes exactly the inputs that the decoder for
    fields in place takes when every pointer is replaced by the largest field of its kind, and reads them to the
    same byte. The one difference between them is where a submessage behind a pointer starts: with a new structure. */
module HeapReads {
  import opened Wire
  import opened Descriptor
  import opened Options
  import opened DecodeSpec
  import opened HeapDecoder
  import opened Ownership
  import opened HeapRelease
  import opened HeapWipes
  import opened HeapDefaults
  import opened HeapAgreement

  // ---------------------------------------------------------------- pointers replaced by roomy fields

  /** A string may be up to 2^32 - 2 bytes long, a byte array up to 2^32 - 1, an array may have 2^32 - 1 entries. */
  function RoomyField(types: Schema, p: PField, depth: nat): Field
    decreases depth, 0
  {
    var sub := if !p.f.ltype.LSubmessage? then p.f.sub else if depth == 0 then [] else Roomy(types, p.sub, depth - 1);
    if !IsPointer(p) then p.f.(sub := sub)
    else
      var size := if p.f.ltype.LString? then 0xFFFF_FFFF else if p.f.ltype.LBytes? then 0xFFFF_FFFF + 4
          else p.f.dataSize;
      p.f.(sub := sub, dataSize := size, arraySize := 0xFFFF_FFFF)
  }

  /** The descriptor of a message type with its submessages down to the given depth. */
  function Roomy(types: Schema, ty: nat, depth: nat): (fields: seq<Field>)
    ensures |fields| == if ty < |types| then |types[ty]| else 0
    decreases depth, 1
  {
    if ty >= |types| then []
    else seq(|types[ty]|, i requires 0 <= i < |types[ty]| => RoomyField(types, types[ty][i], depth))
  }

  // ---------------------------------------------------------------- descriptors that find the same fields

  predicate AlikeField(f: Field, g: Field) {
    && f.tag == g.tag && f.ltype == g.ltype && f.htype == g.htype && f.atype == g.atype
    && f.dataOffset == g.dataOffset && f.sizeOffset == g.sizeOffset
    && (FixedCount(f) ==> f.arraySize == g.arraySize)
    && MemberSize(f) == MemberSize(g)
  }

  predicate Alike(fs: seq<Field>, gs: seq<Field>) {
    |fs| == |gs| && forall i :: 0 <= i < |fs| ==> AlikeField(fs[i], gs[i])
  }

  lemma RoomyAlike(types: Schema, ty: nat, depth: nat)
    requires SoundSchema(types) && ty < |types|
    ensures Alike(Bare(types[ty]), Roomy(types, ty, depth))
  {
    hide SoundSchema;
    forall i | 0 <= i < |types[ty]| ensures AlikeField(Bare(types[ty])[i], Roomy(types, ty, depth)[i]) {
      SchemaField(types, ty, i);
      assert Bare(types[ty])[i] == types[ty][i].f;
    }
  }

  lemma RoomyAt(types: Schema, ty: nat, depth: nat, i: nat)
    requires SoundSchema(types) && ty < |types| && i < |types[ty]|
    ensures Roomy(types, ty, depth)[i] == RoomyField(types, types[ty][i], depth)
    ensures AlikeField(types[ty][i].f, Roomy(types, ty, depth)[i])
    ensures Bare(types[ty])[i] == types[ty][i].f && SoundField(types, ty, types[ty][i])
    ensures Home(Roomy(types, ty, depth), i) == Home(Bare(types[ty]), i)
    ensures types[ty][i].f.ltype.LSubmessage? ==> types[ty][i].sub < |types|
  {
    hide SoundSchema, Roomy, Alike;
    RoomyAlike(types, ty, depth);
    HomeAlike(Bare(types[ty]), Roomy(types, ty, depth), i);
    SchemaField(types, ty, i);
    RoomyEntry(types, ty, depth, i);
    assert AlikeField(Bare(types[ty])[i], Roomy(types, ty, depth)[i]) by {
      AlikeAt(Bare(types[ty]), Roomy(types, ty, depth), i);
    }
  }

  lemma RoomyEntry(types: Schema, ty: nat, depth: nat, i: nat)
    requires ty < |types| && i < |types[ty]|
    ensures Roomy(types, ty, depth)[i] == RoomyField(types, types[ty][i], depth)
  {
  }

  lemma AlikeAt(fs: seq<Field>, gs: seq<Field>, i: nat)
    requires Alike(fs, gs) && i < |fs|
    ensures |fs| == |gs| && AlikeField(fs[i], gs[i])
  {
  }

  lemma {:induction false} HomeAlike(fs: seq<Field>, gs: seq<Field>, i: nat)
    requires Alike(fs, gs) && i < |fs|
    ensures |fs| == |gs| && InsideUnion(fs, i) == InsideUnion(gs, i) && Home(fs, i) == Home(gs, i)
  {
    if InsideUnion(fs, i) { HomeAlike(fs, gs, i - 1); }
  }

  lemma {:induction false} FindAlike(fs: seq<Field>, gs: seq<Field>, tag: nat, i: nat)
    requires Alike(fs, gs) && i <= |fs|
    ensures |fs| == |gs| && FindFrom(fs, tag, i) == FindFrom(gs, tag, i)
    decreases |fs| - i
  {
    if i < |fs| { FindAlike(fs, gs, tag, i + 1); }
  }

  lemma {:induction false} ReqAlike(fs: seq<Field>, gs: seq<Field>, i: nat)
    requires Alike(fs, gs) && i <= |fs|
    ensures |fs| == |gs| && ReqIndex(fs, i) == ReqIndex(gs, i)
  {
    if i > 0 { ReqAlike(fs, gs, i - 1); }
  }

  lemma {:induction false} OffsetsAlike(fs: seq<Field>, gs: seq<Field>, i: nat)
    requires Alike(fs, gs) && i < |fs|
    ensures |fs| == |gs| && DataOffset(fs, i) == DataOffset(gs, i) && SizeOffset(fs, i) == SizeOffset(gs, i)
  {
    hide MemberSize;
    if i > 0 { OffsetsAlike(fs, gs, i - 1); }
  }

  /** The array in progress, if any, is one without a count. */
  predicate Counting(fs: seq<Field>, c: State) {
    c.fixed.Some? && c.fixed.value < |fs| ==> FixedCount(fs[c.fixed.value])
  }

  lemma ControlAlike(fs: seq<Field>, gs: seq<Field>, c: State, st: State, i: nat)
    requires Alike(fs, gs) && Counting(fs, c) && SameControl(c, st) && i < |fs|
    ensures |fs| == |gs| && StartFixed(fs, c, i).Some? == StartFixed(gs, st, i).Some?
    ensures StartFixed(fs, c, i).Some? ==>
              var c', st' := StartFixed(fs, c, i).value, StartFixed(gs, st, i).value;
              SameControl(c', st') && Counting(fs, c') && st'.msg == st.msg
    ensures forall seen :: MarkSeen(fs, seen, i) == MarkSeen(gs, seen, i)
  {
    hide MemberSize;
    ReqAlike(fs, gs, i);
  }

  lemma CompleteAlike(fs: seq<Field>, gs: seq<Field>, c: State, st: State)
    requires Alike(fs, gs) && Counting(fs, c) && SameControl(c, st)
    ensures Complete(fs, c) == Complete(gs, st)
  {
    hide MemberSize;
    ReqAlike(fs, gs, |fs|);
  }

  // ---------------------------------------------------------------- structures that read alike

  /** An entry in place; at depth 0 no bytes are left to read into it. */
  predicate LikeVal(types: Schema, p: PField, v: Val, d: Datum, depth: nat)
    decreases depth, 0
  {
    p.f.ltype.LSubmessage? && depth > 0 ==> v.Struct? && d.Sub? && Like(types, p.sub, v.slots, d.slots, depth - 1)
  }

  /** Counts and which_ are equal, and so is what is in place. What is behind a pointer does not matter. */
  predicate LikeSlot(types: Schema, p: PField, slot: PSlot, s: Slot, depth: nat)
    decreases depth, 1
  {
    match p.f.htype
    case Repeated =>
      && s.Many? && slot.size == s.count
      && if IsPointer(p) then |slot.vals| == 1 && slot.size <= |s.items| == 0xFFFF_FFFF
         else |slot.vals| == |s.items| == p.f.arraySize &&
              forall k :: 0 <= k < |slot.vals| ==> LikeVal(types, p, slot.vals[k], s.items[k], depth)
    case Oneof =>
      && s.Union? && slot.size == s.which && |slot.vals| == 1
      && (s.which == p.f.tag && !IsPointer(p) ==> LikeVal(types, p, slot.vals[0], s.data, depth))
    case _ => s.One? && |slot.vals| == 1 && (!IsPointer(p) ==> LikeVal(types, p, slot.vals[0], s.data, depth))
  }

  predicate Like(types: Schema, ty: nat, slots: seq<PSlot>, m: Message, depth: nat)
    decreases depth, 2
  {
    && ty < |types| && |slots| == |m| == |types[ty]|
    && forall i :: 0 <= i < |slots| ==>
         LikeSlot(types, types[ty][i], slots[Home(Bare(types[ty]), i)], m[Home(Bare(types[ty]), i)], depth)
  }

  lemma LikeAt(types: Schema, ty: nat, slots: seq<PSlot>, m: Message, depth: nat, i: nat)
    requires Like(types, ty, slots, m, depth) && i < |slots|
    ensures ty < |types| && |slots| == |m| == |types[ty]|
    ensures LikeSlot(types, types[ty][i], slots[Home(Bare(types[ty]), i)], m[Home(Bare(types[ty]), i)], depth)
  {
  }

  lemma LikeLength(types: Schema, ty: nat, slots: seq<PSlot>, m: Message, depth: nat)
    requires Like(types, ty, slots, m, depth)
    ensures ty < |types| && |slots| == |m| == |types[ty]|
  {
  }

  // ---------------------------------------------------------------- zeroed and default structures

  lemma {:induction false} BlankLike(types: Schema, ty: nat, depth: nat)
    requires SoundSchema(types) && ty < |types|
    ensures Like(types, ty, Blank(types, ty), ZeroMessage(Roomy(types, ty, depth)), depth)
    decreases depth
  {
    hide SoundSchema, Bare, Home, LikeSlot, Blank, ZeroMessage, BlankSlot, ZeroSlot, Roomy, RoomyField, AlikeField,
        SoundField;
    forall i | 0 <= i < |types[ty]|
      ensures var at := Home(Bare(types[ty]), i);
              LikeSlot(types, types[ty][i], Blank(types, ty)[at], ZeroMessage(Roomy(types, ty, depth))[at], depth)
    {
      RoomyAt(types, ty, depth, i);
      var at := Home(Bare(types[ty]), i);
      RoomyAt(types, ty, depth, at);
      ZeroedAt(types, ty, Roomy(types, ty, depth), at);
      var p := types[ty][i];
      if p.f.ltype.LSubmessage? && !IsPointer(p) && depth > 0 { BlankLike(types, p.sub, depth - 1); }
      BlankSlotLike(types, ty, i, depth);
    }
  }

  lemma ZeroedAt(types: Schema, ty: nat, fields: seq<Field>, i: nat)
    requires ty < |types| && i < |types[ty]| && i < |fields|
    ensures Blank(types, ty)[i] == BlankSlot(types, ty, i) && ZeroMessage(fields)[i] == ZeroSlot(fields[i])
  {
    hide BlankSlot, ZeroSlot;
  }

  lemma BlankSlotLike(types: Schema, ty: nat, i: nat, depth: nat)
    requires ty < |types| && i < |types[ty]| && SoundField(types, ty, types[ty][i])
    requires var p := types[ty][i];
             p.f.ltype.LSubmessage? && !IsPointer(p) && depth > 0 ==>
               Like(types, p.sub, Blank(types, p.sub), ZeroMessage(Roomy(types, p.sub, depth - 1)), depth - 1)
    ensures var at := Home(Bare(types[ty]), i);
            LikeSlot(types, types[ty][i], BlankSlot(types, ty, at), ZeroSlot(RoomyField(types, types[ty][at], depth)),
                depth)
  {
    hide SoundSchema, Like, Blank, ZeroMessage, Roomy;
    var at := Home(Bare(types[ty]), i);
    assert Bare(types[ty])[at] == types[ty][at].f;
    var p := types[ty][i];
    if !p.f.htype.Oneof? && !IsPointer(p) {
      assert LikeVal(types, p, BlankEntry(types, ty, p), ZeroDatum(RoomyField(types, p, depth)), depth);
    }
  }

  lemma {:induction false} WipedValLike(types: Schema, ty: nat, p: PField, v: Val, d: Datum, c: int, depth: nat)
    requires SoundSchema(types) && ty < |types| && SoundField(types, ty, p) && !IsPointer(p)
    requires LikeVal(types, p, v, d, depth)
    ensures LikeVal(types, p, WipedVal(types, ty, p, v, c), WipedDatum(RoomyField(types, p, depth), d, c), depth)
    decreases depth, 0
  {
    hide SoundSchema, Like, WipedSlots, Wiped, Roomy;
    if p.f.ltype.LSubmessage? && depth > 0 && c > 0 { WipedLike(types, p.sub, v.slots, d.slots, c, depth - 1); }
  }

  lemma {:induction false} WipedLike(types: Schema, ty: nat, slots: seq<PSlot>, m: Message, c: int, depth: nat)
    requires SoundSchema(types) && Like(types, ty, slots, m, depth)
    ensures Like(types, ty, WipedSlots(types, ty, slots, c), Wiped(Roomy(types, ty, depth), m, c), depth)
    decreases depth, 3
  {
    hide SoundSchema, Bare, LikeSlot, WipedSlots, Wiped;
    LikeLength(types, ty, slots, m, depth);
    forall i | 0 <= i < |slots|
      ensures var at := Home(Bare(types[ty]), i);
              LikeSlot(types, types[ty][i], WipedSlots(types, ty, slots, c)[at],
                       Wiped(Roomy(types, ty, depth), m, c)[at], depth)
    {
      WipedFieldLike(types, ty, slots, m, c, i, depth);
    }
  }

  lemma {:induction false} WipedFieldLike(types: Schema, ty: nat, slots: seq<PSlot>, m: Message, c: int, i: nat,
                                          depth: nat)
    requires SoundSchema(types) && Like(types, ty, slots, m, depth) && i < |slots|
    ensures |slots| == |m| == |types[ty]|
    ensures var at := Home(Bare(types[ty]), i);
            LikeSlot(types, types[ty][i], WipedSlots(types, ty, slots, c)[at],
                     Wiped(Roomy(types, ty, depth), m, c)[at], depth)
    decreases depth, 2
  {
    hide SoundSchema, Like, LikeSlot, WipedSlots, Wiped, WipedPSlot, WipedSlot, DataOffset, SizeOffset, Alike, Roomy,
        RoomyField;
    LikeAt(types, ty, slots, m, depth, i);
    var fields, roomy := Bare(types[ty]), Roomy(types, ty, depth);
    var p, at := types[ty][i], Home(fields, i);
    RoomyAt(types, ty, depth, i);
    RoomyAt(types, ty, depth, at);
    RoomyAlike(types, ty, depth);
    OffsetsAlike(fields, roomy, at);
    WipedSlotAt(types, ty, slots, c, i);
    WipedAt(roomy, m, c, i);
    var data, size := c - DataOffset(fields, at), c - SizeOffset(fields, at);
    if p.f.htype.Oneof? {
      TagPositive(types, ty, p);
      WipedUnionLike(types, ty, p, types[ty][at], roomy[at], slots[at], m[at], data, size, depth);
    } else {
      WipedPlaceLike(types, ty, p, slots[i], m[i], data, size, depth);
    }
  }

  lemma WipedUnionLike(types: Schema, ty: nat, p: PField, home: PField, f: Field, slot: PSlot, s: Slot, data: int,
                       size: int, depth: nat)
    requires p.f.htype.Oneof? && home.f.htype.Oneof? && p.f.tag >= 1 && LikeSlot(types, p, slot, s, depth)
    ensures LikeSlot(types, p, WipedPSlot(types, ty, home, slot, data, size), WipedSlot(f, s, data, size), depth)
  {
    hide LikeVal;
  }

  lemma {:induction false} WipedPlaceLike(types: Schema, ty: nat, p: PField, slot: PSlot, s: Slot, data: int, size: int,
                                          depth: nat)
    requires SoundSchema(types) && ty < |types| && SoundField(types, ty, p)
    requires !p.f.htype.Oneof? && LikeSlot(types, p, slot, s, depth)
    ensures LikeSlot(types, p, WipedPSlot(types, ty, p, slot, data, size),
                     WipedSlot(RoomyField(types, p, depth), s, data, size), depth)
    decreases depth, 1
  {
    hide SoundSchema, LikeVal, WipedVal, WipedDatum, Roomy;
    var f := RoomyField(types, p, depth);
    if IsPointer(p) {
    } else if p.f.htype.Repeated? {
      forall k | 0 <= k < |slot.vals|
        ensures LikeVal(types, p, WipedVals(types, ty, p, slot.vals, data)[k], WipedItems(f, s.items, data)[k], depth)
      {
        WipedValLike(types, ty, p, slot.vals[k], s.items[k], data - k * p.f.dataSize, depth);
      }
    } else {
      WipedValLike(types, ty, p, slot.vals[0], s.data, data, depth);
      assert data - 0 * p.f.dataSize == data;
    }
  }

  lemma {:induction false} DefaultsLike(types: Schema, ty: nat, slots: seq<PSlot>, m: Message, depth: nat)
    requires SoundSchema(types) && Like(types, ty, slots, m, depth)
    ensures Like(types, ty, Defaults(types, ty, slots), Default(Roomy(types, ty, depth), m), depth)
    decreases depth, 1
  {
    hide SoundSchema, Bare, LikeSlot, DefaultPSlot, DefaultSlot, Roomy;
    LikeLength(types, ty, slots, m, depth);
    forall i | 0 <= i < |slots|
      ensures var at := Home(Bare(types[ty]), i);
              LikeSlot(types, types[ty][i], Defaults(types, ty, slots)[at], Default(Roomy(types, ty, depth), m)[at],
                  depth)
    {
      var at := Home(Bare(types[ty]), i);
      RoomyAt(types, ty, depth, i);
      RoomyAt(types, ty, depth, at);
      DefaultSlotLike(types, ty, slots, m, i, depth);
    }
  }

  lemma {:induction false} DefaultSlotLike(types: Schema, ty: nat, slots: seq<PSlot>, m: Message, i: nat, depth: nat)
    requires SoundSchema(types) && Like(types, ty, slots, m, depth) && i < |slots|
    ensures |slots| == |m| == |types[ty]|
    ensures var at := Home(Bare(types[ty]), i);
            LikeSlot(types, types[ty][i], DefaultPSlot(types, ty, at, slots[at]),
                     DefaultSlot(RoomyField(types, types[ty][at], depth), m[at]), depth)
    decreases depth, 0
  {
    hide SoundSchema, Like, Blank, ZeroMessage, Default, Defaults, Roomy;
    LikeAt(types, ty, slots, m, depth, i);
    SchemaField(types, ty, i);
    var at := Home(Bare(types[ty]), i);
    assert Bare(types[ty])[at] == types[ty][at].f;
    var p := types[ty][i];
    if p.f.htype.Oneof? {
      TagPositive(types, ty, p);
    } else if IsPointer(p) {
    } else if p.f.htype.Repeated? {
      DefaultArrayLike(types, ty, i, slots[i], m[i], depth);
    } else if p.f.ltype.LSubmessage? && depth > 0 {
      var d := m[at].data;
      SubSlotsLike(types, p, slots[at].vals[0], d, depth);
      DefaultsLike(types, p.sub, slots[at].vals[0].slots, d.slots, depth - 1);
    }
  }

  lemma DefaultArrayLike(types: Schema, ty: nat, i: nat, slot: PSlot, s: Slot, depth: nat)
    requires SoundSchema(types) && ty < |types| && i < |types[ty]|
    requires types[ty][i].f.htype.Repeated? && !IsPointer(types[ty][i]) && LikeSlot(types, types[ty][i], slot, s, depth)
    ensures LikeSlot(types, types[ty][i], DefaultPSlot(types, ty, i, slot),
                     DefaultSlot(RoomyField(types, types[ty][i], depth), s), depth)
  {
    hide SoundSchema, LikeVal, WipedVals, WipedItems, Roomy;
    SchemaField(types, ty, i);
    var p := types[ty][i];
    DefaultArray(types, ty, i, slot);
    if FixedCount(p.f) {
      WipedPlaceLike(types, ty, p, slot, s, COUNT_BYTES, 0, depth);
      assert LikeSlot(types, p, PSlot(slot.size, WipedVals(types, ty, p, slot.vals, COUNT_BYTES)),
                      Many(s.count, WipedItems(RoomyField(types, p, depth), s.items, COUNT_BYTES)), depth);
    }
  }

  lemma SubSlotsLike(types: Schema, p: PField, v: Val, d: Datum, depth: nat)
    requires p.f.ltype.LSubmessage? && !IsPointer(p) && depth > 0 && LikeVal(types, p, v, d, depth)
    ensures var f := RoomyField(types, p, depth);
            f.sub == Roomy(types, p.sub, depth - 1) && SlotsOf(f, d) == d.slots &&
            Like(types, p.sub, v.slots, SlotsOf(f, d), depth - 1)
  {
    hide LikeSlot;
  }

  // ---------------------------------------------------------------- entries

  /** A leaf behind a pointer, other than a string or byte array. */
  lemma RoomyLeaf(types: Schema, p: PField, d: Datum, s: bytes, depth: nat)
    requires IsPointer(p) && !p.f.ltype.LSubmessage? && !p.f.ltype.LString? && !p.f.ltype.LBytes?
    ensures var q := DecDatum(RoomyField(types, p, depth), d, s);
            q.Ok? == LeafRest(p.f, s).Ok? && (q.Ok? ==> q.rest == LeafRest(p.f, s).rest)
  {
    hide DecLeaf, LeafRest;
    LeafIgnoresArraySize(p.f, 0xFFFF_FFFF, d, s);
  }

  lemma RoomyBuffer(types: Schema, p: PField, v: Val, d: Datum, h: Heap, s: bytes, depth: nat)
    requires IsPointer(p) && (p.f.ltype.LString? || p.f.ltype.LBytes?) && h.grants == []
    ensures var r, q := DecHeapBuffer(p, v, h, s), DecDatum(RoomyField(types, p, depth), d, s);
            r.ok == q.Ok? && (r.ok ==> r.rest == q.rest)
  {
    hide DecHeapBuffer, DecLeaf;
    BufferMatches(p, v, d, h, s);
    var f := RoomyField(types, p, depth);
    LeafLooksAtSize(p.f.(dataSize := f.dataSize), f, d, s);
  }

  lemma LeafLooksAtSize(f: Field, g: Field, d: Datum, s: bytes)
    requires (f.ltype.LString? || f.ltype.LBytes?) && g == f.(sub := g.sub, arraySize := g.arraySize)
    ensures DecLeaf(f, d, s) == DecLeaf(g, d, s)
  {
    hide DecVarint32;
  }

  predicate EntryLike(types: Schema, p: PField, depth: nat, r: Out<Val>, q: Res<Datum>) {
    r.ok == q.Ok? && (r.ok ==> r.rest == q.rest && (!IsPointer(p) ==> LikeVal(types, p, r.v, q.value, depth)))
  }

  /** A fresh entry behind a pointer. */
  lemma {:induction false} FreshReads(types: Schema, ty: nat, p: PField, d: Datum, h: Heap, s: bytes, depth: nat)
    requires SoundSchema(types) && ty < |types| && SoundField(types, ty, p) && IsPointer(p)
    requires !p.f.ltype.LString? && !p.f.ltype.LBytes? && h.grants == [] && |s| < depth
    ensures EntryLike(types, p, depth, DecHeapEntry(types, p, FreshEntry(types, p), h, s),
                      DecDatum(RoomyField(types, p, depth), d, s))
    decreases |s|, 1
  {
    hide SoundSchema, SoundField, Like, HeapDecode, HeapDecodeNoinit, DecMessage, DecLeaf, LeafRest, Default, Defaults,
        Roomy, Blank, ZeroMessage;
    var f := RoomyField(types, p, depth);
    if p.f.ltype.LSubmessage? {
      SubType(types, ty, p);
      assert FreshEntry(types, p) == Struct(Defaults(types, p.sub, Blank(types, p.sub)));
      assert f.sub == Roomy(types, p.sub, depth - 1);
      BlankLike(types, p.sub, depth - 1);
      DefaultsLike(types, p.sub, Blank(types, p.sub), ZeroMessage(f.sub), depth - 1);
      var start := Default(f.sub, ZeroMessage(f.sub));
      SubmessageReads(types, p, f, Defaults(types, p.sub, Blank(types, p.sub)), start, d, h, s, depth - 1);
    } else {
      RoomyLeaf(types, p, d, s, depth);
    }
  }

  lemma SubType(types: Schema, ty: nat, p: PField)
    requires SoundField(types, ty, p) && p.f.ltype.LSubmessage?
    ensures p.sub < |types| && (!IsPointer(p) ==> p.sub < ty)
  {
  }

  /** A submessage record, read into structures that are alike. */
  lemma {:induction false} SubmessageReads(types: Schema, p: PField, f: Field, slots: seq<PSlot>, m: Message, d: Datum,
                                           h: Heap, s: bytes, depth: nat)
    requires SoundSchema(types) && p.sub < |types| && f.ltype.LSubmessage? && f.sub == Roomy(types, p.sub, depth)
    requires f.htype == p.f.htype && Like(types, p.sub, slots, m, depth) && h.grants == [] && |s| <= depth
    requires m == if f.atype.Pointer? then Default(f.sub, ZeroMessage(f.sub)) else SlotsOf(f, d)
    ensures var r, q := DecHeapSub(types, p, slots, h, s), DecSub(f, d, s);
            r.ok == q.Ok? &&
            (r.ok ==> r.rest == q.rest && q.value.Sub? && Like(types, p.sub, r.v, q.value.slots, depth))
    decreases |s|, 0
  {
    hide SoundSchema, SoundField, Like, HeapDecode, HeapDecodeNoinit, DecMessage, Default, Defaults, Roomy, Blank,
        ZeroMessage;
    LikeLength(types, p.sub, slots, m, depth);
    match TakeDelimited(s)
    case Err =>
    case Ok(body, rest) =>
      if p.f.htype.Repeated? { DecodeReads(types, p.sub, slots, m, h, body, depth); }
      else { NoinitReads(types, p.sub, slots, m, h, body, depth); }
  }

  /** An entry in place. */
  lemma {:induction false} EntryReads(types: Schema, ty: nat, p: PField, v: Val, d: Datum, h: Heap, s: bytes,
                                      depth: nat)
    requires SoundSchema(types) && ty < |types| && SoundField(types, ty, p) && !IsPointer(p)
    requires LikeVal(types, p, v, d, depth) && h.grants == [] && |s| < depth
    ensures EntryLike(types, p, depth, DecHeapEntry(types, p, v, h, s), DecDatum(RoomyField(types, p, depth), d, s))
    decreases |s|, 1
  {
    hide SoundSchema, SoundField, Like, HeapDecode, HeapDecodeNoinit, DecMessage, DecLeaf, LeafRest, Default, Defaults,
        Roomy, Blank, ZeroMessage;
    var f := RoomyField(types, p, depth);
    if p.f.ltype.LSubmessage? {
      SubType(types, ty, p);
      SubSlotsLike(types, p, v, d, depth);
      SubmessageReads(types, p, f, v.slots, SlotsOf(f, d), d, h, s, depth - 1);
    } else {
      LeafAgrees(p.f, d, s);
    }
  }

  // ---------------------------------------------------------------- fields

  predicate FieldLike(types: Schema, p: PField, depth: nat, r: Out<(PSlot, nat)>, q: Res<(Slot, nat)>) {
    && r.ok == q.Ok?
    && (r.ok ==> r.rest == q.rest && r.v.1 == q.value.1 && LikeSlot(types, p, r.v.0, q.value.0, depth) &&
                 Current(p, r.v.0))
  }

  lemma {:induction false} StaticReads(types: Schema, ty: nat, p: PField, wireType: nat, slot: PSlot, sl: Slot,
                                       got: nat, h: Heap, s: bytes, depth: nat)
    requires SoundSchema(types) && ty < |types| && SoundField(types, ty, p) && !IsPointer(p)
    requires LikeSlot(types, p, slot, sl, depth) && h.grants == [] && |s| < depth
    requires sl.Union? ==> sl.which == 0 || sl.which == p.f.tag || Find(Roomy(types, ty, depth), sl.which).Some?
    ensures FieldLike(types, p, depth, DecHeapStatic(types, ty, p, wireType, slot, got, h, s),
                      DecSlot(Roomy(types, ty, depth), RoomyField(types, p, depth), wireType, sl, got, s))
    decreases |s|, 3
  {
    hide SoundSchema, SoundField, LikeVal, DecHeapEntry, DecDatum, DecPacked, Default, Defaults, Blank, ZeroMessage,
        Roomy, TakeDelimited, Find;
    var f := RoomyField(types, p, depth);
    match p.f.htype
    case Repeated =>
      if wireType == WT_STRING && Packable(p.f) {
        assert f == p.f;
        PackedRecordReads(types, ty, p, Roomy(types, ty, depth), wireType, slot, sl, got, h, s, depth);
      } else {
        ElementReads(types, ty, p, wireType, slot, sl, got, h, s, depth);
      }
    case Oneof =>
      UnionStartLike(types, ty, p, slot, sl, depth);
      EntryReads(types, ty, p, HeapStart(types, ty, p, slot), UnionStart(f, sl.which, sl.data), h, s, depth);
    case _ =>
      EntryReads(types, ty, p, slot.vals[0], sl.data, h, s, depth);
  }

  lemma PackedRecordReads(types: Schema, ty: nat, p: PField, fields: seq<Field>, wireType: nat, slot: PSlot, sl: Slot,
                          got: nat, h: Heap, s: bytes, depth: nat)
    requires ty < |types| && p.f.htype.Repeated? && Packable(p.f) && !IsPointer(p) && wireType == WT_STRING
    requires LikeSlot(types, p, slot, sl, depth)
    ensures FieldLike(types, p, depth, DecHeapStatic(types, ty, p, wireType, slot, got, h, s),
                      DecSlot(fields, p.f, wireType, sl, got, s))
  {
    hide LikeVal, DecPacked, ZeroDatum, TakeDelimited;
    var n := if FixedCount(p.f) then got else slot.size;
    if TakeDelimited(s).Ok? {
      PackedAgrees(p.f, seq(p.f.arraySize, _ => ZeroDatum(p.f)), sl.items, n, TakeDelimited(s).value);
      if DecPacked(p.f, sl.items, n, TakeDelimited(s).value).Some? {
        PackedKeepsLike(types, p, slot, sl, n, TakeDelimited(s).value, depth);
      }
    }
  }

  lemma {:induction false} ElementReads(types: Schema, ty: nat, p: PField, wireType: nat, slot: PSlot, sl: Slot,
                                        got: nat, h: Heap, s: bytes, depth: nat)
    requires SoundSchema(types) && ty < |types| && SoundField(types, ty, p) && !IsPointer(p) && p.f.htype.Repeated?
    requires !(wireType == WT_STRING && Packable(p.f))
    requires LikeSlot(types, p, slot, sl, depth) && h.grants == [] && |s| < depth
    ensures FieldLike(types, p, depth, DecHeapStatic(types, ty, p, wireType, slot, got, h, s),
                      DecSlot(Roomy(types, ty, depth), RoomyField(types, p, depth), wireType, sl, got, s))
    decreases |s|, 2
  {
    hide SoundSchema, SoundField, LikeVal, DecHeapEntry, DecDatum, DecPacked, ZeroDatum, Roomy, TakeDelimited;
    var n := if FixedCount(p.f) then got else slot.size;
    if n < p.f.arraySize { EntryReads(types, ty, p, slot.vals[n], sl.items[n], h, s, depth); }
  }

  lemma UnionStartLike(types: Schema, ty: nat, p: PField, slot: PSlot, sl: Slot, depth: nat)
    requires SoundSchema(types) && ty < |types| && SoundField(types, ty, p) && !IsPointer(p) && p.f.htype.Oneof?
    requires LikeSlot(types, p, slot, sl, depth)
    ensures LikeVal(types, p, HeapStart(types, ty, p, slot), UnionStart(RoomyField(types, p, depth), sl.which, sl.data),
                    depth)
  {
    hide SoundSchema, SoundField, Like, Default, Defaults, Blank, ZeroMessage, Roomy;
    if p.f.ltype.LSubmessage? && sl.which != p.f.tag && depth > 0 {
      SubType(types, ty, p);
      BlankLike(types, p.sub, depth - 1);
      DefaultsLike(types, p.sub, Blank(types, p.sub), ZeroMessage(Roomy(types, p.sub, depth - 1)), depth - 1);
    }
  }

  lemma PackedKeepsLike(types: Schema, p: PField, slot: PSlot, sl: Slot, n: nat, body: bytes, depth: nat)
    requires p.f.htype.Repeated? && Packable(p.f) && !IsPointer(p) && LikeSlot(types, p, slot, sl, depth) &&
             DecPacked(p.f, sl.items, n, body).Some?
    ensures var (items, n') := DecPacked(p.f, sl.items, n, body).value;
            && LikeSlot(types, p, slot, sl.(items := items), depth)
            && LikeSlot(types, p, slot.(size := n'), Many(n', items), depth)
  {
    hide DecPacked;
  }

  /** A record of a single pointer. */
  lemma {:induction false} SingleReads(types: Schema, ty: nat, p: PField, slot: PSlot, d: Datum, h: Heap, s: bytes,
                                       depth: nat)
    requires SoundSchema(types) && ty < |types| && SoundField(types, ty, p) && IsPointer(p)
    requires |slot.vals| == 1 && h.grants == [] && |s| < depth && !p.f.htype.Repeated?
    ensures var r, q := DecHeapSingle(types, p, slot, h, s), DecDatum(RoomyField(types, p, depth), d, s);
            && r.ok == q.Ok? && (r.ok ==> r.rest == q.rest)
            && |r.v.vals| == 1 && r.v.size == if p.f.htype.Oneof? then p.f.tag else slot.size
    decreases |s|, 2
  {
    hide SoundSchema, SoundField, DecHeapEntry, DecDatum, Roomy, RoomyField, Allocate, FreshEntry, DecHeapBuffer;
    OnePointer(types, p, slot, h);
    var (kept, h1) := BeforeSingle(types, p, slot, h);
    if p.f.ltype.LString? || p.f.ltype.LBytes? {
      RoomyBuffer(types, p, kept.vals[0], d, h1, s, depth);
    } else {
      assert 0 < p.f.dataSize <= PB_SIZE_MAX by { PointerSize(types, ty, p); }
      Granted(kept.vals[0], p.f.dataSize, 1, h1);
      FreshReads(types, ty, p, d, Allocate(kept.vals[0], p.f.dataSize, 1, h1).2, s, depth);
    }
  }

  lemma PointerSize(types: Schema, ty: nat, p: PField)
    requires SoundField(types, ty, p) && IsPointer(p)
    ensures 0 < p.f.dataSize <= PB_SIZE_MAX && !FixedCount(p.f)
  {
  }

  lemma OnePointer(types: Schema, p: PField, slot: PSlot, h: Heap)
    requires IsPointer(p) && |slot.vals| == 1 && h.grants == [] && !p.f.htype.Repeated?
    ensures var (kept, h1) := BeforeSingle(types, p, slot, h);
            |kept.vals| == 1 && kept.size == slot.size && h1.grants == []
  {
    hide ReleaseEntries, FreeEntries;
  }

  /** One more entry of a pointer array. */
  lemma {:induction false} AppendReads(types: Schema, ty: nat, p: PField, slot: PSlot, d: Datum, h: Heap, s: bytes,
                                       depth: nat)
    requires SoundSchema(types) && ty < |types| && SoundField(types, ty, p) && IsPointer(p) && p.f.htype.Repeated?
    requires |slot.vals| == 1 && slot.size < PB_SIZE_MAX && h.grants == [] && |s| < depth
    ensures var r, q := DecHeapAppend(types, p, slot, h, s), DecDatum(RoomyField(types, p, depth), d, s);
            && r.ok == q.Ok? && (r.ok ==> r.rest == q.rest)
            && |r.v.vals| == 1 && (r.ok ==> r.v.size == slot.size + 1)
    decreases |s|, 2
  {
    hide SoundSchema, SoundField, DecHeapEntry, DecDatum, Roomy, RoomyField, Allocate, FreshEntry, DecHeapBuffer;
    PointerSize(types, ty, p);
    Granted(slot.vals[0], p.f.dataSize, slot.size + 1, h);
    var (ok, v, h1) := Allocate(slot.vals[0], p.f.dataSize, slot.size + 1, h);
    var h2 := Append(v, FreshEntry(types, p), p.f.dataSize, h1).1;
    if PointerEntries(p) { RoomyBuffer(types, p, Null, d, h2, s, depth); }
    else { FreshReads(types, ty, p, d, h2, s, depth); }
  }

  lemma {:induction false} PointerReads(types: Schema, ty: nat, p: PField, wireType: nat, slot: PSlot, sl: Slot,
                                        got: nat, h: Heap, s: bytes, depth: nat)
    requires SoundSchema(types) && ty < |types| && SoundField(types, ty, p) && IsPointer(p)
    requires LikeSlot(types, p, slot, sl, depth) && h.grants == [] && |s| < depth
    requires sl.Union? ==> sl.which == 0 || sl.which == p.f.tag || Find(Roomy(types, ty, depth), sl.which).Some?
    ensures var r := DecHeapPointer(types, p, wireType, slot, h, s);
            FieldLike(types, p, depth, Out(r.ok, (r.v, got), r.heap, r.rest),
                      DecSlot(Roomy(types, ty, depth), RoomyField(types, p, depth), wireType, sl, got, s))
    decreases |s|, 3
  {
    hide SoundSchema, SoundField, DecHeapSingle, DecHeapAppend, DecHeapPacked, DecDatum, DecPacked, Roomy,
        TakeDelimited, Find, UnionStart;
    PointerSize(types, ty, p);
    var f := RoomyField(types, p, depth);
    match p.f.htype
    case Repeated =>
      if wireType == WT_STRING && Packable(p.f) {
        assert f == p.f.(arraySize := |sl.items|);
        if TakeDelimited(s).Ok? { PackedPointersMatch(p, slot, slot.size, h, sl.items, TakeDelimited(s).value); }
      } else if slot.size < PB_SIZE_MAX {
        AppendReads(types, ty, p, slot, sl.items[slot.size], h, s, depth);
      } else {
        assert DecHeapAppend(types, p, slot, h, s) == Out(false, slot, h, s) by { FullRefuses(types, p, slot, h, s); }
      }
    case Oneof => SingleReads(types, ty, p, slot, UnionStart(f, sl.which, sl.data), h, s, depth);
    case _ => SingleReads(types, ty, p, slot, sl.data, h, s, depth);
  }

  lemma FullRefuses(types: Schema, p: PField, slot: PSlot, h: Heap, s: bytes)
    requires slot.size == PB_SIZE_MAX
    ensures DecHeapAppend(types, p, slot, h, s) == Out(false, slot, h, s)
  {
  }

  /** A record of any field, the release of another union member included. */
  lemma {:induction false} FieldReads(types: Schema, ty: nat, i: nat, wireType: nat, slot: PSlot, sl: Slot, got: nat,
                                      h: Heap, s: bytes, depth: nat)
    requires SoundSchema(types) && ty < |types| && i < |types[ty]|
    requires LikeSlot(types, types[ty][i], slot, sl, depth) && h.grants == [] && |s| < depth
    ensures FieldLike(types, types[ty][i], depth, DecHeapField(types, ty, types[ty][i], wireType, slot, got, h, s),
                      DecSlot(Roomy(types, ty, depth), RoomyField(types, types[ty][i], depth), wireType, sl, got, s))
    decreases |s|, 4
  {
    hide SoundSchema, SoundField, LikeVal, DecHeapStatic, DecHeapPointer, ReleaseCurrent, DecDatum, DecPacked, Roomy,
        RoomyField, Alike;
    SchemaField(types, ty, i);
    var p := types[ty][i];
    var f := RoomyField(types, p, depth);
    RoomyKind(types, p, depth);
    if p.f.htype.Oneof? && slot.size != 0 && slot.size != p.f.tag {
      RoomyAlike(types, ty, depth);
      FindAlike(Bare(types[ty]), Roomy(types, ty, depth), slot.size, 0);
      match Find(Bare(types[ty]), slot.size)
      case None =>
      case Some(j) =>
        assert Bare(types[ty])[j] == types[ty][j].f;
        TagPositive(types, ty, p);
        ReleasedLike(types, p, types[ty][j], slot, sl, h, depth);
        var (ok, slot1, h1) := ReleaseUnion(types, types[ty], p, slot, h);
        var sl1 := Union(slot1.size, sl.data);
        OtherWhich(Roomy(types, ty, depth), f, wireType, sl.which, slot1.size, sl.data, got, s);
        if IsPointer(p) { PointerReads(types, ty, p, wireType, slot1, sl1, got, h1, s, depth); }
        else { StaticReads(types, ty, p, wireType, slot1, sl1, got, h1, s, depth); }
    } else if IsPointer(p) {
      PointerReads(types, ty, p, wireType, slot, sl, got, h, s, depth);
    } else {
      StaticReads(types, ty, p, wireType, slot, sl, got, h, s, depth);
    }
  }

  lemma RoomyKind(types: Schema, p: PField, depth: nat)
    ensures var f := RoomyField(types, p, depth); f.htype == p.f.htype && f.tag == p.f.tag && f.ltype == p.f.ltype
  {
  }

  lemma ReleasedLike(types: Schema, p: PField, member: PField, slot: PSlot, sl: Slot, h: Heap, depth: nat)
    requires p.f.htype.Oneof? && LikeSlot(types, p, slot, sl, depth) && slot.size != p.f.tag && p.f.tag >= 1
    ensures var released := ReleaseCurrent(types, member, slot, h).0;
            && (released.size == slot.size || released.size == 0)
            && LikeSlot(types, p, released, Union(released.size, sl.data), depth)
            && LikeSlot(types, p, released.(vals := [Null]), Union(released.size, sl.data), depth)
  {
    hide LikeVal, ReleaseEntries, FreeEntries;
  }

  /** Which other member was set makes no difference. */
  lemma OtherWhich(fields: seq<Field>, f: Field, wireType: nat, a: nat, b: nat, d: Datum, got: nat, s: bytes)
    requires f.htype.Oneof? && a != f.tag && b != f.tag
    requires (a == 0 || Find(fields, a).Some?) && (b == 0 || Find(fields, b).Some?)
    ensures DecSlot(fields, f, wireType, Union(a, d), got, s) == DecSlot(fields, f, wireType, Union(b, d), got, s)
  {
    hide Find, DecDatum, ZeroDatum, Default, ZeroMessage;
  }

  // ---------------------------------------------------------------- messages

  lemma StoreLike(types: Schema, ty: nat, slots: seq<PSlot>, m: Message, i: nat, slot: PSlot, sl: Slot, depth: nat)
    requires SoundSchema(types) && Like(types, ty, slots, m, depth) && i < |slots|
    requires ty < |types| && |slots| == |m| == |types[ty]|
    requires LikeSlot(types, types[ty][i], slot, sl, depth) && Current(types[ty][i], slot)
    ensures Like(types, ty, slots[Home(Bare(types[ty]), i) := slot], m[Home(Bare(types[ty]), i) := sl], depth)
  {
    hide SoundSchema, SoundField, LikeVal, Bare;
    var at := Home(Bare(types[ty]), i);
    forall j | 0 <= j < |slots|
      ensures LikeSlot(types, types[ty][j], slots[at := slot][Home(Bare(types[ty]), j)],
                       m[at := sl][Home(Bare(types[ty]), j)], depth)
    {
      LikeAt(types, ty, slots, m, depth, j);
      if Home(Bare(types[ty]), j) == at && j != i { OtherMembers(types, ty, i, j); }
    }
  }

  lemma OtherMembers(types: Schema, ty: nat, i: nat, j: nat)
    requires SoundSchema(types) && ty < |types| && i < |types[ty]| && j < |types[ty]| && i != j
    requires Home(Bare(types[ty]), i) == Home(Bare(types[ty]), j)
    ensures types[ty][i].f.htype.Oneof? && types[ty][j].f.htype.Oneof? && types[ty][i].f.tag != types[ty][j].f.tag
  {
    hide SoundSchema;
    SchemaField(types, ty, i);
    var fields := Bare(types[ty]);
    assert fields[i] == types[ty][i].f && fields[j] == types[ty][j].f;
    assert fields[i].htype.Oneof? && fields[j].htype.Oneof?;
    if i < j { assert fields[i].tag != fields[j].tag; } else { assert fields[j].tag != fields[i].tag; }
  }

  /** The record loop: the same records are accepted, the same bytes consumed, and the counts are equal. */
  lemma {:induction false} LoopReads(types: Schema, ty: nat, slots: seq<PSlot>, c: State, st: State, h: Heap, s: bytes,
                                     depth: nat)
    requires SoundSchema(types) && Like(types, ty, slots, st.msg, depth) && SameControl(c, st)
    requires ty < |types| && |slots| == |st.msg| == |types[ty]| && Counting(Bare(types[ty]), c)
    requires h.grants == [] && |s| <= depth
    ensures var (r, c') := HeapLoop(types, ty, slots, c, h, s); var q := DecLoop(Roomy(types, ty, depth), st, s);
            && r.ok == q.Done?
            && (r.ok ==> r.rest == q.rest && Like(types, ty, r.v, q.st.msg, depth) && SameControl(c', q.st) &&
                         Counting(Bare(types[ty]), c'))
    decreases |s|, 5
  {
    hide SoundSchema, SoundField, Like, Bare, Roomy, RoomyField, DecHeapField, DecSlot, SkipUnknown, DecVarint32,
        MarkSeen, LikeSlot, StartFixed, Alike, AlikeField, Counting, Home;
    var fields, roomy := Bare(types[ty]), Roomy(types, ty, depth);
    if s != [] && DecVarint32(s).Ok? && DecVarint32(s).value != 0 {
      var key, rest := DecVarint32(s).value, DecVarint32(s).rest;
      RoomyAlike(types, ty, depth);
      FindAlike(fields, roomy, key / 8, 0);
      match Find(fields, key / 8)
      case None =>
        assert SkipUnknown(fields, key / 8, key % 8, rest) == SkipUnknown(roomy, key / 8, key % 8, rest) by {
          SkipsAlike(fields, roomy, key / 8, key % 8, rest);
        }
        var r := SkipUnknown(fields, key / 8, key % 8, rest);
        if r.Ok? { LoopReads(types, ty, slots, c, st, h, r.rest, depth); }
      case Some(i) =>
        ControlAlike(fields, roomy, c, st, i);
        RoomyAt(types, ty, depth, i);
        if StartFixed(roomy, st, i).Some? {
          var c1, st1 := StartFixed(fields, c, i).value, StartFixed(roomy, st, i).value;
          assert SameControl(c1, st1) && Counting(fields, c1) && st1.msg == st.msg;
          var at := Home(fields, i);
          LikeAt(types, ty, slots, st.msg, depth, i);
          FieldReads(types, ty, i, key % 8, slots[at], st.msg[at], st1.got, h, rest, depth);
          var r := DecHeapField(types, ty, types[ty][i], key % 8, slots[at], c1.got, h, rest);
          var q := DecSlot(roomy, roomy[i], key % 8, st1.msg[at], st1.got, rest);
          assert FieldLike(types, types[ty][i], depth, r, q);
          var seen := MarkSeen(roomy, st1.seen, i);
          assert DecRecord(roomy, st, s) ==
                 if q.Ok? then Next(State(st1.msg[at := q.value.0], seen, st1.fixed, q.value.1), q.rest) else Fail;
          if r.ok {
            StoreLike(types, ty, slots, st.msg, i, r.v.0, q.value.0, depth);
            CountingKept(fields, c1, State([], seen, c1.fixed, r.v.1));
            LoopReads(types, ty, slots[at := r.v.0], State([], seen, c1.fixed, r.v.1),
                      State(st1.msg[at := q.value.0], seen, st1.fixed, q.value.1), r.heap, r.rest, depth);
          }
        } else {
          assert DecRecord(roomy, st, s) == Fail;
        }
    }
  }

  lemma SkipsAlike(fs: seq<Field>, gs: seq<Field>, tag: nat, wireType: nat, s: bytes)
    requires |fs| == |gs|
    ensures SkipUnknown(fs, tag, wireType, s) == SkipUnknown(gs, tag, wireType, s)
  {
  }

  lemma CountingKept(fs: seq<Field>, c: State, c': State)
    requires Counting(fs, c) && c'.fixed == c.fixed
    ensures Counting(fs, c')
  {
  }

  predicate MessageLike(types: Schema, ty: nat, depth: nat, r: Out<seq<PSlot>>, q: Res<Message>) {
    r.ok == q.Ok? && (r.ok ==> r.rest == q.rest && Like(types, ty, r.v, q.value, depth))
  }

  lemma {:induction false} NoinitReads(types: Schema, ty: nat, slots: seq<PSlot>, m: Message, h: Heap, s: bytes,
                                       depth: nat)
    requires SoundSchema(types) && Like(types, ty, slots, m, depth) && ty < |types| && |m| == |types[ty]|
    requires h.grants == [] && |s| <= depth
    ensures MessageLike(types, ty, depth, HeapDecodeNoinit(types, ty, slots, h, s),
            DecMessage(Roomy(types, ty, depth), m, s))
    decreases |s|, 6
  {
    hide SoundSchema, Like, Bare, Roomy, HeapLoop, DecLoop, Complete, Alike;
    LikeLength(types, ty, slots, m, depth);
    var c := State([], {}, None, 0);
    LoopReads(types, ty, slots, c, Initial(m), h, s, depth);
    RoomyAlike(types, ty, depth);
    var (r, c') := HeapLoop(types, ty, slots, c, h, s);
    if r.ok {
      CompleteAlike(Bare(types[ty]), Roomy(types, ty, depth), c', DecLoop(Roomy(types, ty, depth), Initial(m), s).st);
    }
  }

  /** pb_decode with memory granted accepts exactly what it accepts when every pointer is replaced by a roomy field,
      and reads to the same byte; the counts and which_ tags of the results are equal. */
  lemma {:induction false} DecodeReads(types: Schema, ty: nat, slots: seq<PSlot>, m: Message, h: Heap, s: bytes,
                                       depth: nat)
    requires SoundSchema(types) && Like(types, ty, slots, m, depth) && ty < |types| && |m| == |types[ty]|
    requires h.grants == [] && |s| <= depth
    ensures MessageLike(types, ty, depth, HeapDecode(types, ty, slots, h, s), Decode(Roomy(types, ty, depth), m, s))
    decreases |s|, 7
  {
    hide SoundSchema, Like, Bare, Roomy, HeapDecodeNoinit, DecMessage, Defaults, Default, Release, Owned;
    DefaultsLike(types, ty, slots, m, depth);
    var start := Defaults(types, ty, slots);
    var forgotten := Owned(types, true, ty, slots) - Owned(types, true, ty, start);
    NoinitReads(types, ty, start, Default(Roomy(types, ty, depth), m), h.(lost := h.lost + forgotten), s, depth);
  }

  /** For a zeroed structure of any message type, recursive ones included. */
  lemma AcceptedAlike(types: Schema, ty: nat, h: Heap, s: bytes)
    requires SoundSchema(types) && ty < |types| && h.grants == []
    ensures var fields := Roomy(types, ty, |s|);
            var r, q := HeapDecode(types, ty, Blank(types, ty), h, s), Decode(fields, ZeroMessage(fields), s);
            r.ok == q.Ok? && (r.ok ==> r.rest == q.rest && Like(types, ty, r.v, q.value, |s|))
  {
    hide SoundSchema, Like, HeapDecode, Decode, Roomy, Blank, ZeroMessage;
    BlankLike(types, ty, |s|);
    DecodeReads(types, ty, Blank(types, ty), ZeroMessage(Roomy(types, ty, |s|)), h, s, |s|);
  }
}
