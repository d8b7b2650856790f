/** The zero count of an array that has no count of its own is stored over the first bytes of its contents. What
    that takes from a structure, when it takes part of a pointer that is set, and for which types it never does. */
module HeapWipes {
  import opened Descriptor
  import opened HeapDecoder
  import opened Ownership
  import opened HeapRelease
  import opened HeapShares

  // ---------------------------------------------------------------- types

  lemma {:induction false} StartsLater(types: Schema, ty: nat, c: int, d: int)
    requires ty < |types| && c <= d && StartsWithPointer(types, ty, c)
    ensures StartsWithPointer(types, ty, d)
    decreases ty
  {
    hide DataOffset;
    var fields := Bare(types[ty]);
    var i :| 0 <= i < |types[ty]| && ReachesPointer(types, ty, i, c - DataOffset(fields, i));
    if InMemory(types, ty, i) {
      StartsLater(types, types[ty][i].sub, c - DataOffset(fields, i), d - DataOffset(fields, i));
    }
    assert ReachesPointer(types, ty, i, d - DataOffset(fields, i));
  }

  lemma {:induction false} PointerlessIsSturdy(types: Schema, ty: nat)
    requires Pointerless(types, ty)
    ensures Sturdy(types, ty) && forall c: int :: !StartsWithPointer(types, ty, c)
    decreases ty
  {
    hide DataOffset, StartsWithPointer, Sturdy;
    forall i | 0 <= i < |types[ty]| && InMemory(types, ty, i)
      ensures Sturdy(types, types[ty][i].sub) && forall c: int :: !StartsWithPointer(types, types[ty][i].sub, c)
    {
      PointerlessIsSturdy(types, types[ty][i].sub);
    }
    assert Sturdy(types, ty) by { SturdyBy(types, ty); }
    forall c: int ensures !StartsWithPointer(types, ty, c) {
      forall i | 0 <= i < |types[ty]| ensures !ReachesPointer(types, ty, i, c - DataOffset(Bare(types[ty]), i)) { }
      NotStarting(types, ty, c);
    }
  }

  lemma NotStarting(types: Schema, ty: nat, c: int)
    requires ty < |types|
    requires forall i :: 0 <= i < |types[ty]| ==> !ReachesPointer(types, ty, i, c - DataOffset(Bare(types[ty]), i))
    ensures !StartsWithPointer(types, ty, c)
  {
    hide ReachesPointer, DataOffset;
  }

  /** A type without fixed-count arrays that hold pointers is sturdy. */
  lemma {:induction false} NoArraysIsSturdy(types: Schema, ty: nat)
    requires NoPointerArrays(types, ty) && ty < |types|
    ensures Sturdy(types, ty)
    decreases ty
  {
    hide NoPointerArrays, StartsWithPointer, Pointerless, Sturdy;
    FitsHere(types, Live, ty);
    forall i | 0 <= i < |types[ty]| && InMemory(types, ty, i)
      ensures Sturdy(types, types[ty][i].sub)
      ensures FixedCount(types[ty][i].f) ==> !StartsWithPointer(types, types[ty][i].sub, COUNT_BYTES)
    {
      FitsInside(types, Live, ty, i);
      NoArraysIsSturdy(types, types[ty][i].sub);
      if FixedCount(types[ty][i].f) {
        assert !HoldsPointers(types, ty, i);
        PointerlessIsSturdy(types, types[ty][i].sub);
      }
    }
    assert Sturdy(types, ty) by { SturdyBy(types, ty); }
  }

  lemma SturdyBy(types: Schema, ty: nat)
    requires ty < |types|
    requires forall i :: 0 <= i < |types[ty]| && InMemory(types, ty, i) ==>
               && Sturdy(types, types[ty][i].sub)
               && (FixedCount(types[ty][i].f) ==> !StartsWithPointer(types, types[ty][i].sub, COUNT_BYTES))
    ensures Sturdy(types, ty)
  {
    hide StartsWithPointer;
  }

  lemma {:induction false} NotStartingIsHarmless(types: Schema, ty: nat, slots: seq<PSlot>, c: int)
    requires ty < |types| && !StartsWithPointer(types, ty, c)
    ensures Harmless(types, ty, slots, c)
    decreases ty
  {
    hide DataOffset, Harmless;
    if |slots| == |types[ty]| {
      forall i | 0 <= i < |slots| ensures HarmlessSlot(types, ty, i, slots[i], c - DataOffset(Bare(types[ty]), i)) {
        var p, d := types[ty][i], c - DataOffset(Bare(types[ty]), i);
        assert !ReachesPointer(types, ty, i, d);
        if InMemory(types, ty, i) && (p.f.htype.Repeated? ==> FixedCount(p.f)) {
          forall k | 0 <= k < |slots[i].vals| && slots[i].vals[k].Struct? && d - k * p.f.dataSize > 0
            ensures Harmless(types, p.sub, slots[i].vals[k].slots, d - k * p.f.dataSize)
          {
            assert d - k * p.f.dataSize <= d by { MulMonotone(0, k, p.f.dataSize); }
            if StartsWithPointer(types, p.sub, d - k * p.f.dataSize) {
              StartsLater(types, p.sub, d - k * p.f.dataSize, d);
            }
            NotStartingIsHarmless(types, p.sub, slots[i].vals[k].slots, d - k * p.f.dataSize);
          }
        }
      }
    }
    HarmlessIf(types, ty, slots, c);
  }

  lemma HarmlessIf(types: Schema, ty: nat, slots: seq<PSlot>, c: int)
    requires ty < |types| && |slots| == |types[ty]| ==>
               forall i :: 0 <= i < |slots| ==> HarmlessSlot(types, ty, i, slots[i], c - DataOffset(Bare(types[ty]), i))
    ensures Harmless(types, ty, slots, c)
  {
    hide HarmlessSlot, DataOffset;
  }

  lemma UnarmedIf(types: Schema, ty: nat, slots: seq<PSlot>)
    requires ty < |types| && |slots| == |types[ty]| ==>
               forall i :: 0 <= i < |slots| && InMemory(types, ty, i) ==> UnarmedVals(types, ty, i, slots[i].vals)
    ensures Unarmed(types, ty, slots)
  {
    hide UnarmedVals;
  }

  /** Structures of a sturdy type are never armed. */
  lemma {:induction false} SturdyIsUnarmed(types: Schema, ty: nat, slots: seq<PSlot>)
    requires ty < |types| && Sturdy(types, ty)
    ensures Unarmed(types, ty, slots)
    decreases ty
  {
    hide StartsWithPointer, Harmless, Unarmed;
    if |slots| == |types[ty]| {
      forall i | 0 <= i < |slots| && InMemory(types, ty, i) ensures UnarmedVals(types, ty, i, slots[i].vals) {
        var p, vals := types[ty][i], slots[i].vals;
        forall k | 0 <= k < |vals| && vals[k].Struct?
          ensures Unarmed(types, p.sub, vals[k].slots)
          ensures FixedCount(p.f) ==> Harmless(types, p.sub, vals[k].slots, COUNT_BYTES - k * p.f.dataSize)
        {
          SturdyIsUnarmed(types, p.sub, vals[k].slots);
          if FixedCount(p.f) {
            assert COUNT_BYTES - k * p.f.dataSize <= COUNT_BYTES by { MulMonotone(0, k, p.f.dataSize); }
            if StartsWithPointer(types, p.sub, COUNT_BYTES - k * p.f.dataSize) {
              StartsLater(types, p.sub, COUNT_BYTES - k * p.f.dataSize, COUNT_BYTES);
            }
            NotStartingIsHarmless(types, p.sub, vals[k].slots, COUNT_BYTES - k * p.f.dataSize);
          }
        }
      }
    }
    UnarmedIf(types, ty, slots);
  }

  // ---------------------------------------------------------------- structures that own nothing

  lemma InMemoryIs(types: Schema, ty: nat, i: nat)
    requires SoundSchema(types) && ty < |types| && i < |types[ty]|
    requires types[ty][i].f.ltype.LSubmessage? && !IsPointer(types[ty][i]) && !types[ty][i].f.htype.Oneof?
    ensures InMemory(types, ty, i) && Home(Bare(types[ty]), i) == i
  {
    SchemaField(types, ty, i);
    assert Bare(types[ty])[i] == types[ty][i].f;
  }

  /** The fields of a structure that owns nothing. */
  lemma NothingOwnedField(types: Schema, mode: Mode, ty: nat, slots: seq<PSlot>, i: nat)
    requires SoundSchema(types) && Tidy(types, mode, ty, slots) && Owned(types, false, ty, slots) == multiset{}
    requires i < |slots| && ty < |types| && |slots| == |types[ty]| && !types[ty][i].f.htype.Oneof?
    ensures var p := types[ty][i];
            && TidyCurrent(types, mode, p, slots[i]) && OwnedCurrent(types, false, p, slots[i]) == multiset{}
            && (IsPointer(p) ==> |slots[i].vals| == 1 && !slots[i].vals[0].Block?)
  {
    hide SoundSchema, Tidy, OwnedUpTo, TidyPointer, Idle, TidyEntry, OwnedItems, TidyUnion;
    assert Bare(types[ty])[i] == types[ty][i].f;
    FieldIsTidy(types, mode, ty, slots, i);
    NothingOwnedParts(types, ty, slots, |slots|, i);
    BlockIsOwned(types, types[ty][i], slots[i]);
  }

  lemma BlockIsOwned(types: Schema, p: PField, slot: PSlot)
    ensures IsPointer(p) && |slot.vals| == 1 && slot.vals[0].Block? ==>
            OwnedCurrent(types, false, p, slot) != multiset{}
  {
    hide OwnedItems;
    if IsPointer(p) && |slot.vals| == 1 && slot.vals[0].Block? {
      assert slot.vals[0].id in OwnedCurrent(types, false, p, slot);
    }
  }

  /** Its entries that are part of the value own nothing either. */
  lemma NothingOwnedEntry(types: Schema, mode: Mode, ty: nat, slots: seq<PSlot>, i: nat, k: nat)
    requires SoundSchema(types) && Tidy(types, mode, ty, slots) && Owned(types, false, ty, slots) == multiset{}
    requires i < |slots| && ty < |types| && |slots| == |types[ty]| && InMemory(types, ty, i)
    requires k < |slots[i].vals| && (k < InPlace(types[ty][i], slots[i], false) || mode.Clean?)
    ensures var v := slots[i].vals[k];
            v.Struct? && Tidy(types, mode, types[ty][i].sub, v.slots) &&
                Owned(types, false, types[ty][i].sub, v.slots) == multiset{}
  {
    hide SoundSchema, Tidy, Owned, OwnedEntries;
    NothingOwnedField(types, mode, ty, slots, i);
    var p := types[ty][i];
    assert TidyEntry(types, mode, p, slots[i].vals[k]);
    if k < InPlace(p, slots[i], false) { NoEntryOwns(types, p, slots[i].vals, InPlace(p, slots[i], false), k); }
    assert ItemOwned(types, false, p, slots[i].vals[k]) == multiset{};
  }

  lemma {:induction false} NothingIsHarmless(types: Schema, mode: Mode, ty: nat, slots: seq<PSlot>, c: int)
    requires SoundSchema(types) && Tidy(types, mode, ty, slots) && Owned(types, false, ty, slots) == multiset{}
    ensures Harmless(types, ty, slots, c)
    decreases ty
  {
    hide SoundSchema, Tidy, Owned, DataOffset, Harmless;
    TidyLength(types, mode, ty, slots);
    forall i | 0 <= i < |slots| ensures HarmlessSlot(types, ty, i, slots[i], c - DataOffset(Bare(types[ty]), i)) {
      var p, d := types[ty][i], c - DataOffset(Bare(types[ty]), i);
      if !p.f.htype.Oneof? {
        NothingOwnedField(types, mode, ty, slots, i);
        if InMemory(types, ty, i) && (p.f.htype.Repeated? ==> FixedCount(p.f)) {
          forall k | 0 <= k < |slots[i].vals| && slots[i].vals[k].Struct? && d - k * p.f.dataSize > 0
            ensures Harmless(types, p.sub, slots[i].vals[k].slots, d - k * p.f.dataSize)
          {
            NothingOwnedEntry(types, mode, ty, slots, i, k);
            NothingIsHarmless(types, mode, p.sub, slots[i].vals[k].slots, d - k * p.f.dataSize);
          }
        }
      }
    }
    HarmlessIf(types, ty, slots, c);
  }

  /** No pointer is set in what such a structure holds in place, or entries behind a count were left unarmed. */
  lemma {:induction false} NothingIsUnarmed(types: Schema, mode: Mode, ty: nat, slots: seq<PSlot>)
    requires SoundSchema(types) && Tidy(types, mode, ty, slots) && Owned(types, false, ty, slots) == multiset{}
    requires mode.Every? || mode.Clean?
    ensures Unarmed(types, ty, slots)
    decreases ty
  {
    hide SoundSchema, Tidy, Owned, Harmless, Unarmed;
    TidyLength(types, mode, ty, slots);
    forall i | 0 <= i < |slots| && InMemory(types, ty, i) ensures UnarmedVals(types, ty, i, slots[i].vals) {
      var p, vals := types[ty][i], slots[i].vals;
      forall k | 0 <= k < |vals| && vals[k].Struct?
        ensures Unarmed(types, p.sub, vals[k].slots)
        ensures FixedCount(p.f) ==> Harmless(types, p.sub, vals[k].slots, COUNT_BYTES - k * p.f.dataSize)
      {
        NothingOwnedField(types, mode, ty, slots, i);
        if k < InPlace(p, slots[i], false) || mode.Clean? {
          NothingOwnedEntry(types, mode, ty, slots, i, k);
          NothingIsUnarmed(types, mode, p.sub, vals[k].slots);
          NothingIsHarmless(types, mode, p.sub, vals[k].slots, COUNT_BYTES - k * p.f.dataSize);
        } else {
          assert Idle(types, mode, p, vals[k]);
        }
      }
    }
    UnarmedIf(types, ty, slots);
  }

  // ---------------------------------------------------------------- wiped structures

  lemma WipedSlotAt(types: Schema, ty: nat, slots: seq<PSlot>, c: int, i: nat)
    requires ty < |types| && |slots| == |types[ty]| && i < |slots|
    ensures var at := Home(Bare(types[ty]), i);
            WipedSlots(types, ty, slots, c)[at] ==
            WipedPSlot(types, ty, types[ty][at], slots[at], c - DataOffset(Bare(types[ty]), at),
                c - SizeOffset(Bare(types[ty]), at))
  {
    hide WipedPSlot, DataOffset, SizeOffset;
  }

  /** The slot of a oneof is cleared, or as it was; any other field is the only one of its slot. */
  lemma WipedHome(types: Schema, ty: nat, slots: seq<PSlot>, c: int, i: nat)
    requires ty < |types| && |slots| == |types[ty]| && i < |slots|
    ensures var at := Home(Bare(types[ty]), i); var r := WipedSlots(types, ty, slots, c)[at];
            if types[ty][i].f.htype.Oneof? then r == slots[at] || r == PSlot(0, [Null])
            else
              && at == i
              && r == WipedPSlot(types, ty, types[ty][i], slots[i], c - DataOffset(Bare(types[ty]), i),
                                 c - SizeOffset(Bare(types[ty]), i))
  {
    hide WipedVals, DataOffset, SizeOffset;
    WipedSlotAt(types, ty, slots, c, i);
    var at := Home(Bare(types[ty]), i);
    assert Bare(types[ty])[i] == types[ty][i].f && Bare(types[ty])[at] == types[ty][at].f;
  }

  lemma {:induction false} LessByEntry(types: Schema, every: bool, p: PField, a: seq<Val>, b: seq<Val>, n: nat)
    requires !PointerEntries(p) && |a| == |b|
    requires forall k :: 0 <= k < |a| ==> ItemOwned(types, every, p, a[k]) <= ItemOwned(types, every, p, b[k])
    ensures OwnedItems(types, every, p, a, n) <= OwnedItems(types, every, p, b, n)
  {
    hide Owned;
    if 0 < n <= |a| {
      LessByEntry(types, every, p, a, b, n - 1);
      assert ItemOwned(types, every, p, a[n - 1]) <= ItemOwned(types, every, p, b[n - 1]);
    }
  }

  lemma {:induction false} WipedValsForget(types: Schema, mode: Mode, every: bool, ty: nat, p: PField, vals: seq<Val>,
                                           c: int)
    requires SoundSchema(types) && !IsPointer(p) && forall k :: 0 <= k < |vals| ==> TidyEntry(types, mode, p, vals[k])
    ensures forall k :: 0 <= k < |vals| ==>
            ItemOwned(types, every, p, WipedVals(types, ty, p, vals, c)[k]) <= ItemOwned(types, every, p, vals[k])
    ensures forall n: nat ::
            OwnedItems(types, every, p, WipedVals(types, ty, p, vals, c), n) <= OwnedItems(types, every, p, vals, n)
    decreases ty, 0
  {
    hide SoundSchema, Tidy, Owned, WipedSlots, OwnedItems;
    var r := WipedVals(types, ty, p, vals, c);
    forall k | 0 <= k < |vals| ensures ItemOwned(types, every, p, r[k]) <= ItemOwned(types, every, p, vals[k]) {
      var d := c - k * p.f.dataSize;
      assert r[k] == WipedVal(types, ty, p, vals[k], d) && TidyEntry(types, mode, p, vals[k]);
      if d > 0 && p.f.ltype.LSubmessage? && p.sub < ty { WipedForgets(types, mode, every, p.sub, vals[k].slots, d); }
    }
    forall n: nat ensures OwnedItems(types, every, p, r, n) <= OwnedItems(types, every, p, vals, n) {
      LessByEntry(types, every, p, r, vals, n);
    }
  }

  lemma {:induction false} WipedSlotForgets(types: Schema, mode: Mode, every: bool, ty: nat, slots: seq<PSlot>, c: int,
                                            i: nat)
    requires SoundSchema(types) && Tidy(types, mode, ty, slots) && i < |slots| && ty < |types| && |slots| == |types[ty]|
    ensures var at := Home(Bare(types[ty]), i);
            Share(types, every, ty, i, WipedSlots(types, ty, slots, c)[at]) <= Share(types, every, ty, i, slots[at])
    decreases ty, 2
  {
    hide SoundSchema, Tidy, OwnedCurrent, WipedPSlot, WipedSlots, TidyCurrent, TidyUnion, DataOffset, SizeOffset;
    var p := types[ty][i];
    SchemaField(types, ty, i);
    TagPositive(types, ty, p);
    WipedHome(types, ty, slots, c, i);
    if !p.f.htype.Oneof? {
      FieldIsTidy(types, mode, ty, slots, i);
      var d, q := c - DataOffset(Bare(types[ty]), i), c - SizeOffset(Bare(types[ty]), i);
      assert TidyCurrent(types, mode, p, slots[i]);
      if IsPointer(p) {
        WipedPointerForgets(types, every, ty, p, slots[i], d, q);
      } else {
        WipedPlaceForgets(types, mode, every, ty, p, slots[i], d, q);
      }
    }
  }

  lemma {:induction false} WipedPlaceForgets(types: Schema, mode: Mode, every: bool, ty: nat, p: PField, slot: PSlot,
                                             data: int, size: int)
    requires SoundSchema(types) && !IsPointer(p) && !p.f.htype.Oneof? && TidyCurrent(types, mode, p, slot)
    ensures OwnedCurrent(types, every, p, WipedPSlot(types, ty, p, slot, data, size)) <= OwnedCurrent(types, every, p,
            slot)
    decreases ty, 1
  {
    hide SoundSchema, OwnedItems, WipedVals, TidyEntry, Idle;
    WipedValsForget(types, mode, every, ty, p, slot.vals, data);
    NothingInEmpty(types, every, p, slot.vals);
  }

  lemma WipedPointerForgets(types: Schema, every: bool, ty: nat, p: PField, slot: PSlot, data: int, size: int)
    requires IsPointer(p) && !p.f.htype.Oneof?
    ensures OwnedCurrent(types, every, p, WipedPSlot(types, ty, p, slot, data, size)) <= OwnedCurrent(types, every, p,
            slot)
  {
    hide OwnedEntries, EntryIds;
    if p.f.htype.Repeated? && size > 0 && |slot.vals| == 1 && slot.vals[0].Block? {
      assert OwnedItems(types, every, p, [], 0) == multiset{} by { NothingInEmpty(types, every, p, []); }
    }
  }

  /** Clearing bytes of a structure makes it own no more than before. */
  lemma {:induction false} WipedForgets(types: Schema, mode: Mode, every: bool, ty: nat, slots: seq<PSlot>, c: int)
    requires SoundSchema(types) && Tidy(types, mode, ty, slots)
    ensures Owned(types, every, ty, WipedSlots(types, ty, slots, c)) <= Owned(types, every, ty, slots)
    decreases ty, 3
  {
    hide SoundSchema, Tidy, Share, OwnedUpTo, WipedSlots;
    TidyLength(types, mode, ty, slots);
    var s := WipedSlots(types, ty, slots, c);
    forall i | 0 <= i < |slots|
      ensures Share(types, every, ty, i, s[Home(Bare(types[ty]), i)]) <= Share(types, every, ty, i,
              slots[Home(Bare(types[ty]), i)])
    {
      WipedSlotForgets(types, mode, every, ty, slots, c, i);
    }
    LessByField(types, every, ty, s, slots, |slots|);
  }

  lemma {:induction false} WipedHarmless(types: Schema, ty: nat, slots: seq<PSlot>, c: int, d: int)
    requires Harmless(types, ty, slots, d)
    ensures Harmless(types, ty, WipedSlots(types, ty, slots, c), d)
    decreases ty, 1
  {
    hide DataOffset, SizeOffset, Harmless, HarmlessSlot, WipedSlots;
    var r := WipedSlots(types, ty, slots, c);
    if ty < |types| && |slots| == |types[ty]| {
      forall i | 0 <= i < |slots| ensures HarmlessSlot(types, ty, i, r[i], d - DataOffset(Bare(types[ty]), i)) {
        HarmlessAt(types, ty, slots, d, i);
        WipedSlotHarmless(types, ty, slots, c, i, d - DataOffset(Bare(types[ty]), i));
      }
    }
    HarmlessIf(types, ty, r, d);
  }

  lemma HarmlessAt(types: Schema, ty: nat, slots: seq<PSlot>, d: int, i: nat)
    requires Harmless(types, ty, slots, d) && ty < |types| && |slots| == |types[ty]| && i < |slots|
    ensures HarmlessSlot(types, ty, i, slots[i], d - DataOffset(Bare(types[ty]), i))
  {
    hide HarmlessSlot, DataOffset;
  }

  lemma {:induction false} WipedSlotHarmless(types: Schema, ty: nat, slots: seq<PSlot>, c: int, i: nat, d: int)
    requires ty < |types| && |slots| == |types[ty]| && i < |slots| && HarmlessSlot(types, ty, i, slots[i], d)
    ensures HarmlessSlot(types, ty, i, WipedSlots(types, ty, slots, c)[i], d)
    decreases ty, 0
  {
    hide DataOffset, SizeOffset, Harmless, WipedSlots;
    var p := types[ty][i];
    if !p.f.htype.Oneof? {
      WipedHome(types, ty, slots, c, i);
      var e := c - DataOffset(Bare(types[ty]), i);
      var r := WipedSlots(types, ty, slots, c)[i];
      if InMemory(types, ty, i) && (p.f.htype.Repeated? ==> FixedCount(p.f)) {
        assert r.vals == WipedVals(types, ty, p, slots[i].vals, e);
        forall k | 0 <= k < |r.vals| && r.vals[k].Struct? && d - k * p.f.dataSize > 0
          ensures Harmless(types, p.sub, r.vals[k].slots, d - k * p.f.dataSize)
        {
          assert r.vals[k] == WipedVal(types, ty, p, slots[i].vals[k], e - k * p.f.dataSize);
          WipedHarmless(types, p.sub, slots[i].vals[k].slots, e - k * p.f.dataSize, d - k * p.f.dataSize);
        }
      }
    }
  }

  /** Clearing bytes of an unarmed structure leaves it unarmed. */
  lemma {:induction false} WipedUnarmed(types: Schema, ty: nat, slots: seq<PSlot>, c: int)
    requires Unarmed(types, ty, slots)
    ensures Unarmed(types, ty, WipedSlots(types, ty, slots, c))
    decreases ty, 1
  {
    hide DataOffset, SizeOffset, WipedSlots, Unarmed, UnarmedVals;
    var r := WipedSlots(types, ty, slots, c);
    if ty < |types| && |slots| == |types[ty]| {
      forall i | 0 <= i < |slots| && InMemory(types, ty, i) ensures UnarmedVals(types, ty, i, r[i].vals) {
        var p, e := types[ty][i], c - DataOffset(Bare(types[ty]), i);
        WipedHome(types, ty, slots, c, i);
        UnarmedAt(types, ty, slots, i);
        if r[i].vals != slots[i].vals { WipedValsUnarmed(types, ty, i, slots[i].vals, e); }
      }
    }
    UnarmedIf(types, ty, r);
  }

  lemma UnarmedAt(types: Schema, ty: nat, slots: seq<PSlot>, i: nat)
    requires Unarmed(types, ty, slots) && ty < |types| && |slots| == |types[ty]| && i < |slots| &&
             InMemory(types, ty, i)
    ensures UnarmedVals(types, ty, i, slots[i].vals)
  {
    hide UnarmedVals;
  }

  lemma {:induction false} WipedValsUnarmed(types: Schema, ty: nat, i: nat, vals: seq<Val>, c: int)
    requires ty < |types| && InMemory(types, ty, i) && UnarmedVals(types, ty, i, vals)
    ensures UnarmedVals(types, ty, i, WipedVals(types, ty, types[ty][i], vals, c))
    decreases ty, 0
  {
    hide Harmless, WipedSlots, Unarmed;
    var p := types[ty][i];
    var r := WipedVals(types, ty, p, vals, c);
    forall k | 0 <= k < |r| && r[k].Struct?
      ensures Unarmed(types, p.sub, r[k].slots)
      ensures FixedCount(p.f) && COUNT_BYTES - k * p.f.dataSize > 0 ==>
              Harmless(types, p.sub, r[k].slots, COUNT_BYTES - k * p.f.dataSize)
    {
      var d := c - k * p.f.dataSize;
      assert r[k] == WipedVal(types, ty, p, vals[k], d);
      if d > 0 {
        WipedUnarmed(types, p.sub, vals[k].slots, d);
        if FixedCount(p.f) && COUNT_BYTES - k * p.f.dataSize > 0 {
          WipedHarmless(types, p.sub, vals[k].slots, d, COUNT_BYTES - k * p.f.dataSize);
        }
      }
    }
  }

  /** What an account asks of a structure that is to be set to defaults. */
  predicate Settable(types: Schema, mode: Mode, ty: nat, slots: seq<PSlot>) {
    match mode
    case Any => true
    case Clean => Owned(types, false, ty, slots) == multiset{}
    case _ => Unarmed(types, ty, slots)
  }

  /** The entries in place of such a structure, and their beginnings. */
  lemma SettableEntry(types: Schema, mode: Mode, ty: nat, slots: seq<PSlot>, i: nat, k: nat)
    requires SoundSchema(types) && Tidy(types, mode, ty, slots) && Settable(types, mode, ty, slots)
    requires ty < |types| && |slots| == |types[ty]| && i < |slots| && InMemory(types, ty, i) && k < |slots[i].vals|
    ensures var p, v := types[ty][i], slots[i].vals[k];
            && v.Struct? && Tidy(types, mode, p.sub, v.slots) && Settable(types, mode, p.sub, v.slots)
            && (FixedCount(p.f) && COUNT_BYTES - k * p.f.dataSize > 0 && !mode.Any? ==>
                  Harmless(types, p.sub, v.slots, COUNT_BYTES - k * p.f.dataSize))
  {
    hide SoundSchema, Tidy, Owned, Harmless, Unarmed;
    var p, v := types[ty][i], slots[i].vals[k];
    assert Bare(types[ty])[i] == p.f;
    FieldIsTidy(types, mode, ty, slots, i);
    assert TidyEntry(types, mode, p, v);
    if mode.Clean? {
      NothingOwnedEntry(types, mode, ty, slots, i, k);
      NothingIsHarmless(types, mode, p.sub, v.slots, COUNT_BYTES - k * p.f.dataSize);
    } else if !mode.Any? {
      UnarmedAt(types, ty, slots, i);
    }
  }

  lemma SettableIsIdle(types: Schema, mode: Mode, p: PField, v: Val)
    requires p.f.ltype.LSubmessage? ==> v.Struct? && Settable(types, mode, p.sub, v.slots)
    requires !PointerEntries(p)
    ensures Idle(types, mode, p, v)
  {
    hide Owned, Unarmed;
  }

  lemma {:induction false} WipedValTidy(types: Schema, mode: Mode, ty: nat, p: PField, v: Val, c: int)
    requires SoundSchema(types) && p.f.ltype.LSubmessage? && p.sub < ty && v.Struct?
    requires Tidy(types, mode, p.sub, v.slots) && Settable(types, mode, p.sub, v.slots)
    requires c > 0 && !mode.Any? ==> Harmless(types, p.sub, v.slots, c)
    ensures GoodEntry(types, mode, p, WipedVal(types, ty, p, v, c))
    decreases ty, 0
  {
    hide SoundSchema, Tidy, Owned, Harmless, Unarmed, WipedSlots, Idle;
    if c > 0 {
      WipedTidy(types, mode, p.sub, v.slots, c);
      if mode.Clean? { WipedForgets(types, mode, false, p.sub, v.slots, c); }
      if mode.Every? || mode.Live? { WipedUnarmed(types, p.sub, v.slots, c); }
    }
    SettableIsIdle(types, mode, p, WipedVal(types, ty, p, v, c));
  }

  lemma {:induction false} WipedTidy(types: Schema, mode: Mode, ty: nat, slots: seq<PSlot>, c: int)
    requires SoundSchema(types) && Tidy(types, mode, ty, slots) && Settable(types, mode, ty, slots)
    requires !mode.Any? ==> Harmless(types, ty, slots, c)
    ensures Tidy(types, mode, ty, WipedSlots(types, ty, slots, c))
    decreases ty, 3
  {
    hide SoundSchema, Tidy, Settable, Harmless, WipedSlots, TidyField;
    TidyLength(types, mode, ty, slots);
    var r := WipedSlots(types, ty, slots, c);
    forall i | 0 <= i < |slots| ensures TidyField(types, mode, ty, i, r[Home(Bare(types[ty]), i)]) {
      WipedFieldTidy(types, mode, ty, slots, c, i);
    }
    TidyIf(types, mode, ty, r);
  }

  lemma {:induction false} WipedFieldTidy(types: Schema, mode: Mode, ty: nat, slots: seq<PSlot>, c: int, i: nat)
    requires SoundSchema(types) && Tidy(types, mode, ty, slots) && Settable(types, mode, ty, slots)
    requires !mode.Any? ==> Harmless(types, ty, slots, c)
    requires ty < |types| && |slots| == |types[ty]| && i < |slots|
    ensures TidyField(types, mode, ty, i, WipedSlots(types, ty, slots, c)[Home(Bare(types[ty]), i)])
    decreases ty, 2
  {
    hide SoundSchema, Tidy, Settable, Harmless, WipedSlots, TidyField, WipedPSlot, DataOffset, SizeOffset, HarmlessSlot;
    var p, at := types[ty][i], Home(Bare(types[ty]), i);
    SchemaField(types, ty, i);
    TagPositive(types, ty, p);
    FieldIsTidy(types, mode, ty, slots, i);
    WipedHome(types, ty, slots, c, i);
    var r := WipedSlots(types, ty, slots, c)[at];
    if p.f.htype.Oneof? {
      if r != slots[at] { TidyNull(types, mode, ty, i, r); }
    } else {
      var d, q := c - DataOffset(Bare(types[ty]), i), c - SizeOffset(Bare(types[ty]), i);
      if !mode.Any? { HarmlessAt(types, ty, slots, c, i); }
      if IsPointer(p) {
        WipedPointerTidy(types, mode, ty, i, slots[i], d, q);
      } else {
        WipedPlaceTidy(types, mode, ty, slots, i, d, q);
      }
    }
  }

  lemma WipedPointerTidy(types: Schema, mode: Mode, ty: nat, i: nat, slot: PSlot, data: int, size: int)
    requires ty < |types| && i < |types[ty]| && IsPointer(types[ty][i]) && !types[ty][i].f.htype.Oneof?
    requires TidyField(types, mode, ty, i, slot) && (!mode.Any? ==> HarmlessSlot(types, ty, i, slot, data))
    ensures TidyField(types, mode, ty, i, WipedPSlot(types, ty, types[ty][i], slot, data, size))
  {
    hide TidyEntry;
    assert Bare(types[ty])[i] == types[ty][i].f;
    var p := types[ty][i];
    var r := WipedPSlot(types, ty, p, slot, data, size);
    assert TidyCurrent(types, mode, p, slot);
    if p.f.htype.Repeated? && size > 0 {
      NoBytes(p.f.dataSize, r.size);
      if slot.vals[0].Block? { assert r.vals[0].Block? && r.vals[0].items == []; }
    }
    assert TidyPointer(types, mode, p, r.size, r.vals[0]);
  }

  lemma NoBytes(size: nat, n: nat)
    requires n == 0
    ensures size * n == 0
  {
  }

  lemma {:induction false} WipedPlaceTidy(types: Schema, mode: Mode, ty: nat, slots: seq<PSlot>, i: nat, data: int,
                                          size: int)
    requires SoundSchema(types) && Tidy(types, mode, ty, slots) && Settable(types, mode, ty, slots)
    requires ty < |types| && |slots| == |types[ty]| && i < |slots| && !IsPointer(types[ty][i]) &&
             !types[ty][i].f.htype.Oneof?
    requires !mode.Any? ==> HarmlessSlot(types, ty, i, slots[i], data)
    ensures TidyField(types, mode, ty, i, WipedPSlot(types, ty, types[ty][i], slots[i], data, size))
    decreases ty, 1
  {
    hide SoundSchema, Tidy, Settable, Harmless, TidyEntry, Idle, GoodEntry;
    var p := types[ty][i];
    assert Bare(types[ty])[i] == p.f;
    FieldIsTidy(types, mode, ty, slots, i);
    var r := WipedPSlot(types, ty, p, slots[i], data, size);
    assert r.vals == slots[i].vals || r.vals == WipedVals(types, ty, p, slots[i].vals, data);
    forall k | 0 <= k < |r.vals| ensures GoodEntry(types, mode, p, r.vals[k]) {
      var v, d := slots[i].vals[k], data - k * p.f.dataSize;
      assert TidyEntry(types, mode, p, v);
      assert r.vals[k] == v || r.vals[k] == WipedVal(types, ty, p, v, d);
      if p.f.ltype.LSubmessage? {
        InMemoryIs(types, ty, i);
        SettableEntry(types, mode, ty, slots, i, k);
        assert WipedVal(types, ty, p, v, 0) == v;
        WipedValTidy(types, mode, ty, p, v, 0);
        if r.vals[k] != v { WipedValTidy(types, mode, ty, p, v, d); }
      } else {
        LeafIsGood(types, mode, p, v);
      }
    }
    TidyInPlace(types, mode, ty, i, r);
  }

  lemma LeafIsGood(types: Schema, mode: Mode, p: PField, v: Val)
    requires !p.f.ltype.LSubmessage? && !PointerEntries(p) && TidyEntry(types, mode, p, v)
    ensures GoodEntry(types, mode, p, v)
  {
  }
}
