/** Default initialisation forgets pointers and adds none: what it leaves is part of what was there, nothing
    unless a fixed-count array held pointers, and a structure that owned nothing still owns nothing. */
module HeapDefaults {
  import opened Descriptor
  import opened HeapDecoder
  import opened Ownership
  import opened HeapRelease
  import opened HeapShares
  import opened HeapWipes

  lemma {:induction false} DefaultsForget(types: Schema, mode: Mode, every: bool, ty: nat, prev: seq<PSlot>)
    requires SoundSchema(types) && Tidy(types, mode, ty, prev)
    ensures Owned(types, every, ty, Defaults(types, ty, prev)) <= Owned(types, every, ty, prev)
    decreases ty, 1
  {
    hide SoundSchema, Tidy, Share, OwnedUpTo, DefaultPSlot;
    TidyLength(types, mode, ty, prev);
    var s := Defaults(types, ty, prev);
    forall i | 0 <= i < |prev|
      ensures Share(types, every, ty, i, s[Home(Bare(types[ty]), i)]) <= Share(types, every, ty, i,
              prev[Home(Bare(types[ty]), i)])
    {
      DefaultSlotForgets(types, mode, every, ty, prev, i);
    }
    LessByField(types, every, ty, s, prev, |prev|);
  }

  lemma {:induction false} DefaultSlotForgets(types: Schema, mode: Mode, every: bool, ty: nat, prev: seq<PSlot>, i: nat)
    requires SoundSchema(types) && Tidy(types, mode, ty, prev) && i < |prev| && ty < |types| && |prev| == |types[ty]|
    ensures var at := Home(Bare(types[ty]), i);
            Share(types, every, ty, i, DefaultPSlot(types, ty, at, prev[at])) <= Share(types, every, ty, i, prev[at])
    decreases ty, 0
  {
    hide SoundSchema, Tidy, MemberTag, OwnedItems, Blank;
    var p := types[ty][i];
    var at := Home(Bare(types[ty]), i);
    assert Bare(types[ty])[i] == p.f;
    FieldIsTidy(types, mode, ty, prev, i);
    SchemaField(types, ty, i);
    if p.f.htype.Oneof? || IsPointer(p) {
      TagPositive(types, ty, p);
    } else if p.f.htype.Repeated? {
      DefaultArrayForgets(types, mode, every, ty, i, prev[i]);
    } else if p.f.ltype.LSubmessage? {
      assert TidyEntry(types, mode, p, prev[at].vals[0]);
      var slots := prev[at].vals[0].slots;
      DefaultsForget(types, mode, every, p.sub, slots);
      OneOwned(types, every, p, 0, Struct(Defaults(types, p.sub, slots)));
      OneOwned(types, every, p, prev[at].size, prev[at].vals[0]);
      assert prev[at] == PSlot(prev[at].size, [prev[at].vals[0]]);
      assert DefaultPSlot(types, ty, at, prev[at]) == PSlot(0, [Struct(Defaults(types, p.sub, slots))]);
    }
  }

  lemma DefaultArrayForgets(types: Schema, mode: Mode, every: bool, ty: nat, i: nat, slot: PSlot)
    requires SoundSchema(types) && ty < |types| && i < |types[ty]| && !IsPointer(types[ty][i]) &&
             types[ty][i].f.htype.Repeated?
    requires TidyCurrent(types, mode, types[ty][i], slot)
    ensures var p := types[ty][i];
            OwnedCurrent(types, every, p, DefaultPSlot(types, ty, i, slot)) <= OwnedCurrent(types, every, p, slot)
  {
    hide SoundSchema, TidyEntry, Idle, OwnedItems, WipedVals, DefaultPSlot;
    var p := types[ty][i];
    DefaultArray(types, ty, i, slot);
    NothingInEmpty(types, every, p, slot.vals);
    WipedValsForget(types, mode, every, ty, p, slot.vals, COUNT_BYTES);
  }

  lemma DefaultArray(types: Schema, ty: nat, i: nat, slot: PSlot)
    requires ty < |types| && i < |types[ty]| && !IsPointer(types[ty][i]) && types[ty][i].f.htype.Repeated?
    ensures var p := types[ty][i];
            DefaultPSlot(types, ty, i, slot)
            == PSlot(0, if FixedCount(p.f) then WipedVals(types, ty, p, slot.vals, COUNT_BYTES) else slot.vals)
  {
    hide WipedVals;
    assert Bare(types[ty])[i] == types[ty][i].f;
  }

  /** Without fixed-count arrays of structures with pointers, defaults leave nothing reachable. */
  lemma {:induction false} DefaultsForgetAll(types: Schema, ty: nat, prev: seq<PSlot>)
    requires SoundSchema(types) && Tidy(types, Live, ty, prev) && NoPointerArrays(types, ty)
    ensures Owned(types, false, ty, Defaults(types, ty, prev)) == multiset{}
    decreases ty, 1
  {
    hide SoundSchema, Tidy, Released, DefaultPSlot, NoPointerArrays;
    TidyLength(types, Live, ty, prev);
    var s := Defaults(types, ty, prev);
    forall i | 0 <= i < |prev| ensures Released(types, ty, i, s[Home(Bare(types[ty]), i)]) {
      DefaultSlotForgetsAll(types, ty, prev, i);
    }
    NothingOwned(types, ty, s, |s|);
  }

  lemma {:induction false} DefaultSlotForgetsAll(types: Schema, ty: nat, prev: seq<PSlot>, i: nat)
    requires SoundSchema(types) && Tidy(types, Live, ty, prev) && NoPointerArrays(types, ty)
    requires i < |prev| && ty < |types| && |prev| == |types[ty]|
    ensures var at := Home(Bare(types[ty]), i); Released(types, ty, i, DefaultPSlot(types, ty, at, prev[at]))
    decreases ty, 0
  {
    hide SoundSchema, Tidy, MemberTag, OwnedItems, Blank, NoPointerArrays, Pointerless;
    var p := types[ty][i];
    var at := Home(Bare(types[ty]), i);
    assert Bare(types[ty])[i] == p.f;
    FieldIsTidy(types, Live, ty, prev, i);
    SchemaField(types, ty, i);
    if p.f.htype.Oneof? || IsPointer(p) {
      TagPositive(types, ty, p);
    } else if p.f.htype.Repeated? {
      FitsHere(types, Live, ty);
      if FixedCount(p.f) {
        var vals := WipedVals(types, ty, p, prev[at].vals, COUNT_BYTES);
        FixedOwnsNothing(types, ty, i, vals);
        assert OwnedItems(types, false, p, vals, p.f.arraySize) == multiset{};
      } else { NothingInEmpty(types, false, p, prev[at].vals); }
    } else if p.f.ltype.LSubmessage? {
      assert TidyEntry(types, Live, p, prev[at].vals[0]);
      var slots := prev[at].vals[0].slots;
      FitsInside(types, Live, ty, i);
      DefaultsForgetAll(types, p.sub, slots);
      OneOwned(types, false, p, 0, Struct(Defaults(types, p.sub, slots)));
      assert DefaultPSlot(types, ty, at, prev[at]) == PSlot(0, [Struct(Defaults(types, p.sub, slots))]);
    } else {
      NoLeafOwns(types, false, p, prev[at].vals, 1);
    }
  }

  /** An array that cannot hold pointers owns nothing. */
  lemma FixedOwnsNothing(types: Schema, ty: nat, i: nat, vals: seq<Val>)
    requires SoundSchema(types) && ty < |types| && i < |types[ty]|
    requires FixedCount(types[ty][i].f) && !HoldsPointers(types, ty, i)
    ensures forall every: bool, n: nat :: OwnedItems(types, every, types[ty][i], vals, n) == multiset{}
    ensures forall every: bool, k :: 0 <= k < |vals| ==> ItemOwned(types, every, types[ty][i], vals[k]) == multiset{}
  {
    hide OwnedUpTo, SoundSchema, OwnedEntries;
    SchemaField(types, ty, i);
    var p := types[ty][i];
    forall every: bool, n: nat ensures OwnedItems(types, every, p, vals, n) == multiset{} {
      if p.f.ltype.LSubmessage? {
        PointerlessEntries(types, every, p.sub, vals, n);
      } else {
        NoLeafOwns(types, every, p, vals, n);
      }
    }
    forall every: bool, k | 0 <= k < |vals| ensures ItemOwned(types, every, p, vals[k]) == multiset{} {
      var v := vals[k];
      if p.f.ltype.LSubmessage? && v.Struct? && |v.slots| == |types[p.sub]| {
        PointerlessOwnsNothing(types, every, p.sub, v.slots, |v.slots|);
      }
    }
  }

  // ---------------------------------------------------------------- tidiness

  lemma {:induction false} DefaultsTidy(types: Schema, mode: Mode, ty: nat, prev: seq<PSlot>)
    requires SoundSchema(types) && Tidy(types, mode, ty, prev) && Settable(types, mode, ty, prev)
    ensures Tidy(types, mode, ty, Defaults(types, ty, prev)) && Settable(types, mode, ty, Defaults(types, ty, prev))
    decreases ty, 2
  {
    hide SoundSchema, Tidy, TidyField, Unarmed, DefaultPSlot, Owned;
    TidyLength(types, mode, ty, prev);
    var s := Defaults(types, ty, prev);
    forall i | 0 <= i < |prev| ensures TidyField(types, mode, ty, i, s[Home(Bare(types[ty]), i)]) {
      DefaultSlotTidy(types, mode, ty, prev, i);
    }
    TidyIf(types, mode, ty, s);
    if mode.Clean? { DefaultsForget(types, mode, false, ty, prev); }
    if mode.Every? || mode.Live? { DefaultsUnarmed(types, mode, ty, prev); }
  }

  lemma {:induction false} DefaultSlotTidy(types: Schema, mode: Mode, ty: nat, prev: seq<PSlot>, i: nat)
    requires SoundSchema(types) && Tidy(types, mode, ty, prev) && Settable(types, mode, ty, prev)
    requires i < |prev| && ty < |types| && |prev| == |types[ty]|
    ensures var at := Home(Bare(types[ty]), i); TidyField(types, mode, ty, i, DefaultPSlot(types, ty, at, prev[at]))
    decreases ty, 1
  {
    hide SoundSchema, Tidy, MemberTag, Settable, TidyCurrent, WipedVals, Defaults;
    var p := types[ty][i];
    var at := Home(Bare(types[ty]), i);
    assert Bare(types[ty])[i] == p.f && Bare(types[ty])[at] == types[ty][at].f;
    FieldIsTidy(types, mode, ty, prev, i);
    SchemaField(types, ty, i);
    if p.f.htype.Oneof? || IsPointer(p) {
      assert DefaultPSlot(types, ty, at, prev[at]) == PSlot(0, [Null]);
      TidyNull(types, mode, ty, i, PSlot(0, [Null]));
    } else {
      DefaultPlaceTidy(types, mode, ty, prev, i);
    }
  }

  lemma {:induction false} DefaultPlaceTidy(types: Schema, mode: Mode, ty: nat, prev: seq<PSlot>, i: nat)
    requires SoundSchema(types) && Tidy(types, mode, ty, prev) && Settable(types, mode, ty, prev)
    requires i < |prev| && ty < |types| && |prev| == |types[ty]| && !types[ty][i].f.htype.Oneof? &&
             !IsPointer(types[ty][i])
    ensures TidyField(types, mode, ty, i, DefaultPSlot(types, ty, i, prev[i]))
    decreases ty, 0
  {
    hide SoundSchema, Tidy, MemberTag, Settable, TidyEntry, GoodEntry, Idle, Defaults;
    var p := types[ty][i];
    assert Bare(types[ty])[i] == p.f;
    FieldIsTidy(types, mode, ty, prev, i);
    var slot := DefaultPSlot(types, ty, i, prev[i]);
    forall k | 0 <= k < |slot.vals| ensures GoodEntry(types, mode, p, slot.vals[k]) {
      var v := prev[i].vals[k];
      assert TidyEntry(types, mode, p, v);
      if p.f.ltype.LSubmessage? {
        InMemoryIs(types, ty, i);
        SettableEntry(types, mode, ty, prev, i, k);
        if !p.f.htype.Repeated? {
          DefaultsTidy(types, mode, p.sub, v.slots);
          assert slot.vals[k] == Struct(Defaults(types, p.sub, v.slots));
          GoodIf(types, mode, p, slot.vals[k]);
        } else {
          var d := if FixedCount(p.f) then COUNT_BYTES - k * p.f.dataSize else 0;
          WipedValTidy(types, mode, ty, p, v, d);
          assert slot.vals[k] == WipedVal(types, ty, p, v, d);
        }
      } else {
        assert slot.vals[k] == v by { DefaultLeaf(types, ty, i, prev[i], k); }
        LeafIsGood(types, mode, p, v);
      }
    }
    TidyInPlace(types, mode, ty, i, slot);
  }

  lemma DefaultLeaf(types: Schema, ty: nat, i: nat, slot: PSlot, k: nat)
    requires ty < |types| && i < |types[ty]| && !IsPointer(types[ty][i]) && !types[ty][i].f.htype.Oneof?
    requires !types[ty][i].f.ltype.LSubmessage? && k < |slot.vals|
    ensures |DefaultPSlot(types, ty, i, slot).vals| == |slot.vals| &&
            DefaultPSlot(types, ty, i, slot).vals[k] == slot.vals[k]
  {
    var p := types[ty][i];
    assert Bare(types[ty])[i] == p.f;
    if p.f.htype.Repeated? {
      DefaultArray(types, ty, i, slot);
      assert WipedVal(types, ty, p, slot.vals[k], COUNT_BYTES - k * p.f.dataSize) == slot.vals[k];
    }
  }

  lemma GoodIf(types: Schema, mode: Mode, p: PField, v: Val)
    requires p.f.ltype.LSubmessage? && v.Struct? && Tidy(types, mode, p.sub, v.slots) &&
             Settable(types, mode, p.sub, v.slots)
    ensures GoodEntry(types, mode, p, v)
  {
    hide Tidy, Settable;
    SettableIsIdle(types, mode, p, v);
  }

  /** A structure set to defaults is as unarmed as it was. */
  lemma {:induction false} DefaultsUnarmed(types: Schema, mode: Mode, ty: nat, prev: seq<PSlot>)
    requires SoundSchema(types) && Tidy(types, mode, ty, prev) && Unarmed(types, ty, prev)
    ensures Unarmed(types, ty, Defaults(types, ty, prev))
    decreases ty
  {
    hide SoundSchema, Tidy, Unarmed, UnarmedVals, DefaultPSlot;
    TidyLength(types, mode, ty, prev);
    var s := Defaults(types, ty, prev);
    forall i | 0 <= i < |prev| && InMemory(types, ty, i) ensures UnarmedVals(types, ty, i, s[i].vals) {
      var p := types[ty][i];
      assert Bare(types[ty])[i] == p.f;
      FieldIsTidy(types, mode, ty, prev, i);
      UnarmedAt(types, ty, prev, i);
      if p.f.htype.Repeated? {
        WipedValsUnarmed(types, ty, i, prev[i].vals, COUNT_BYTES);
        assert s[i].vals == prev[i].vals || s[i].vals == WipedVals(types, ty, p, prev[i].vals, COUNT_BYTES)
               by { DefaultArray(types, ty, i, prev[i]); }
      } else {
        DefaultOneUnarmed(types, mode, ty, i, prev[i]);
      }
    }
    UnarmedIf(types, ty, s);
  }

  lemma {:induction false} DefaultOneUnarmed(types: Schema, mode: Mode, ty: nat, i: nat, slot: PSlot)
    requires SoundSchema(types) && ty < |types| && InMemory(types, ty, i) && !types[ty][i].f.htype.Repeated?
    requires TidyField(types, mode, ty, i, slot) && UnarmedVals(types, ty, i, slot.vals)
    ensures UnarmedVals(types, ty, i, DefaultPSlot(types, ty, i, slot).vals)
    decreases ty, 0
  {
    hide SoundSchema, Tidy, Unarmed, Defaults, Idle;
    var p := types[ty][i];
    assert Bare(types[ty])[i] == p.f && TidyEntry(types, mode, p, slot.vals[0]);
    DefaultsUnarmed(types, mode, p.sub, slot.vals[0].slots);
    assert DefaultPSlot(types, ty, i, slot) == PSlot(0, [Struct(Defaults(types, p.sub, slot.vals[0].slots))]);
  }

  // ---------------------------------------------------------------- zeroed structures

  /** A zeroed structure is tidy and refers to no block anywhere. */
  lemma {:induction false} BlankOwnsNothing(types: Schema, mode: Mode, ty: nat)
    requires SoundSchema(types) && ty < |types|
    ensures Tidy(types, mode, ty, Blank(types, ty))
    ensures forall every: bool :: Owned(types, every, ty, Blank(types, ty)) == multiset{}
    decreases ty
  {
    hide SoundSchema, Tidy, TidyField, Share, BlankSlot, OwnedUpTo;
    var s := Blank(types, ty);
    forall i | 0 <= i < |s|
      ensures TidyField(types, mode, ty, i, s[Home(Bare(types[ty]), i)])
      ensures forall every: bool :: Share(types, every, ty, i, s[Home(Bare(types[ty]), i)]) == multiset{}
    {
      SchemaField(types, ty, i);
      if types[ty][i].f.ltype.LSubmessage? && types[ty][i].sub < ty { BlankOwnsNothing(types, mode, types[ty][i].sub); }
      BlankSlotOwnsNothing(types, mode, ty, i);
    }
    TidyIf(types, mode, ty, s);
    forall every: bool ensures Owned(types, every, ty, s) == multiset{} { NoShares(types, every, ty, s, |s|); }
  }

  lemma {:induction false} NoShares(types: Schema, every: bool, ty: nat, slots: seq<PSlot>, n: nat)
    requires ty < |types| && |slots| == |types[ty]| && n <= |slots|
    requires forall i :: 0 <= i < n ==> Share(types, every, ty, i, slots[Home(Bare(types[ty]), i)]) == multiset{}
    ensures OwnedUpTo(types, every, ty, slots, n) == multiset{}
  {
    hide OwnedCurrent, Bare, Current;
    if n > 0 {
      NoShares(types, every, ty, slots, n - 1);
      assert Share(types, every, ty, n - 1, slots[Home(Bare(types[ty]), n - 1)]) == multiset{};
    }
  }

  lemma BlankSlotOwnsNothing(types: Schema, mode: Mode, ty: nat, i: nat)
    requires SoundSchema(types) && ty < |types| && i < |types[ty]| && SoundField(types, ty, types[ty][i])
    requires var p := types[ty][i]; p.f.ltype.LSubmessage? && p.sub < ty ==>
               Tidy(types, mode, p.sub, Blank(types, p.sub)) && forall every: bool ::
                   Owned(types, every, p.sub, Blank(types, p.sub)) == multiset{}
    ensures var slot := BlankSlot(types, ty, Home(Bare(types[ty]), i));
            TidyField(types, mode, ty, i, slot) && forall every: bool :: Share(types, every, ty, i, slot) == multiset{}
  {
    hide SoundSchema, Tidy, Owned, Blank, MemberTag, TidyField, OwnedItems, Unarmed;
    var p := types[ty][i];
    assert Bare(types[ty])[i] == p.f;
    var slot := BlankSlot(types, ty, Home(Bare(types[ty]), i));
    if p.f.htype.Oneof? || IsPointer(p) {
      TidyNull(types, mode, ty, i, slot);
    } else {
      if mode.Every? && p.f.ltype.LSubmessage? { NothingIsUnarmed(types, mode, p.sub, Blank(types, p.sub)); }
      assert GoodEntry(types, mode, p, BlankEntry(types, ty, p));
      assert forall k :: 0 <= k < |slot.vals| ==> slot.vals[k] == BlankEntry(types, ty, p);
      TidyInPlace(types, mode, ty, i, slot);
      forall every: bool ensures Share(types, every, ty, i, slot) == multiset{} {
        assert ItemOwned(types, every, p, BlankEntry(types, ty, p)) == multiset{};
        var n := InPlace(p, slot, every);
        if n <= |slot.vals| { NothingInItems(types, every, p, slot.vals, n); }
      }
    }
  }

  /** It may be set to defaults in every account. */
  lemma BlankIsSettable(types: Schema, mode: Mode, ty: nat)
    requires SoundSchema(types) && ty < |types|
    ensures Settable(types, mode, ty, Blank(types, ty))
  {
    hide SoundSchema, Tidy, Owned, Blank, Unarmed;
    BlankOwnsNothing(types, Every, ty);
    NothingIsUnarmed(types, Every, ty, Blank(types, ty));
  }

  lemma FreshIsTidy(types: Schema, mode: Mode, p: PField)
    requires SoundSchema(types) && (p.f.ltype.LSubmessage? ==> p.sub < |types|)
    ensures TidyEntry(types, mode, p, FreshEntry(types, p))
    ensures p.f.ltype.LSubmessage? ==> Settable(types, mode, p.sub, FreshEntry(types, p).slots)
    ensures forall every: bool :: ItemOwned(types, every, p, FreshEntry(types, p)) == multiset{}
  {
    hide SoundSchema, Tidy, Owned, Blank, Defaults, Settable;
    if p.f.ltype.LSubmessage? {
      BlankOwnsNothing(types, mode, p.sub);
      BlankIsSettable(types, mode, p.sub);
      DefaultsTidy(types, mode, p.sub, Blank(types, p.sub));
      forall every: bool ensures Owned(types, every, p.sub, Defaults(types, p.sub, Blank(types, p.sub))) == multiset{} {
        DefaultsForget(types, mode, every, p.sub, Blank(types, p.sub));
      }
    }
  }
}
