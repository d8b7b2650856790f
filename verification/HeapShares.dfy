/** What single fields and entries contribute to the account, and fields in place that are tidy. */
module HeapShares {
  import opened Descriptor
  import opened HeapDecoder
  import opened Ownership
  import opened HeapRelease

  // ---------------------------------------------------------------- owning nothing

  lemma EmptySum(a: multiset<nat>, b: multiset<nat>)
    requires a + b == multiset{}
    ensures a == multiset{} && b == multiset{}
  {
    forall id ensures a[id] == 0 && b[id] == 0 { assert (a + b)[id] == 0; }
  }

  lemma {:induction false} NothingOwnedParts(types: Schema, ty: nat, slots: seq<PSlot>, n: nat, i: nat)
    requires ty < |types| && |slots| == |types[ty]| && i < n <= |slots| &&
             OwnedUpTo(types, false, ty, slots, n) == multiset{}
    ensures Released(types, ty, i, slots[Home(Bare(types[ty]), i)])
  {
    hide OwnedCurrent, Bare;
    if i < n - 1 {
      NothingOwnedParts(types, ty, slots, n - 1, i);
    } else {
      var slot := slots[Home(Bare(types[ty]), i)];
      if Current(types[ty][i], slot) {
        EmptySum(OwnedUpTo(types, false, ty, slots, i), OwnedCurrent(types, false, types[ty][i], slot));
      }
    }
  }

  lemma {:induction false} NoEntryOwns(types: Schema, p: PField, vals: seq<Val>, n: nat, k: nat)
    requires p.f.ltype.LSubmessage? && k < n <= |vals| && OwnedEntries(types, false, p.sub, vals, n) == multiset{}
    ensures ItemOwned(types, false, p, vals[k]) == multiset{}
  {
    hide Owned;
    EmptySum(OwnedEntries(types, false, p.sub, vals, n - 1), ItemOwned(types, false, p, vals[n - 1]));
    if k < n - 1 { NoEntryOwns(types, p, vals, n - 1, k); }
  }

  lemma NothingInEmpty(types: Schema, every: bool, p: PField, vals: seq<Val>)
    ensures OwnedItems(types, every, p, vals, 0) == multiset{}
  {
  }

  lemma NoLeafOwns(types: Schema, every: bool, p: PField, vals: seq<Val>, n: nat)
    requires !p.f.ltype.LSubmessage? && !PointerEntries(p)
    ensures OwnedItems(types, every, p, vals, n) == multiset{}
  {
  }

  lemma OneOwned(types: Schema, every: bool, p: PField, size: nat, v: Val)
    requires !IsPointer(p) && !p.f.htype.Repeated?
    ensures OwnedCurrent(types, every, p, PSlot(size, [v])) == ItemOwned(types, every, p, v)
  {
    hide Owned;
    assert OwnedEntries(types, every, p.sub, [v], 0) == multiset{};
    assert InPlace(p, PSlot(size, [v]), every) == 1;
    if p.f.ltype.LSubmessage? {
      assert OwnedEntries(types, every, p.sub, [v], 1) == multiset{} + ItemOwned(types, every, p, v);
    } else {
      NoLeafOwns(types, every, p, [v], 1);
    }
  }

  // ---------------------------------------------------------------- the share of each field

  function Share(types: Schema, every: bool, ty: nat, i: nat, slot: PSlot): multiset<nat>
    requires ty < |types| && i < |types[ty]|
  {
    if Current(types[ty][i], slot) then OwnedCurrent(types, every, types[ty][i], slot) else multiset{}
  }

  lemma {:induction false} LessByField(types: Schema, every: bool, ty: nat, a: seq<PSlot>, b: seq<PSlot>, n: nat)
    requires ty < |types| && |a| == |b| == |types[ty]| && n <= |a|
    requires forall i :: 0 <= i < n ==>
               Share(types, every, ty, i, a[Home(Bare(types[ty]), i)]) <= Share(types, every, ty, i,
                   b[Home(Bare(types[ty]), i)])
    ensures OwnedUpTo(types, every, ty, a, n) <= OwnedUpTo(types, every, ty, b, n)
  {
    hide OwnedUpTo, Share, Bare;
    if n > 0 {
      LessByField(types, every, ty, a, b, n - 1);
      ShareStep(types, every, ty, a, n - 1);
      ShareStep(types, every, ty, b, n - 1);
    } else {
      assert OwnedUpTo(types, every, ty, a, 0) == multiset{} by { NoShareYet(types, every, ty, a); }
    }
  }

  lemma ShareStep(types: Schema, every: bool, ty: nat, slots: seq<PSlot>, n: nat)
    requires ty < |types| && |slots| == |types[ty]| && n < |slots|
    ensures OwnedUpTo(types, every, ty, slots, n + 1)
         == OwnedUpTo(types, every, ty, slots, n) + Share(types, every, ty, n, slots[Home(Bare(types[ty]), n)])
  {
    hide OwnedCurrent, Bare;
  }

  lemma NoShareYet(types: Schema, every: bool, ty: nat, slots: seq<PSlot>)
    requires ty < |types| && |slots| == |types[ty]|
    ensures OwnedUpTo(types, every, ty, slots, 0) == multiset{}
  {
  }

  // ---------------------------------------------------------------- tidiness

  /** An entry in place that may be part of the value or not. */
  predicate GoodEntry(types: Schema, mode: Mode, p: PField, v: Val) {
    TidyEntry(types, mode, p, v) && Idle(types, mode, p, v)
  }

  lemma TidyInPlace(types: Schema, mode: Mode, ty: nat, i: nat, slot: PSlot)
    requires ty < |types| && i < |types[ty]| && !IsPointer(types[ty][i]) && !types[ty][i].f.htype.Oneof?
    requires |slot.vals| == (if types[ty][i].f.htype.Repeated? then types[ty][i].f.arraySize else 1)
    requires forall k :: 0 <= k < |slot.vals| ==> GoodEntry(types, mode, types[ty][i], slot.vals[k])
    ensures TidyField(types, mode, ty, i, slot)
  {
    hide MemberTag, Owned, Tidy, TidyEntry, Idle;
    var p := types[ty][i];
    assert Bare(types[ty])[i] == p.f;
    forall k | 0 <= k < |slot.vals|
      ensures TidyEntry(types, mode, p, slot.vals[k])
      ensures Idle(types, mode, p, slot.vals[k])
    {
      assert GoodEntry(types, mode, p, slot.vals[k]);
    }
    assert TidyCurrent(types, mode, p, slot);
  }

  lemma TidyNull(types: Schema, mode: Mode, ty: nat, i: nat, slot: PSlot)
    requires ty < |types| && i < |types[ty]| && types[ty][i].f.tag >= 1
    requires slot == PSlot(0, [Null]) && (IsPointer(types[ty][i]) || types[ty][i].f.htype.Oneof?)
    ensures TidyField(types, mode, ty, i, slot) && Share(types, true, ty, i, slot) == multiset{}
  {
    assert Bare(types[ty])[i] == types[ty][i].f;
  }
}
