/** pb_release gives back exactly the blocks a structure owns, whatever the schema; default initialisation
    forgets pointers and adds none. */
module HeapRelease {
  import opened Descriptor
  import opened HeapDecoder
  import opened Ownership

  lemma SchemaField(types: Schema, ty: nat, i: nat)
    requires SoundSchema(types) && ty < |types| && i < |types[ty]|
    ensures DistinctTags(Bare(types[ty])) && SoundField(types, ty, types[ty][i])
  {
  }

  lemma TidyLength(types: Schema, mode: Mode, ty: nat, slots: seq<PSlot>)
    requires Tidy(types, mode, ty, slots)
    ensures ty < |types| && |slots| == |types[ty]|
  {
  }

  lemma FieldIsTidy(types: Schema, mode: Mode, ty: nat, slots: seq<PSlot>, i: nat)
    requires Tidy(types, mode, ty, slots) && i < |slots|
    ensures TidyField(types, mode, ty, i, slots[Home(Bare(types[ty]), i)])
  {
  }

  lemma TidyIf(types: Schema, mode: Mode, ty: nat, slots: seq<PSlot>)
    requires ty < |types| && |slots| == |types[ty]|
    requires forall i :: 0 <= i < |slots| ==> TidyField(types, mode, ty, i, slots[Home(Bare(types[ty]), i)])
    ensures Tidy(types, mode, ty, slots)
  {
    hide TidyField;
  }

  lemma TagPositive(types: Schema, ty: nat, p: PField)
    requires SoundField(types, ty, p)
    ensures p.f.tag >= 1
  {
  }

  lemma OtherMember(types: Schema, mode: Mode, ty: nat, slots: seq<PSlot>, i: nat, j: nat)
    requires SoundSchema(types) && Tidy(types, mode, ty, slots) && i < |slots| && j < |slots| && i != j
    requires Home(Bare(types[ty]), i) == Home(Bare(types[ty]), j)
    ensures types[ty][i].f.htype.Oneof? && types[ty][j].f.htype.Oneof? && types[ty][i].f.tag != types[ty][j].f.tag
    ensures TidyUnion(Bare(types[ty]), j, slots[Home(Bare(types[ty]), i)])
  {
    hide Tidy, SoundSchema, SoundField, TidyCurrent;
    TidyLength(types, mode, ty, slots);
    SchemaField(types, ty, i);
    FieldIsTidy(types, mode, ty, slots, j);
    var fields := Bare(types[ty]);
    assert fields[i].htype.Oneof? && fields[j].htype.Oneof?;
    if i < j { assert fields[i].tag != fields[j].tag; } else { assert fields[j].tag != fields[i].tag; }
  }

  /** Storing a slot whose current field is i keeps the structure tidy. */
  lemma TidyUpdate(types: Schema, mode: Mode, ty: nat, slots: seq<PSlot>, i: nat, slot: PSlot)
    requires SoundSchema(types) && Tidy(types, mode, ty, slots) && i < |slots|
    requires ty < |types| && |slots| == |types[ty]|
    requires Current(types[ty][i], slot) && TidyCurrent(types, mode, types[ty][i], slot)
    ensures Tidy(types, mode, ty, slots[Home(Bare(types[ty]), i) := slot])
  {
    hide SoundSchema, TidyCurrent, SoundField, DistinctTags, Tidy, TidyField;
    var fields := Bare(types[ty]);
    var at := Home(fields, i);
    var s := slots[at := slot];
    forall j | 0 <= j < |s| ensures TidyField(types, mode, ty, j, s[Home(fields, j)]) {
      FieldIsTidy(types, mode, ty, slots, j);
      if Home(fields, j) == at { TidyShared(types, mode, ty, slots, i, j, slot); }
    }
    TidyIf(types, mode, ty, s);
  }

  lemma TidyShared(types: Schema, mode: Mode, ty: nat, slots: seq<PSlot>, i: nat, j: nat, slot: PSlot)
    requires SoundSchema(types) && Tidy(types, mode, ty, slots) && i < |slots| && j < |slots|
    requires ty < |types| && |slots| == |types[ty]| && Home(Bare(types[ty]), i) == Home(Bare(types[ty]), j)
    requires Current(types[ty][i], slot) && TidyCurrent(types, mode, types[ty][i], slot)
    ensures TidyField(types, mode, ty, j, slot) && (i != j ==> !Current(types[ty][j], slot))
  {
    hide SoundSchema, TidyCurrent, SoundField, Tidy;
    var fields := Bare(types[ty]);
    assert fields[i] == types[ty][i].f && fields[j] == types[ty][j].f;
    SchemaField(types, ty, i);
    TagPositive(types, ty, types[ty][i]);
    if i != j { OtherMember(types, mode, ty, slots, i, j); }
    if fields[i].htype.Oneof? { assert MemberTag(fields, Home(fields, j), slot.size); }
  }

  // ---------------------------------------------------------------- shares of the account

  lemma {:induction false} OwnedEntriesPrefix(types: Schema, every: bool, ty: nat, a: seq<Val>, b: seq<Val>, n: nat)
    requires n <= |a| && n <= |b| && forall k :: 0 <= k < n ==> a[k] == b[k]
    ensures OwnedEntries(types, every, ty, a, n) == OwnedEntries(types, every, ty, b, n)
  {
    if n > 0 { OwnedEntriesPrefix(types, every, ty, a, b, n - 1); }
  }

  /** What is owned beside entry k of the first n, which stays when that entry is replaced. */
  function BesideEntry(types: Schema, every: bool, p: PField, vals: seq<Val>, n: nat, k: nat): multiset<nat>
    requires k < |vals|
  {
    OwnedItems(types, every, p, vals, n) - ItemOwned(types, every, p, vals[k])
  }

  lemma {:induction false} SwapEntry(types: Schema, every: bool, p: PField, vals: seq<Val>, n: nat, k: nat, v: Val)
    requires p.f.ltype.LSubmessage? && k < n <= |vals|
    ensures OwnedEntries(types, every, p.sub, vals[k := v], n) + ItemOwned(types, every, p, vals[k])
         == OwnedEntries(types, every, p.sub, vals, n) + ItemOwned(types, every, p, v)
    ensures ItemOwned(types, every, p, vals[k]) <= OwnedEntries(types, every, p.sub, vals, n)
  {
    hide Owned;
    if k == n - 1 {
      OwnedEntriesPrefix(types, every, p.sub, vals[k := v], vals, n - 1);
    } else {
      SwapEntry(types, every, p, vals, n - 1, k, v);
      Regroup(OwnedEntries(types, every, p.sub, vals[k := v], n - 1), ItemOwned(types, every, p, vals[k]),
              OwnedEntries(types, every, p.sub, vals, n - 1), ItemOwned(types, every, p, v),
              ItemOwned(types, every, p, vals[n - 1]), multiset{});
    }
  }

  lemma ReplaceEntry(types: Schema, every: bool, p: PField, vals: seq<Val>, n: nat, k: nat, v: Val)
    requires p.f.ltype.LSubmessage? && k < n <= |vals|
    ensures var rest := BesideEntry(types, every, p, vals, n, k);
            && OwnedItems(types, every, p, vals, n) == rest + ItemOwned(types, every, p, vals[k])
            && OwnedItems(types, every, p, vals[k := v], n) == rest + ItemOwned(types, every, p, v)
  {
    hide OwnedEntries, ItemOwned;
    SwapEntry(types, every, p, vals, n, k, v);
    Exchange(OwnedEntries(types, every, p.sub, vals[k := v], n), ItemOwned(types, every, p, vals[k]),
             OwnedEntries(types, every, p.sub, vals, n), ItemOwned(types, every, p, v));
  }

  /** What is owned beside the slot of field i, which stays when that slot is replaced. */
  function BesideField(types: Schema, every: bool, ty: nat, slots: seq<PSlot>, i: nat): multiset<nat>
    requires ty < |types| && |slots| == |types[ty]| && i < |slots|
  {
    var at := Home(Bare(types[ty]), i);
    OwnedUpTo(types, every, ty, slots, |slots|) - OwnedHere(types, every, ty, at, slots[at], |slots|)
  }

  lemma {:induction false} HereIsOwned(types: Schema, every: bool, ty: nat, slots: seq<PSlot>, at: nat, n: nat)
    requires ty < |types| && |slots| == |types[ty]| && at < |slots| && n <= |slots|
    ensures OwnedHere(types, every, ty, at, slots[at], n) <= OwnedUpTo(types, every, ty, slots, n)
  {
    hide OwnedCurrent, Bare;
    if n > 0 { HereIsOwned(types, every, ty, slots, at, n - 1); }
  }

  lemma ReplaceField(types: Schema, every: bool, ty: nat, slots: seq<PSlot>, i: nat, slot: PSlot)
    requires ty < |types| && |slots| == |types[ty]| && i < |slots|
    requires DistinctTags(Bare(types[ty])) && Current(types[ty][i], slot)
    ensures var at := Home(Bare(types[ty]), i); var rest := BesideField(types, every, ty, slots, i);
            && Owned(types, every, ty, slots) == rest + OwnedHere(types, every, ty, at, slots[at], |slots|)
            && Owned(types, every, ty, slots[at := slot]) == rest + OwnedCurrent(types, every, types[ty][i], slot)
  {
    hide OwnedCurrent, OwnedUpTo, OwnedHere, Current, DistinctTags;
    var at, n := Home(Bare(types[ty]), i), |slots|;
    HereIsOwned(types, every, ty, slots, at, n);
    OwnedHereIs(types, every, ty, i, slot, n);
    UpdateOwned(types, every, ty, slots, at, slot, n);
    Exchange(OwnedUpTo(types, every, ty, slots[at := slot], n), OwnedHere(types, every, ty, at, slots[at], n),
             OwnedUpTo(types, every, ty, slots, n), OwnedHere(types, every, ty, at, slot, n));
  }

  lemma Exchange(after: multiset<nat>, here: multiset<nat>, before: multiset<nat>, now: multiset<nat>)
    requires here <= before && after + here == before + now
    ensures after == (before - here) + now && before == (before - here) + here
  {
    forall id ensures after[id] == ((before - here) + now)[id] { assert (after + here)[id] == (before + now)[id]; }
  }

  // ---------------------------------------------------------------- releasing

  lemma {:induction false} FreeEntriesFrees(vals: seq<Val>, n: nat, h: Heap, mode: Mode, others: multiset<nat>)
    requires forall k :: 0 <= k < |vals| ==> Pointing(mode, vals[k])
    requires Holds(h, mode, others + EntryIds(vals, n))
    ensures Holds(FreeEntries(vals, n, h), mode, others)
  {
    hide Holds;
    if n == 0 || n > |vals| {
      assert others + EntryIds(vals, n) == others;
    } else {
      var v := vals[n - 1];
      assert others + EntryIds(vals, n) == (others + Id(v)) + EntryIds(vals, n - 1);
      FreeEntriesFrees(vals, n - 1, h, mode, others + Id(v));
      FreeKeeps(v, FreeEntries(vals, n - 1, h), mode, others);
    }
  }

  predicate TidyEntries(types: Schema, mode: Mode, ty: nat, vals: seq<Val>) {
    forall k :: 0 <= k < |vals| ==> vals[k].Struct? && Tidy(types, mode, ty, vals[k].slots)
  }

  /** The first n of m counted entries are released; what is left is what entries behind a count refer to. */
  lemma {:induction false} ReleaseEntriesFrees(types: Schema, mode: Mode, p: PField, vals: seq<Val>, n: nat, m: nat,
                                               h: Heap, others: multiset<nat>)
    requires SoundSchema(types) && p.f.ltype.LSubmessage? && TidyEntries(types, mode, p.sub, vals) && n <= m <= |vals|
    requires Holds(h, mode, others + OwnedItems(types, Wide(mode), p, vals, m))
    ensures var (vals', h') := ReleaseEntries(types, p.sub, vals, n, h);
            && TidyEntries(types, mode, p.sub, vals')
            && Holds(h', mode, others + OwnedItems(types, Wide(mode), p, vals', m))
            && (forall k :: 0 <= k < n ==> ItemOwned(types, false, p, vals'[k]) == multiset{})
            && (forall k :: n <= k < |vals| ==> vals'[k] == vals[k])
    decreases vals, n
  {
    hide SoundSchema, Tidy, Holds, Owned, Release, OwnedItems, OwnedEntries;
    var every := Wide(mode);
    if n > 0 {
      var v := vals[n - 1];
      ReleaseEntriesFrees(types, mode, p, vals, n - 1, m, h, others);
      var (vs, h1) := ReleaseEntries(types, p.sub, vals, n - 1, h);
      ReleaseEntryFrees(types, mode, p, vs, n - 1, m, h1, others);
    }
  }

  lemma {:induction false} ReleaseEntryFrees(types: Schema, mode: Mode, p: PField, vs: seq<Val>, k: nat, m: nat,
                                             h: Heap, others: multiset<nat>)
    requires SoundSchema(types) && p.f.ltype.LSubmessage? && TidyEntries(types, mode, p.sub, vs) && k < m <= |vs|
    requires Holds(h, mode, others + OwnedItems(types, Wide(mode), p, vs, m))
    ensures var (slots, h') := Release(types, p.sub, vs[k].slots, h); var vs' := vs[k := Struct(slots)];
            && TidyEntries(types, mode, p.sub, vs')
            && Holds(h', mode, others + OwnedItems(types, Wide(mode), p, vs', m))
            && ItemOwned(types, false, p, vs'[k]) == multiset{}
    decreases vs[k], 0
  {
    hide SoundSchema, Tidy, Holds, Owned, Release, OwnedItems;
    var every, v := Wide(mode), vs[k];
    var rest := BesideEntry(types, every, p, vs, m, k);
    ReplaceEntry(types, every, p, vs, m, k, v);
    assert others + OwnedItems(types, every, p, vs, m) == (others + rest) + Owned(types, every, p.sub, v.slots);
    ReleaseFrees(types, mode, p.sub, v.slots, h, others + rest);
    var slots := Release(types, p.sub, v.slots, h).0;
    ReplaceEntry(types, every, p, vs, m, k, Struct(slots));
    assert (others + rest) + Owned(types, every, p.sub, slots) ==
           others + OwnedItems(types, every, p, vs[k := Struct(slots)], m);
  }

  lemma {:induction false} NothingInItems(types: Schema, every: bool, p: PField, vals: seq<Val>, n: nat)
    requires n <= |vals| && forall k :: 0 <= k < n ==> ItemOwned(types, every, p, vals[k]) == multiset{}
    ensures OwnedItems(types, every, p, vals, n) == multiset{}
  {
    hide Owned;
    if n > 0 {
      NothingInItems(types, every, p, vals, n - 1);
      assert ItemOwned(types, every, p, vals[n - 1]) == multiset{};
    }
  }

  lemma {:induction false} ReleaseStaticFrees(types: Schema, mode: Mode, p: PField, slot: PSlot, h: Heap,
                                              others: multiset<nat>)
    requires SoundSchema(types) && !IsPointer(p) && TidyCurrent(types, mode, p, slot)
    requires Holds(h, mode, others + OwnedCurrent(types, Wide(mode), p, slot))
    ensures var (slot', h') := ReleaseCurrent(types, p, slot, h);
            && TidyCurrent(types, mode, p, slot') && OwnedCurrent(types, false, p, slot') == multiset{}
            && Holds(h', mode, others + OwnedCurrent(types, Wide(mode), p, slot'))
            && slot'.size == slot.size
    decreases slot, 0
  {
    hide SoundSchema, Tidy, Holds, ReleaseEntries, OwnedEntries, OwnedItems, ItemOwned;
    if p.f.ltype.LSubmessage? {
      assert forall k :: 0 <= k < |slot.vals| ==> TidyEntry(types, mode, p, slot.vals[k]);
      var n := InPlace(p, slot, false);
      ReleaseEntriesFrees(types, mode, p, slot.vals, n, InPlace(p, slot, Wide(mode)), h, others);
      NothingInItems(types, false, p, ReleaseEntries(types, p.sub, slot.vals, n, h).0, n);
    } else {
      LeavesOwnNothing(types, p, slot.vals, InPlace(p, slot, false));
    }
  }

  lemma LeavesOwnNothing(types: Schema, p: PField, vals: seq<Val>, n: nat)
    requires !p.f.ltype.LSubmessage? && !PointerEntries(p)
    ensures OwnedItems(types, false, p, vals, n) == multiset{}
  {
  }

  /** What the entries of a block own is freed before the block itself. */
  lemma {:induction false} ReleaseBlockFrees(types: Schema, mode: Mode, p: PField, slot: PSlot, h: Heap,
                                             others: multiset<nat>)
    requires SoundSchema(types) && IsPointer(p) && TidyCurrent(types, mode, p, slot) && slot.vals[0].Block?
    requires Holds(h, mode, others + OwnedCurrent(types, Wide(mode), p, slot))
    ensures Holds(ReleaseCurrent(types, p, slot, h).1, mode, others)
    decreases slot, 0
  {
    hide SoundSchema, Tidy, Holds, ReleaseEntries, OwnedEntries, FreeEntries, EntryIds;
    var every := Wide(mode);
    var own := OwnedCurrent(types, every, p, slot);
    var v := slot.vals[0];
    var n := if p.f.htype.Repeated? then slot.size else 1;
    if p.f.ltype.LSubmessage? {
      var before := others + multiset{v.id};
      assert others + own == before + OwnedItems(types, every, p, v.items, n);
      assert forall k :: 0 <= k < |v.items| ==> TidyEntry(types, mode, p, v.items[k]);
      ReleaseEntriesFrees(types, mode, p, v.items, n, n, h, before);
      var (items, h1) := ReleaseEntries(types, p.sub, v.items, n, h);
      if every {
        HoldsLess(h1, mode, before, OwnedItems(types, every, p, items, n));
      } else {
        NothingInItems(types, false, p, items, n);
        assert before + OwnedItems(types, every, p, items, n) == before;
      }
      FreeKeeps(v, h1, mode, others);
    } else if PointerEntries(p) {
      assert others + own == (others + multiset{v.id}) + EntryIds(v.items, n);
      assert forall k :: 0 <= k < |v.items| ==> TidyEntry(types, mode, p, v.items[k]);
      FreeEntriesFrees(v.items, n, h, mode, others + multiset{v.id});
      FreeKeeps(v, FreeEntries(v.items, n, h), mode, others);
    } else {
      assert others + own == others + multiset{v.id};
      FreeKeeps(v, h, mode, others);
    }
  }

  /** One current field. */
  lemma {:induction false} ReleaseCurrentFrees(types: Schema, mode: Mode, p: PField, slot: PSlot, h: Heap,
                                               others: multiset<nat>)
    requires SoundSchema(types) && TidyCurrent(types, mode, p, slot)
    requires Holds(h, mode, others + OwnedCurrent(types, Wide(mode), p, slot))
    ensures var (slot', h') := ReleaseCurrent(types, p, slot, h);
            && TidyCurrent(types, mode, p, slot') && OwnedCurrent(types, false, p, slot') == multiset{}
            && Holds(h', mode, others + OwnedCurrent(types, Wide(mode), p, slot'))
            && (p.f.htype.Oneof? ==> slot'.size == slot.size)
            && (IsPointer(p) ==> slot'.vals == [Null])
    decreases slot, 1
  {
    hide SoundSchema, Tidy, Holds, ReleaseEntries, OwnedEntries, OwnedItems, FreeEntries, EntryIds;
    assert others + multiset{} == others;
    if !IsPointer(p) {
      ReleaseStaticFrees(types, mode, p, slot, h, others);
    } else if slot.vals[0].Block? {
      ReleaseBlockFrees(types, mode, p, slot, h, others);
    } else {
      assert Id(slot.vals[0]) == multiset{};
      FreeKeeps(slot.vals[0], h, mode, others);
    }
  }

  predicate Released(types: Schema, ty: nat, i: nat, slot: PSlot)
    requires ty < |types| && i < |types[ty]|
  {
    Current(types[ty][i], slot) ==> OwnedCurrent(types, false, types[ty][i], slot) == multiset{}
  }

  /** The same members are current as before, and fields before n are released. */
  predicate PartlyReleased(types: Schema, ty: nat, slots: seq<PSlot>, s: seq<PSlot>, n: nat)
    requires ty < |types| && |slots| == |s| == |types[ty]|
  {
    forall i :: 0 <= i < |slots| ==>
      var at := Home(Bare(types[ty]), i);
      && Current(types[ty][i], s[at]) == Current(types[ty][i], slots[at])
      && (i < n ==> Released(types, ty, i, s[at]))
      && (i >= n && Current(types[ty][i], slots[at]) ==> s[at] == slots[at])
  }

  lemma ReleasedSlot(types: Schema, mode: Mode, ty: nat, slots: seq<PSlot>, s: seq<PSlot>, i: nat, slot: PSlot)
    requires SoundSchema(types) && ty < |types| && |slots| == |s| == |types[ty]| && i < |slots|
    requires Tidy(types, mode, ty, s) && PartlyReleased(types, ty, slots, s, i)
    requires var p, at := types[ty][i], Home(Bare(types[ty]), i);
             && Current(p, slots[at]) && TidyCurrent(types, mode, p, slot) &&
                  OwnedCurrent(types, false, p, slot) == multiset{}
             && (p.f.htype.Oneof? ==> slot.size == slots[at].size)
    ensures PartlyReleased(types, ty, slots, s[Home(Bare(types[ty]), i) := slot], i + 1)
  {
    hide TidyCurrent, OwnedCurrent, SoundSchema, Tidy, TidyField, Released, Bare;
    var at := Home(Bare(types[ty]), i);
    forall j | 0 <= j < |slots| && Home(Bare(types[ty]), j) == at && j != i
      ensures !Current(types[ty][j], slot)
      ensures Released(types, ty, j, slot)
    {
      TidyShared(types, mode, ty, s, i, j, slot);
      assert Released(types, ty, j, slot) by { NotCurrentIsReleased(types, ty, j, slot); }
    }
    assert Released(types, ty, i, slot) by { IsReleased(types, ty, i, slot); }
  }

  lemma NotCurrentIsReleased(types: Schema, ty: nat, j: nat, slot: PSlot)
    requires ty < |types| && j < |types[ty]| && !Current(types[ty][j], slot)
    ensures Released(types, ty, j, slot)
  {
  }

  lemma IsReleased(types: Schema, ty: nat, i: nat, slot: PSlot)
    requires ty < |types| && i < |types[ty]| && OwnedCurrent(types, false, types[ty][i], slot) == multiset{}
    ensures Released(types, ty, i, slot)
  {
  }

  /** One current field of a structure whose fields before n are released. */
  lemma {:induction false} ReleaseStep(types: Schema, mode: Mode, ty: nat, slots: seq<PSlot>, s: seq<PSlot>, n: nat,
                                       h: Heap, others: multiset<nat>)
    requires SoundSchema(types) && Tidy(types, mode, ty, slots) && Tidy(types, mode, ty, s)
    requires ty < |types| && |slots| == |s| == |types[ty]| && n < |slots| && PartlyReleased(types, ty, slots, s, n)
    requires var at := Home(Bare(types[ty]), n); Current(types[ty][n], slots[at]) && s[at] == slots[at]
    requires Holds(h, mode, others + Owned(types, Wide(mode), ty, s))
    ensures var at := Home(Bare(types[ty]), n);
            var (slot, h') := ReleaseCurrent(types, types[ty][n], slots[at], h);
            && Tidy(types, mode, ty, s[at := slot]) && PartlyReleased(types, ty, slots, s[at := slot], n + 1)
            && Holds(h', mode, others + Owned(types, Wide(mode), ty, s[at := slot]))
    decreases slots, 0
  {
    hide SoundSchema, SoundField, TidyCurrent, Holds, OwnedCurrent, OwnedUpTo, Owned, OwnedHere, ReleaseCurrent;
    hide TidyUnion, PartlyReleased;
    hide Tidy, DistinctTags;
    var every, p, at := Wide(mode), types[ty][n], Home(Bare(types[ty]), n);
    SchemaField(types, ty, n);
    FieldIsTidy(types, mode, ty, slots, n);
    var rest := BesideField(types, every, ty, s, n);
    ReplaceField(types, every, ty, s, n, slots[at]);
    OwnedHereIs(types, every, ty, n, slots[at], |slots|);
    assert others + Owned(types, every, ty, s) == (others + rest) + OwnedCurrent(types, every, p, slots[at]);
    ReleaseCurrentFrees(types, mode, p, slots[at], h, others + rest);
    var slot := ReleaseCurrent(types, p, slots[at], h).0;
    StillCurrent(p, slots[at], slot);
    ReplaceField(types, every, ty, s, n, slot);
    assert (others + rest) + OwnedCurrent(types, every, p, slot) == others + Owned(types, every, ty, s[at := slot]);
    TidyUpdate(types, mode, ty, s, n, slot);
    ReleasedSlot(types, mode, ty, slots, s, n, slot);
  }

  lemma {:induction false} ReleaseUpToFrees(types: Schema, mode: Mode, ty: nat, slots: seq<PSlot>, n: nat, h: Heap,
                                            others: multiset<nat>)
    requires SoundSchema(types) && Tidy(types, mode, ty, slots) && n <= |slots|
    requires Holds(h, mode, others + Owned(types, Wide(mode), ty, slots))
    ensures ty < |types| && |slots| == |types[ty]|
    ensures var (s, h') := ReleaseUpTo(types, ty, slots, n, h);
            && Tidy(types, mode, ty, s) && PartlyReleased(types, ty, slots, s, n)
            && Holds(h', mode, others + Owned(types, Wide(mode), ty, s))
    decreases slots, n
  {
    hide SoundSchema, Holds, Owned, ReleaseCurrent, PartlyReleased, Tidy, Current, Home;
    TidyLength(types, mode, ty, slots);
    if n == 0 {
      NothingYet(types, ty, slots);
    } else {
      ReleaseUpToFrees(types, mode, ty, slots, n - 1, h, others);
      var (s, h1) := ReleaseUpTo(types, ty, slots, n - 1, h);
      NextField(types, ty, slots, s, n - 1);
      if Current(types[ty][n - 1], slots[Home(Bare(types[ty]), n - 1)]) {
        ReleaseStep(types, mode, ty, slots, s, n - 1, h1, others);
      }
    }
  }

  lemma StillCurrent(p: PField, before: PSlot, after: PSlot)
    requires Current(p, before) && (p.f.htype.Oneof? ==> after.size == before.size)
    ensures Current(p, after)
  {
  }

  lemma NothingYet(types: Schema, ty: nat, slots: seq<PSlot>)
    requires ty < |types| && |slots| == |types[ty]|
    ensures PartlyReleased(types, ty, slots, slots, 0)
  {
  }

  /** The slot of field n when its turn comes; a field that is not current needs nothing. */
  lemma NextField(types: Schema, ty: nat, slots: seq<PSlot>, s: seq<PSlot>, n: nat)
    requires ty < |types| && |slots| == |s| == |types[ty]| && n < |slots| && PartlyReleased(types, ty, slots, s, n)
    ensures var p, at := types[ty][n], Home(Bare(types[ty]), n);
            && (Current(p, slots[at]) ==> s[at] == slots[at])
            && (!Current(p, slots[at]) ==> PartlyReleased(types, ty, slots, s, n + 1))
  {
    hide Released, Bare;
    var p, at := types[ty][n], Home(Bare(types[ty]), n);
    assert Current(p, s[at]) == Current(p, slots[at]);
    if !Current(p, slots[at]) { NotCurrentIsReleased(types, ty, n, s[at]); }
  }

  lemma {:induction false} NothingOwned(types: Schema, ty: nat, slots: seq<PSlot>, n: nat)
    requires ty < |types| && |slots| == |types[ty]| && n <= |slots|
    requires forall i :: 0 <= i < n ==> Released(types, ty, i, slots[Home(Bare(types[ty]), i)])
    ensures OwnedUpTo(types, false, ty, slots, n) == multiset{}
  {
    hide OwnedCurrent, Bare;
    if n > 0 {
      NothingOwned(types, ty, slots, n - 1);
      assert Released(types, ty, n - 1, slots[Home(Bare(types[ty]), n - 1)]);
    }
  }

  /** pb_release frees exactly the blocks reachable from the structure, each once, and the structure it
      leaves owns nothing. Applied to that structure again it therefore frees nothing. */
  lemma {:induction false} ReleaseFrees(types: Schema, mode: Mode, ty: nat, slots: seq<PSlot>, h: Heap,
                                        others: multiset<nat>)
    requires SoundSchema(types) && Tidy(types, mode, ty, slots)
    requires Holds(h, mode, others + Owned(types, Wide(mode), ty, slots))
    ensures var (slots', h') := Release(types, ty, slots, h);
            && Tidy(types, mode, ty, slots') && Owned(types, false, ty, slots') == multiset{}
            && Holds(h', mode, others + Owned(types, Wide(mode), ty, slots'))
            && (!Wide(mode) ==> Holds(h', mode, others))
    decreases slots, |slots| + 1
  {
    hide SoundSchema, Holds, OwnedCurrent, ReleaseUpTo, TidyField, PartlyReleased, Tidy;
    ReleaseUpToFrees(types, mode, ty, slots, |slots|, h, others);
    var s := Release(types, ty, slots, h).0;
    AllReleased(types, ty, slots, s);
    assert others + multiset{} == others;
  }

  lemma AllReleased(types: Schema, ty: nat, slots: seq<PSlot>, s: seq<PSlot>)
    requires ty < |types| && |slots| == |s| == |types[ty]| && PartlyReleased(types, ty, slots, s, |slots|)
    ensures Owned(types, false, ty, s) == multiset{}
  {
    hide OwnedCurrent, OwnedUpTo, Released, Bare;
    NothingOwned(types, ty, s, |s|);
  }
}
