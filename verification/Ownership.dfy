/** Which heap blocks a decoded structure owns, and that no call of the allocating decoder loses or frees
    twice a block, whatever the input bytes and whichever realloc calls fail. */
module Ownership {
  import opened Wire
  import opened Descriptor
  import opened HeapDecoder

  // ---------------------------------------------------------------- schemas

  /** No pointer anywhere in a structure of this type. */
  predicate Pointerless(types: Schema, ty: nat)
    decreases ty
  {
    ty < |types| &&
    forall i :: 0 <= i < |types[ty]| ==>
      !IsPointer(types[ty][i]) &&
      (types[ty][i].f.ltype.LSubmessage? ==> types[ty][i].sub < ty && Pointerless(types, types[ty][i].sub))
  }

  /** What the generator guarantees about one field. Embedded structures are of earlier types, only pointers
      may lead to any type. */
  predicate SoundField(types: Schema, ty: nat, p: PField) {
    && 1 <= p.f.tag < TWO32 / 8
    && (p.f.ltype.LSubmessage? ==> p.sub < |types| && (IsPointer(p) || p.sub < ty))
    && (IsPointer(p) ==> 0 < p.f.dataSize <= PB_SIZE_MAX && !FixedCount(p.f))
    && (p.f.htype.Repeated? && !IsPointer(p) ==> 1 <= p.f.arraySize < PB_SIZE_MAX)
    && (FixedCount(p.f) ==> p.f.dataSize * p.f.arraySize >= COUNT_BYTES)
  }

  predicate SoundSchema(types: Schema) {
    forall ty :: 0 <= ty < |types| ==>
      DistinctTags(Bare(types[ty])) && forall i :: 0 <= i < |types[ty]| ==> SoundField(types, ty, types[ty][i])
  }

  // ---------------------------------------------------------------- pointers under a zero count

  /** Submessages in place that default initialisation, or decoding the entries it leaves, may come upon again.
      The contents of a union are replaced instead. */
  predicate InMemory(types: Schema, ty: nat, i: nat)
    requires ty < |types|
  {
    i < |types[ty]| && !IsPointer(types[ty][i]) && !types[ty][i].f.htype.Oneof? && types[ty][i].f.ltype.LSubmessage? &&
        types[ty][i].sub < ty
  }

  /** Among the first c bytes of such a structure there can be part of a pointer. */
  predicate StartsWithPointer(types: Schema, ty: nat, c: int)
    requires ty < |types|
    decreases ty
  {
    exists i :: 0 <= i < |types[ty]| && ReachesPointer(types, ty, i, c - DataOffset(Bare(types[ty]), i))
  }

  predicate ReachesPointer(types: Schema, ty: nat, i: nat, c: int)
    requires ty < |types| && i < |types[ty]|
    decreases ty, 0
  {
    c > 0 &&
    if InMemory(types, ty, i) then
      (types[ty][i].f.htype.Repeated? ==> FixedCount(types[ty][i].f)) && StartsWithPointer(types, types[ty][i].sub, c)
    else IsPointer(types[ty][i]) && !types[ty][i].f.htype.Repeated? && !types[ty][i].f.htype.Oneof?
  }

  /** No structure in place inside this type has a fixed-count array whose first entry starts with a pointer, so
      that no zero count is ever stored over one. */
  predicate Sturdy(types: Schema, ty: nat)
    requires ty < |types|
    decreases ty
  {
    forall i :: 0 <= i < |types[ty]| && InMemory(types, ty, i) ==>
      && Sturdy(types, types[ty][i].sub)
      && (FixedCount(types[ty][i].f) ==> !StartsWithPointer(types, types[ty][i].sub, COUNT_BYTES))
  }

  /** Clearing the first c bytes of this structure clears no part of a pointer that is set. */
  predicate Harmless(types: Schema, ty: nat, slots: seq<PSlot>, c: int)
    decreases ty, 1
  {
    ty < |types| && |slots| == |types[ty]| ==>
      forall i :: 0 <= i < |slots| ==> HarmlessSlot(types, ty, i, slots[i], c - DataOffset(Bare(types[ty]), i))
  }

  predicate HarmlessSlot(types: Schema, ty: nat, i: nat, slot: PSlot, c: int)
    requires ty < |types| && i < |types[ty]|
    decreases ty, 0
  {
    var p := types[ty][i];
    if InMemory(types, ty, i) then
      (p.f.htype.Repeated? ==> FixedCount(p.f)) ==>
        forall k :: 0 <= k < |slot.vals| && slot.vals[k].Struct? && c - k * p.f.dataSize > 0 ==>
          Harmless(types, p.sub, slot.vals[k].slots, c - k * p.f.dataSize)
    else c > 0 && IsPointer(p) && !p.f.htype.Repeated? && !p.f.htype.Oneof? ==> |slot.vals| == 1 ==>
        !slot.vals[0].Block?
  }

  /** Setting this structure to defaults, or decoding its entries after that, stores no count over a pointer that
      is set. */
  predicate Unarmed(types: Schema, ty: nat, slots: seq<PSlot>)
    decreases ty, 1
  {
    ty < |types| && |slots| == |types[ty]| ==>
      forall i :: 0 <= i < |slots| && InMemory(types, ty, i) ==> UnarmedVals(types, ty, i, slots[i].vals)
  }

  predicate UnarmedVals(types: Schema, ty: nat, i: nat, vals: seq<Val>)
    requires ty < |types| && InMemory(types, ty, i)
    decreases ty, 0
  {
    var p := types[ty][i];
    forall k :: 0 <= k < |vals| && vals[k].Struct? ==>
      && Unarmed(types, p.sub, vals[k].slots)
      && (FixedCount(p.f) && COUNT_BYTES - k * p.f.dataSize > 0 ==>
           Harmless(types, p.sub, vals[k].slots, COUNT_BYTES - k * p.f.dataSize))
  }

  predicate UnarmedVal(types: Schema, p: PField, v: Val) {
    p.f.ltype.LSubmessage? && v.Struct? ==> Unarmed(types, p.sub, v.slots)
  }

  // ---------------------------------------------------------------- four accounts

  /** Four accounts are kept of the blocks. Any: all schemas, inputs and destinations; every pointer in memory
      counts, blocks may have been lost, and harm may have been done. Every: the same, and nothing was freed twice
      or written outside its block. Live: only what is part of the value counts, and array entries behind it may
      hold anything; kept by inputs that are accepted. Clean: those entries hold nothing; kept by all inputs. */
  datatype Mode = Any | Every | Live | Clean

  /** All memory counts. */
  predicate Wide(mode: Mode) {
    mode.Any? || mode.Every?
  }

  // ---------------------------------------------------------------- arrays that must not be decoded twice

  /** A fixed-count array whose elements may hold pointers. Its elements are set to defaults whenever they are
      decoded, so decoding it a second time forgets the blocks of the first. */
  predicate HoldsPointers(types: Schema, ty: nat, i: nat)
    requires ty < |types|
  {
    i < |types[ty]| && FixedCount(types[ty][i].f) && types[ty][i].f.ltype.LSubmessage? &&
        !Pointerless(types, types[ty][i].sub)
  }

  /** The fixed-count arrays that an account allows to be decoded only once. For all of memory those are the ones
      whose elements, set to defaults again, may have a count stored over a pointer. */
  predicate Delicate(types: Schema, mode: Mode, ty: nat, i: nat)
    requires ty < |types|
  {
    match mode
    case Any => false
    case Every =>
      && i < |types[ty]| && FixedCount(types[ty][i].f) && types[ty][i].f.ltype.LSubmessage?
      && types[ty][i].sub < |types| && !Sturdy(types, types[ty][i].sub)
    case _ => HoldsPointers(types, ty, i)
  }

  /** An embedded structure that is no array entry: every further record of it is decoded into what the first
      left there. */
  predicate Embeds(p: PField) {
    p.f.ltype.LSubmessage? && !IsPointer(p) && !p.f.htype.Repeated?
  }

  /** Messages of this type can make a delicate array be decoded twice: by a second record of an embedded
      structure that contains one, or by switching to another fixed-count field and back. */
  predicate Risky(types: Schema, mode: Mode, ty: nat)
    requires ty < |types|
  {
    || (exists q, i :: 0 <= q < |types[ty]| && Embeds(types[ty][q]) && types[ty][q].sub < |types| &&
                       0 <= i < |types[types[ty][q].sub]| && Delicate(types, mode, types[ty][q].sub, i))
    || (exists i, j :: 0 <= i < |types[ty]| && Delicate(types, mode, ty, i) &&
                       0 <= j < |types[ty]| && j != i && FixedCount(types[ty][j].f))
  }

  /** A way into a message: the submessage field to follow at each level. */
  predicate Leads(types: Schema, ty: nat, path: seq<nat>)
    decreases |path|
  {
    && ty < |types|
    && (path == [] ||
        (path[0] < |types[ty]| && types[ty][path[0]].f.ltype.LSubmessage? &&
            Leads(types, types[ty][path[0]].sub, path[1..])))
  }

  function EndOf(types: Schema, ty: nat, path: seq<nat>): (t: nat)
    requires Leads(types, ty, path)
    ensures t < |types|
    decreases |path|
  {
    if path == [] then ty else EndOf(types, types[ty][path[0]].sub, path[1..])
  }

  /** No type that messages of type ty can contain makes an array that holds pointers be decoded twice. */
  ghost predicate LossFree(types: Schema, ty: nat) {
    forall path :: Leads(types, ty, path) ==> !Risky(types, Clean, EndOf(types, ty, path))
  }

  /** The same for arrays whose elements may have a count stored over a pointer. */
  ghost predicate HarmFree(types: Schema, ty: nat) {
    forall path :: Leads(types, ty, path) ==> !Risky(types, Every, EndOf(types, ty, path))
  }

  /** No type that messages of type ty can contain has a fixed-count array of structures with pointers. */
  ghost predicate NoPointerArrays(types: Schema, ty: nat) {
    forall path :: Leads(types, ty, path) ==> forall i: nat :: !HoldsPointers(types, EndOf(types, ty, path), i)
  }

  /** The types for which an account is exact. */
  ghost predicate Fits(types: Schema, mode: Mode, ty: nat) {
    match mode
    case Any => true
    case Every => HarmFree(types, ty)
    case Live => NoPointerArrays(types, ty)
    case Clean => LossFree(types, ty)
  }

  lemma FitsHere(types: Schema, mode: Mode, ty: nat)
    requires Fits(types, mode, ty) && ty < |types|
    ensures mode.Live? ==> forall i: nat :: !HoldsPointers(types, ty, i)
    ensures mode.Clean? || mode.Every? ==> !Risky(types, mode, ty)
  {
    hide Risky, HoldsPointers;
    assert Leads(types, ty, []) && EndOf(types, ty, []) == ty;
  }

  lemma FitsInside(types: Schema, mode: Mode, ty: nat, i: nat)
    requires Fits(types, mode, ty) && ty < |types| && i < |types[ty]| && types[ty][i].f.ltype.LSubmessage?
    ensures Fits(types, mode, types[ty][i].sub)
  {
    hide Risky, HoldsPointers;
    var sub := types[ty][i].sub;
    forall path | Leads(types, sub, path)
      ensures Leads(types, ty, [i] + path) && EndOf(types, ty, [i] + path) == EndOf(types, sub, path)
    {
      assert ([i] + path)[1..] == path;
    }
  }

  // ---------------------------------------------------------------- structures the decoder keeps

  /** An entry stored in an array or in place. */
  predicate TidyEntry(types: Schema, mode: Mode, p: PField, v: Val)
    decreases v
  {
    if p.f.ltype.LSubmessage? then v.Struct? && Tidy(types, mode, p.sub, v.slots)
    else if PointerEntries(p) then v.Null? || v.Block?
    else v.Plain?
  }

  /** A pointer array is Null or a block with exactly as many entries as its count says, all inside it. */
  predicate TidyPointer(types: Schema, mode: Mode, p: PField, size: nat, v: Val)
    decreases v
  {
    match v
    case Null => p.f.htype.Repeated? ==> size == 0
    case Block(_, cap, items) =>
      if p.f.htype.Repeated? then
        && |items| == size <= PB_SIZE_MAX
        && cap >= p.f.dataSize * size
        && forall k :: 0 <= k < |items| ==> TidyEntry(types, mode, p, items[k])
      else if p.f.ltype.LSubmessage? then |items| == 1 && TidyEntry(types, mode, p, items[0])
      else items == []
    case Wild => mode.Any? && !p.f.htype.Repeated?
    case _ => false
  }

  /** An entry that may be set to defaults: no pointer in it is overwritten in part, or none is set. */
  predicate Idle(types: Schema, mode: Mode, p: PField, v: Val) {
    match mode
    case Every => UnarmedVal(types, p, v)
    case Clean => ItemOwned(types, false, p, v) == multiset{}
    case _ => true
  }

  /** Entries of an array in place that are not part of the value are idle. */
  predicate TidyCurrent(types: Schema, mode: Mode, p: PField, slot: PSlot)
    decreases slot, 0
  {
    if IsPointer(p) then |slot.vals| == 1 && TidyPointer(types, mode, p, slot.size, slot.vals[0])
    else
      && |slot.vals| == (if p.f.htype.Repeated? then p.f.arraySize else 1)
      && (forall k :: 0 <= k < |slot.vals| ==> TidyEntry(types, mode, p, slot.vals[k]))
      && forall k :: InPlace(p, slot, false) <= k < |slot.vals| ==> Idle(types, mode, p, slot.vals[k])
  }

  /** A union holds nothing, or one of its members. */
  predicate TidyUnion(fields: seq<Field>, i: nat, slot: PSlot)
    requires i < |fields|
  {
    fields[i].htype.Oneof? ==>
      if slot.size == 0 then slot.vals == [Null] else MemberTag(fields, Home(fields, i), slot.size)
  }

  predicate TidyField(types: Schema, mode: Mode, ty: nat, i: nat, slot: PSlot)
    requires ty < |types| && i < |types[ty]|
    decreases slot, 1
  {
    && TidyUnion(Bare(types[ty]), i, slot)
    && (Current(types[ty][i], slot) ==> TidyCurrent(types, mode, types[ty][i], slot))
  }

  predicate Tidy(types: Schema, mode: Mode, ty: nat, slots: seq<PSlot>)
    decreases slots
  {
    && ty < |types| && |slots| == |types[ty]|
    && forall i :: 0 <= i < |slots| ==> TidyField(types, mode, ty, i, slots[Home(Bare(types[ty]), i)])
  }

  // ---------------------------------------------------------------- the heap

  /** Nothing was freed twice or written out of bounds, identities are handed out once, and the blocks in
      `all` are live: exactly those, or, in the accounts that allow for losses, those and the lost ones. */
  predicate Holds(h: Heap, mode: Mode, all: multiset<nat>) {
    && (h.bad ==> mode.Any?)
    && (if Wide(mode) then all + h.lost <= h.live else h.live == all)
    && forall id :: id in h.live ==> id < h.next && h.live[id] == 1
  }

  lemma HoldsLess(h: Heap, mode: Mode, all: multiset<nat>, rest: multiset<nat>)
    requires Wide(mode) && Holds(h, mode, all + rest)
    ensures Holds(h, mode, all)
  {
    assert all + h.lost <= (all + rest) + h.lost;
  }

  function Id(v: Val): multiset<nat> {
    if v.Block? then multiset{v.id} else multiset{}
  }

  /** What a pointer may be; a wild one only where harm may have been done. */
  predicate Pointing(mode: Mode, v: Val) {
    v.Null? || v.Block? || (v.Wild? && mode.Any?)
  }

  lemma FreeKeeps(v: Val, h: Heap, mode: Mode, others: multiset<nat>)
    requires (v.Wild? ==> mode.Any?) && Holds(h, mode, others + Id(v))
    ensures Holds(Free(v, h), mode, others)
  {
    if v.Block? {
      assert v.id in others + Id(v) + h.lost;
      assert !Wide(mode) ==> h.live - multiset{v.id} == others;
      assert Wide(mode) ==> others + h.lost <= h.live - multiset{v.id} by {
        if Wide(mode) {
          forall id ensures (others + h.lost)[id] <= (h.live - multiset{v.id})[id] {
            assert (others + multiset{v.id} + h.lost)[id] <= h.live[id];
          }
        }
      }
    } else {
      assert others + Id(v) == others;
    }
  }

  lemma AllocateIs(v: Val, dataSize: nat, count: nat, h: Heap)
    ensures var (ok, v', h') := Allocate(v, dataSize, count, h); var h0 := h.(grants := h'.grants);
            if ok then
              && v' == Block(h.next, dataSize * count, if v.Block? then v.items else [])
              && h' == Free(v, h0).(live := Free(v, h0).live + multiset{h.next}, next := h.next + 1)
            else v' == v && h' == h0.(bad := h'.bad) && (h'.bad ==> h.bad || v.Wild?)
  {
    hide TooLarge;
  }

  /** allocate_field either leaves the pointer and the heap alone or replaces the block by a larger one. */
  lemma AllocateKeeps(v: Val, dataSize: nat, count: nat, h: Heap, mode: Mode, others: multiset<nat>)
    requires (v.Wild? ==> mode.Any?) && Holds(h, mode, others + Id(v))
    ensures var (ok, v', h') := Allocate(v, dataSize, count, h);
            && Holds(h', mode, others + Id(v'))
            && (!ok ==> v' == v)
            && (ok ==> v'.Block? && v'.cap == dataSize * count && v'.items == if v.Block? then v.items else [])
  {
    hide Allocate, Holds;
    AllocateIs(v, dataSize, count, h);
    var r := Allocate(v, dataSize, count, h);
    var h0 := h.(grants := r.2.grants);
    SameBlocks(h, h0, mode, others + Id(v));
    if r.0 {
      FreeKeeps(v, h0, mode, others);
      HandOut(Free(v, h0), mode, others);
    } else {
      SameBlocks(h, r.2, mode, others + Id(v));
    }
  }

  lemma SameBlocks(h: Heap, h': Heap, mode: Mode, all: multiset<nat>)
    requires Holds(h, mode, all) && h' == h.(grants := h'.grants, bad := h'.bad) && (h'.bad ==> h.bad || mode.Any?)
    ensures Holds(h', mode, all)
  {
  }

  lemma HandOut(h: Heap, mode: Mode, others: multiset<nat>)
    requires Holds(h, mode, others)
    ensures Holds(h.(live := h.live + multiset{h.next}, next := h.next + 1), mode, others + multiset{h.next})
  {
    assert h.live[h.next] == 0;
    if Wide(mode) {
      forall id ensures (others + multiset{h.next} + h.lost)[id] <= (h.live + multiset{h.next})[id] {
        assert (others + h.lost)[id] <= h.live[id];
      }
    }
  }

  /** The half-width shortcut and the division together reject a request exactly when its size in bytes is
      not representable. */
  lemma TooLargeIsExact(dataSize: nat, count: nat)
    requires count > 0
    ensures TooLarge(dataSize, count) <==> dataSize * count > SIZE_MAX
  {
    if dataSize < HALF_WIDTH && count < HALF_WIDTH {
      assert dataSize * count <= (HALF_WIDTH - 1) * (HALF_WIDTH - 1) by {
        MulMonotone(dataSize, HALF_WIDTH - 1, count);
        MulMonotone(count, HALF_WIDTH - 1, HALF_WIDTH - 1);
      }
    } else {
      DivisionBound(SIZE_MAX, count, dataSize);
    }
  }

  lemma MulMonotone(a: nat, b: nat, c: nat)
    requires a <= b
    ensures a * c <= b * c && c * a <= c * b
  {
  }

  lemma DivisionBound(m: nat, c: nat, d: nat)
    requires c > 0
    ensures m / c < d <==> d * c > m
  {
    var q := m / c;
    assert m == q * c + m % c;
    if q < d { MulMonotone(q + 1, d, c); } else { MulMonotone(d, q, c); }
  }

  // ---------------------------------------------------------------- sums over the fields of a structure

  /** What the fields before n that live in slot `at` own when the slot is as given. */
  function OwnedHere(types: Schema, every: bool, ty: nat, at: nat, slot: PSlot, n: nat): multiset<nat>
    requires ty < |types| && n <= |types[ty]|
  {
    if n == 0 then multiset{}
    else OwnedHere(types, every, ty, at, slot, n - 1) +
         if Home(Bare(types[ty]), n - 1) == at && Current(types[ty][n - 1], slot)
         then OwnedCurrent(types, every, types[ty][n - 1], slot) else multiset{}
  }

  lemma Regroup(a: multiset<nat>, b: multiset<nat>, c: multiset<nat>, d: multiset<nat>, x: multiset<nat>,
                y: multiset<nat>)
    requires a + b == c + d
    ensures (a + x) + (b + y) == (c + y) + (d + x)
    ensures (a + x) + b == (c + x) + d
  {
    assert forall id :: (a + b)[id] == (c + d)[id];
    assert forall id :: a[id] + b[id] == c[id] + d[id] by {
      forall id ensures a[id] + b[id] == c[id] + d[id] { assert (a + b)[id] == (c + d)[id]; }
    }
  }

  lemma {:induction false} UpdateOwned(types: Schema, every: bool, ty: nat, slots: seq<PSlot>, at: nat, slot: PSlot,
                                       n: nat)
    requires ty < |types| && |slots| == |types[ty]| && at < |slots| && n <= |slots|
    ensures OwnedUpTo(types, every, ty, slots[at := slot], n) + OwnedHere(types, every, ty, at, slots[at], n)
         == OwnedUpTo(types, every, ty, slots, n) + OwnedHere(types, every, ty, at, slot, n)
  {
    hide OwnedCurrent, Bare;
    if n > 0 {
      UpdateOwned(types, every, ty, slots, at, slot, n - 1);
      var home := Home(Bare(types[ty]), n - 1);
      var a, b := OwnedUpTo(types, every, ty, slots[at := slot], n - 1),
          OwnedHere(types, every, ty, at, slots[at], n - 1);
      var c, d := OwnedUpTo(types, every, ty, slots, n - 1), OwnedHere(types, every, ty, at, slot, n - 1);
      var now := if Current(types[ty][n - 1], slot) then OwnedCurrent(types, every, types[ty][n - 1], slot)
          else multiset{};
      var before := if Current(types[ty][n - 1], slots[at])
          then OwnedCurrent(types, every, types[ty][n - 1], slots[at]) else multiset{};
      if home == at {
        Regroup(a, b, c, d, now, before);
      } else {
        assert slots[at := slot][home] == slots[home];
        Regroup(a, b, c, d, if Current(types[ty][n - 1], slots[home])
            then OwnedCurrent(types, every, types[ty][n - 1], slots[home]) else multiset{}, multiset{});
      }
    }
  }

  /** Only the current member of a union counts. */
  lemma {:induction false} OwnedHereIs(types: Schema, every: bool, ty: nat, i: nat, slot: PSlot, n: nat)
    requires ty < |types| && i < |types[ty]| && n <= |types[ty]|
    requires DistinctTags(Bare(types[ty])) && Current(types[ty][i], slot)
    ensures OwnedHere(types, every, ty, Home(Bare(types[ty]), i), slot, n)
         == if i < n then OwnedCurrent(types, every, types[ty][i], slot) else multiset{}
  {
    hide OwnedCurrent;
    if n > 0 {
      OwnedHereIs(types, every, ty, i, slot, n - 1);
      var fields := Bare(types[ty]);
      if n - 1 != i && Home(fields, n - 1) == Home(fields, i) {
        assert fields[i].htype.Oneof? && fields[n - 1].htype.Oneof?;
        assert fields[n - 1].tag != fields[i].tag;
      }
    }
  }

  lemma {:induction false} OwnedHereNothing(types: Schema, every: bool, ty: nat, at: nat, slot: PSlot, n: nat)
    requires ty < |types| && at < |types[ty]| && n <= |types[ty]|
    requires SoundSchema(types) && types[ty][at].f.htype.Oneof? && slot.size == 0
    ensures OwnedHere(types, every, ty, at, slot, n) == multiset{}
  {
    hide OwnedCurrent, Pointerless, DistinctTags;
    if n > 0 {
      OwnedHereNothing(types, every, ty, at, slot, n - 1);
      assert SoundField(types, ty, types[ty][n - 1]);
    }
  }

  lemma {:induction false} PointerlessOwnsNothing(types: Schema, every: bool, ty: nat, slots: seq<PSlot>, n: nat)
    requires Pointerless(types, ty) && |slots| == |types[ty]| && n <= |slots|
    ensures OwnedUpTo(types, every, ty, slots, n) == multiset{}
    decreases ty, 1, n
  {
    if n > 0 {
      PointerlessOwnsNothing(types, every, ty, slots, n - 1);
      var p := types[ty][n - 1];
      var slot := slots[Home(Bare(types[ty]), n - 1)];
      if p.f.ltype.LSubmessage? { PointerlessEntries(types, every, p.sub, slot.vals, InPlace(p, slot, every)); }
      assert OwnedItems(types, every, p, slot.vals, InPlace(p, slot, every)) == multiset{};
    }
  }

  lemma {:induction false} PointerlessEntries(types: Schema, every: bool, ty: nat, vals: seq<Val>, n: nat)
    requires Pointerless(types, ty)
    ensures OwnedEntries(types, every, ty, vals, n) == multiset{}
    decreases ty, 2, n
  {
    if 0 < n <= |vals| {
      PointerlessEntries(types, every, ty, vals, n - 1);
      var v := vals[n - 1];
      if v.Struct? && |v.slots| == |types[ty]| { PointerlessOwnsNothing(types, every, ty, v.slots, |v.slots|); }
    }
  }
}
