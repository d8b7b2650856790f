/** The allocating parts of nanopb that work by loops on a heap: allocate_field, pb_release and the growth
    loop of packed pointer arrays. Each method is proved to do what its function in HeapDecoder says, and
    pb_release to give back exactly what the structure owns. */
module Allocators {
  import opened Descriptor
  import opened DecodeSpec
  import opened HeapDecoder
  import opened Ownership
  import opened HeapRelease
  import opened InputStreams
  import Decoder

  class Allocator {
    var heap: Heap

    constructor (grants: seq<bool>)
      ensures heap == Heap(multiset{}, 0, grants, multiset{}, false) && Holds(heap, Clean, multiset{})
    {
      heap := Heap(multiset{}, 0, grants, multiset{}, false);
    }

    /** pb_free. Freeing NULL does nothing, freeing a wild pointer harms. */
    method FreeBlock(v: Val)
      modifies this
      ensures heap == Free(v, old(heap))
    {
      if v.Block? {
        heap := heap.(bad := heap.bad || v.id !in heap.live, live := heap.live - multiset{v.id});
      } else if v.Wild? {
        heap := heap.(bad := true);
      }
    }

    /** pb_realloc: a granted request moves the contents to a new block. */
    method Realloc(v: Val, size: nat) returns (ok: bool, v': Val)
      modifies this
      ensures ok == (old(heap).grants == [] || old(heap).grants[0])
      ensures !ok ==> v' == v && heap == old(heap).(grants := old(heap).grants[1..], bad := old(heap).bad || v.Wild?)
      ensures ok ==>
                var h := Free(v, old(heap).(grants := if old(heap).grants == [] then [] else old(heap).grants[1..]));
                && v' == Block(old(heap).next, size, if v.Block? then v.items else [])
                && heap == h.(live := h.live + multiset{h.next}, next := h.next + 1)
    {
      ok := heap.grants == [] || heap.grants[0];
      if heap.grants != [] { heap := heap.(grants := heap.grants[1..]); }
      if !ok {
        heap := heap.(bad := heap.bad || v.Wild?);
        return false, v;
      }
      FreeBlock(v);
      v' := Block(heap.next, size, if v.Block? then v.items else []);
      heap := heap.(live := heap.live + multiset{heap.next}, next := heap.next + 1);
    }

    /** allocate_field. It fails without touching anything exactly for an empty request, for one whose size
        cannot be represented, and when realloc fails. */
    method AllocateField(v: Val, dataSize: nat, count: nat) returns (ok: bool, v': Val)
      modifies this
      ensures (ok, v', heap) == Allocate(v, dataSize, count, old(heap))
      ensures ok <==>
              dataSize > 0 && count > 0 && dataSize * count <= SIZE_MAX &&
                  (old(heap).grants == [] || old(heap).grants[0])
    {
      if dataSize == 0 || count == 0 { return false, v; }
      TooLargeIsExact(dataSize, count);
      if dataSize >= HALF_WIDTH || count >= HALF_WIDTH {
        if SIZE_MAX / count < dataSize { return false, v; }
      }
      ok, v' := Realloc(v, dataSize * count);
    }

    // -------------------------------------------------------------- pb_release

    /** The loop over the submessages of a field. */
    method ReleaseItems(types: Schema, ty: nat, vals: seq<Val>, count: nat) returns (vals': seq<Val>)
      requires SoundSchema(types) && TidyEntries(types, Any, ty, vals) && count <= |vals|
      modifies this
      ensures (vals', heap) == ReleaseEntries(types, ty, vals, count, old(heap))
      decreases vals, 0
    {
      hide SoundSchema, Tidy, Release;
      vals' := vals;
      var k := 0;
      while k < count
        invariant k <= count && |vals'| == |vals|
        invariant (vals', heap) == ReleaseEntries(types, ty, vals, k, old(heap))
      {
        var slots := ReleaseMessage(types, ty, vals[k].slots);
        vals' := vals'[k := Struct(slots)];
        k := k + 1;
      }
    }

    /** The loop over the entries of a repeated string or bytes field. */
    method FreeItems(vals: seq<Val>, count: nat)
      requires count <= |vals|
      modifies this
      ensures heap == FreeEntries(vals, count, old(heap))
    {
      for k := 0 to count
        invariant heap == FreeEntries(vals, k, old(heap))
      {
        FreeBlock(vals[k]);
      }
    }

    /** pb_release_single_field. A union member that is not current is left alone. */
    method ReleaseSingleField(types: Schema, p: PField, slot: PSlot, ghost part: PSlot) returns (slot': PSlot)
      requires SoundSchema(types) && (Current(p, slot) ==> slot == part && TidyCurrent(types, Any, p, slot))
      modifies this
      ensures (slot', heap) == if Current(p, slot) then ReleaseCurrent(types, p, slot, old(heap)) else (slot, old(heap))
      decreases part, 0
    {
      hide SoundSchema, Tidy, ReleaseEntries, FreeEntries;
      slot' := slot;
      if p.f.htype.Oneof? && slot.size != p.f.tag { return; }
      if IsPointer(p) && !slot.vals[0].Block? {
        FreeBlock(slot.vals[0]);
        return PSlot(if p.f.htype.Repeated? then 0 else slot.size, [Null]);
      }
      var items := if IsPointer(p) then slot.vals[0].items else slot.vals;
      if p.f.ltype.LSubmessage? {
        var count := 1;
        if p.f.htype.Repeated? {
          count := if FixedCount(p.f) && !IsPointer(p) then p.f.arraySize else slot.size;
          if !IsPointer(p) && count > p.f.arraySize { count := p.f.arraySize; }
        }
        assert forall k :: 0 <= k < |items| ==> TidyEntry(types, Any, p, items[k]);
        var items' := ReleaseItems(types, p.sub, items, count);
        if !IsPointer(p) { slot' := PSlot(slot.size, items'); }
      }
      if IsPointer(p) {
        if PointerEntries(p) { FreeItems(items, slot.size); }
        FreeBlock(slot.vals[0]);
        slot' := PSlot(if p.f.htype.Repeated? then 0 else slot.size, [Null]);
      }
    }

    /** pb_release: the fields in descriptor order, each looking at the structure as it is by then. */
    method ReleaseMessage(types: Schema, ty: nat, slots: seq<PSlot>) returns (slots': seq<PSlot>)
      requires SoundSchema(types) && Tidy(types, Any, ty, slots)
      modifies this
      ensures (slots', heap) == Release(types, ty, slots, old(heap))
      decreases slots, |slots|
    {
      hide SoundSchema, Tidy, ReleaseCurrent;
      TidyLength(types, Any, ty, slots);
      slots' := slots;
      var n := 0;
      while n < |slots|
        invariant n <= |slots| && |slots'| == |slots|
        invariant (slots', heap) == ReleaseUpTo(types, ty, slots, n, old(heap))
      {
        var at := Home(Bare(types[ty]), n);
        SlotAtItsTurn(types, ty, slots, n, old(heap));
        FieldIsTidy(types, Any, ty, slots, n);
        var slot := ReleaseSingleField(types, types[ty][n], slots'[at], slots[at]);
        assert Current(types[ty][n], slots[at]) || slots'[at := slot] == slots';
        slots' := slots'[at := slot];
        n := n + 1;
      }
    }
  }

  /** Make room for one more element, taking a guess of what `left` bytes hold when there is none. */
  method MakeRoom(a: Allocator, p: PField, slot: PSlot, reserved: nat, left: nat)
                  returns (ok: bool, v: Val, reserved': nat)
    requires p.f.dataSize > 0 && left > 0 && |slot.vals| == 1 && slot.size <= reserved <= PB_SIZE_MAX
    modifies a
    ensures (ok, v, a.heap) == Grown(p, slot, reserved, old(a.heap), left) &&
            reserved' == Wanted(p, slot.size, reserved, left)
  {
    hide Allocate;
    ok, v, reserved' := true, slot.vals[0], reserved;
    if slot.size + 1 > reserved {
      var remain := (left - 1) / p.f.dataSize + 1;
      if remain < PB_SIZE_MAX - reserved {
        reserved' := reserved + remain;
      } else {
        reserved' := reserved + 1;
      }
      ok, v := a.AllocateField(v, p.f.dataSize, reserved');
    }
  }

  /** A successful turn leaves a block and a capacity above the count. */
  lemma Room(p: PField, slot: PSlot, reserved: nat, h: Heap, left: nat)
    requires p.f.dataSize > 0 && left > 0 && |slot.vals| == 1 && slot.size < PB_SIZE_MAX
    requires slot.size <= reserved <= PB_SIZE_MAX && (slot.size < reserved ==> slot.vals[0].Block?)
    ensures slot.size < Wanted(p, slot.size, reserved, left) <= PB_SIZE_MAX
    ensures Grown(p, slot, reserved, h, left).0 ==> Grown(p, slot, reserved, h, left).1.Block?
  {
  }

  /** The growth loop of a packed pointer array, run on the substream of the record. */
  method DecodePackedPointers(a: Allocator, stream: InputStream, p: PField, slot: PSlot)
                              returns (ok: bool, slot': PSlot)
    requires stream.Valid() && Packable(p.f) && IsPointer(p) && p.f.htype.Repeated? && p.f.dataSize > 0
    requires |slot.vals| == 1 && slot.size <= PB_SIZE_MAX
    modifies a, stream
    ensures stream.Valid()
    ensures var r := DecHeapPacked(p, slot, slot.size, old(a.heap), old(stream.Rest()));
            ok == r.ok && slot' == r.v && a.heap == r.heap && (ok ==> stream.Rest() == r.rest)
  {
    hide Allocate, Grown, Wanted, Append, DecLeaf;
    var reserved: nat := slot.size;
    slot' := slot;
    while stream.bytesLeft > 0
      invariant stream.Valid() && |slot'.vals| == 1 && slot'.size <= reserved <= PB_SIZE_MAX
      invariant slot'.size < reserved ==> slot'.vals[0].Block?
      invariant DecHeapPacked(p, slot', reserved, a.heap, stream.Rest())
             == DecHeapPacked(p, slot, slot.size, old(a.heap), old(stream.Rest()))
      decreases stream.bytesLeft
    {
      if slot'.size == PB_SIZE_MAX {
        return false, slot';
      }
      Room(p, slot', reserved, a.heap, stream.bytesLeft);
      assert |stream.Rest()| == stream.bytesLeft;
      var v: Val;
      ok, v, reserved := MakeRoom(a, p, slot', reserved, stream.bytesLeft);
      slot' := PSlot(slot'.size, [v]);
      if !ok { return; }
      var d: Datum;
      ok, d := Decoder.DecodeLeaf(stream, p.f, ZeroDatum(p.f));
      if !ok { return; }
      AppendedBlock(v, p.f.dataSize, a.heap);
      var (v', h) := Append(v, Plain, p.f.dataSize, a.heap);
      a.heap := h;
      slot' := PSlot(slot'.size + 1, [v']);
    }
    ok := true;
  }

  lemma AppendedBlock(v: Val, dataSize: nat, h: Heap)
    requires v.Block?
    ensures Append(v, Plain, dataSize, h).0 == v.(items := v.items + [Plain])
  {
  }

  /** Releasing the fields before n never changes a which_ tag. */
  lemma {:induction false} TagsStay(types: Schema, ty: nat, slots: seq<PSlot>, n: nat, h: Heap, at: nat)
    requires ty < |types| && |slots| == |types[ty]| && n <= |slots| && at < |slots| && types[ty][at].f.htype.Oneof?
    ensures ReleaseUpTo(types, ty, slots, n, h).0[at].size == slots[at].size
  {
    hide ReleaseCurrent, Bare, Current;
    if n > 0 {
      TagsStay(types, ty, slots, n - 1, h, at);
      var fields := Bare(types[ty]);
      assert fields[n - 1] == types[ty][n - 1].f && fields[at] == types[ty][at].f;
      if Home(fields, n - 1) == at {
        TagStays(types, types[ty][n - 1], slots[at], ReleaseUpTo(types, ty, slots, n - 1, h).1);
      }
    }
  }

  lemma TagStays(types: Schema, p: PField, slot: PSlot, h: Heap)
    requires p.f.htype.Oneof?
    ensures ReleaseCurrent(types, p, slot, h).0.size == slot.size
  {
    hide ReleaseEntries, FreeEntries;
  }

  /** The slot of a current field m is as it was while the fields before n <= m are released. */
  lemma {:induction false} SlotUntouched(types: Schema, ty: nat, slots: seq<PSlot>, n: nat, m: nat, h: Heap)
    requires SoundSchema(types) && Tidy(types, Any, ty, slots) && ty < |types| && |slots| == |types[ty]| &&
             n <= m < |slots|
    requires Current(types[ty][m], slots[Home(Bare(types[ty]), m)])
    ensures ReleaseUpTo(types, ty, slots, n, h).0[Home(Bare(types[ty]), m)] == slots[Home(Bare(types[ty]), m)]
  {
    hide SoundSchema, Tidy, ReleaseCurrent, Bare;
    if n > 0 {
      SlotUntouched(types, ty, slots, n - 1, m, h);
      if Home(Bare(types[ty]), n - 1) == Home(Bare(types[ty]), m) { OtherMember(types, Any, ty, slots, n - 1, m); }
    }
  }

  /** When the turn of field n comes, its slot is as it was or no longer concerns it. */
  lemma SlotAtItsTurn(types: Schema, ty: nat, slots: seq<PSlot>, n: nat, h: Heap)
    requires SoundSchema(types) && Tidy(types, Any, ty, slots) && ty < |types| && |slots| == |types[ty]| && n < |slots|
    ensures var at := Home(Bare(types[ty]), n); var slot := ReleaseUpTo(types, ty, slots, n, h).0[at];
            slot == slots[at] || (!Current(types[ty][n], slots[at]) && !Current(types[ty][n], slot))
  {
    hide SoundSchema, Tidy, ReleaseUpTo;
    var fields := Bare(types[ty]);
    var at := Home(fields, n);
    assert fields[n] == types[ty][n].f && fields[at] == types[ty][at].f;
    if Current(types[ty][n], slots[at]) {
      SlotUntouched(types, ty, slots, n, n, h);
    } else {
      TagsStay(types, ty, slots, n, h, at);
    }
  }
}
