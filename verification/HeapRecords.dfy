/** What one record of a pointer field leaves behind: the size of its block and the count of its array. */
module HeapRecords {
  import opened Wire
  import opened Descriptor
  import opened EncodeSpec
  import opened RoundTrip
  import opened HeapDecoder
  import opened HeapAgreement

  /** A string has room for a terminator, a byte array for its four-byte header. */
  predicate HoldsBuffer(p: PField, v: Val, s: bytes) {
    v.Block? && DecVarint32(s).Ok? && v.cap == DecVarint32(s).value + if p.f.ltype.LString? then 1 else 4
  }

  lemma BufferRecord(p: PField, v: Val, h: Heap, s: bytes)
    requires (p.f.ltype.LString? || p.f.ltype.LBytes?) && DecHeapBuffer(p, v, h, s).ok
    ensures HoldsBuffer(p, DecHeapBuffer(p, v, h, s).v, s)
  {
    hide DecVarint32;
    DecVarint32Bound(s);
  }

  /** What an accepted record of a single pointer leaves: a block of the size its contents need. */
  predicate HoldsSingle(p: PField, v: Val, s: bytes) {
    && v.Block?
    && if p.f.ltype.LString? || p.f.ltype.LBytes? then HoldsBuffer(p, v, s)
       else && v.cap == p.f.dataSize
            && if p.f.ltype.LSubmessage? then |v.items| == 1 && v.items[0].Struct? else v.items == []
  }

  lemma EntryIsStruct(types: Schema, p: PField, v: Val, h: Heap, s: bytes)
    requires p.f.ltype.LSubmessage? && DecHeapEntry(types, p, v, h, s).ok
    ensures DecHeapEntry(types, p, v, h, s).v.Struct?
  {
    hide DecHeapSub;
  }

  lemma TargetRecord(types: Schema, p: PField, v: Val, h: Heap, s: bytes)
    requires DecHeapTarget(types, p, v, h, s).ok
    ensures HoldsSingle(p, DecHeapTarget(types, p, v, h, s).v, s)
  {
    hide DecHeapEntry, FreshEntry, LeafRest, DecHeapBuffer, DecVarint32, TooLarge;
    if p.f.ltype.LString? || p.f.ltype.LBytes? { BufferRecord(p, v, h, s); }
    else if p.f.ltype.LSubmessage? {
      EntryIsStruct(types, p, FreshEntry(types, p), Allocate(v, p.f.dataSize, 1, h).2, s);
    }
  }

  /** A record of a single pointer. */
  lemma SingleRecord(types: Schema, ty: nat, p: PField, wireType: nat, slot: PSlot, got: nat, h: Heap, s: bytes)
    requires ty < |types| && IsPointer(p) && !p.f.htype.Repeated?
    requires DecHeapField(types, ty, p, wireType, slot, got, h, s).ok
    ensures var (slot', got') := DecHeapField(types, ty, p, wireType, slot, got, h, s).v;
            && got' == got && |slot'.vals| == 1 && HoldsSingle(p, slot'.vals[0], s)
            && (p.f.htype.Oneof? ==> slot'.size == p.f.tag)
  {
    hide DecHeapTarget, BeforeSingle, HoldsSingle, ReleaseUnion;
    var (_, slot1, h1) := ReleaseUnion(types, types[ty], p, slot, h);
    assert DecHeapPointer(types, p, wireType, slot1, h1, s) == DecHeapSingle(types, p, slot1, h1, s);
    var (kept, h2) := BeforeSingle(types, p, slot1, h1);
    TargetRecord(types, p, if |kept.vals| == 1 then kept.vals[0] else Null, h2, s);
  }

  /** What an accepted record of one array element leaves: a count and a block that are larger by one, and the
      entries there were. */
  predicate HoldsOneMore(p: PField, slot: PSlot, slot': PSlot, s: bytes) {
    && |slot.vals| == |slot'.vals| == 1 && slot'.vals[0].Block?
    && slot'.size == slot.size + 1 && slot'.vals[0].cap == p.f.dataSize * (slot.size + 1)
    && var before := if slot.vals[0].Block? then slot.vals[0].items else [];
       var items := slot'.vals[0].items;
       && |items| == |before| + 1 && items[..|before|] == before
       && (p.f.ltype.LString? || p.f.ltype.LBytes? ==> HoldsBuffer(p, items[|before|], s))
       && (p.f.ltype.LSubmessage? ==> items[|before|].Struct?)
  }

  lemma AppendRecord(types: Schema, p: PField, slot: PSlot, h: Heap, s: bytes)
    requires IsPointer(p) && p.f.htype.Repeated? && DecHeapAppend(types, p, slot, h, s).ok
    ensures HoldsOneMore(p, slot, DecHeapAppend(types, p, slot, h, s).v, s)
  {
    hide DecHeapEntry, FreshEntry, LeafRest, HoldsBuffer, DecHeapBuffer, TooLarge;
    var (ok, v, h1) := Allocate(slot.vals[0], p.f.dataSize, slot.size + 1, h);
    var (v1, h2) := Append(v, FreshEntry(types, p), p.f.dataSize, h1);
    if PointerEntries(p) { BufferRecord(p, Null, h2, s); }
    else if p.f.ltype.LSubmessage? { EntryIsStruct(types, p, FreshEntry(types, p), h2, s); }
  }

  /** A record of one array element. */
  lemma ElementRecord(types: Schema, ty: nat, p: PField, wireType: nat, slot: PSlot, got: nat, h: Heap, s: bytes)
    requires ty < |types| && IsPointer(p) && p.f.htype.Repeated? && !(wireType == 2 && Packable(p.f))
    requires DecHeapField(types, ty, p, wireType, slot, got, h, s).ok
    ensures var (slot', got') := DecHeapField(types, ty, p, wireType, slot, got, h, s).v;
            got' == got && HoldsOneMore(p, slot, slot', s)
  {
    hide DecHeapAppend, HoldsOneMore;
    assert DecHeapPointer(types, p, wireType, slot, h, s) == DecHeapAppend(types, p, slot, h, s);
    AppendRecord(types, p, slot, h, s);
  }

  // ---------------------------------------------------------------- packed records

  /** Numbers of fixed width. */
  predicate FixedWidth(p: PField) {
    (p.f.ltype.LFixed32? && p.f.dataSize == 4) || (p.f.ltype.LFixed64? && p.f.dataSize == 8)
  }

  /** As long as the block has room, nothing is allocated. */
  lemma {:induction false} ReadsInto(p: PField, slot: PSlot, reserved: nat, h: Heap, n: nat, s: bytes)
    requires FixedWidth(p) && |s| == n * p.f.dataSize
    requires |slot.vals| == 1 && slot.vals[0].Block? && slot.size + n <= reserved <= PB_SIZE_MAX
    ensures var r := DecHeapPacked(p, slot, reserved, h, s);
            && r.ok && r.v.size == slot.size + n && r.heap.next == h.next
            && |r.v.vals| == 1 && r.v.vals[0].Block? && r.v.vals[0].cap == slot.vals[0].cap
    decreases n
  {
    hide LeafRest, Allocate;
    if n > 0 {
      FixedLeaf(p, n, s);
      var (v, h1) := Append(slot.vals[0], Plain, p.f.dataSize, h);
      ReadsInto(p, PSlot(slot.size + 1, [v]), reserved, h1, n - 1, LeafRest(p.f, s).rest);
    }
  }

  lemma FixedLeaf(p: PField, n: nat, s: bytes)
    requires FixedWidth(p) && |s| == n * p.f.dataSize && n > 0
    ensures |s| >= p.f.dataSize && LeafRest(p.f, s) == Ok((), s[p.f.dataSize..])
    ensures |s[p.f.dataSize..]| == (n - 1) * p.f.dataSize
  {
  }

  /** A packed record of n numbers of fixed width makes a fresh pointer array with one allocation of exactly the size
      of the record. */
  lemma PackedOnce(types: Schema, ty: nat, p: PField, got: nat, h: Heap, n: nat, body: bytes, t: bytes)
    requires ty < |types| && IsPointer(p) && p.f.htype.Repeated? && FixedWidth(p) && h.grants == []
    requires |body| == n * p.f.dataSize && 0 < n < PB_SIZE_MAX && |body| < TWO32
    ensures var r := DecHeapField(types, ty, p, 2, PSlot(0, [Null]), got, h, EncDelimited(body) + t);
            && r.ok && r.rest == t && r.v.1 == got && r.heap.next == h.next + 1
            && r.v.0.size == n && |r.v.0.vals| == 1 && r.v.0.vals[0].Block? && r.v.0.vals[0].cap == |body|
  {
    hide DecHeapPacked, EncVarint, DecVarint32;
    DelimitedPrefix(body, t);
    var s := EncDelimited(body) + t;
    assert TakeDelimited(s) == Ok(body, t);
    assert DecHeapPointer(types, p, 2, PSlot(0, [Null]), h, s).v == DecHeapPacked(p, PSlot(0, [Null]), 0, h, body).v;
    FirstOfPacked(p, h, n, body);
  }

  lemma FirstOfPacked(p: PField, h: Heap, n: nat, body: bytes)
    requires FixedWidth(p) && h.grants == [] && |body| == n * p.f.dataSize && 0 < n < PB_SIZE_MAX
    ensures var r := DecHeapPacked(p, PSlot(0, [Null]), 0, h, body);
            && r.ok && r.v.size == n && r.heap.next == h.next + 1
            && |r.v.vals| == 1 && r.v.vals[0].Block? && r.v.vals[0].cap == |body|
  {
    hide TooLarge, LeafRest, Wanted;
    WantsAll(p, n, |body|);
    Granted(Null, p.f.dataSize, n, h);
    FixedLeaf(p, n, body);
    var (ok, v, h1) := Allocate(Null, p.f.dataSize, n, h);
    var (v', h2) := Append(v, Plain, p.f.dataSize, h1);
    ReadsInto(p, PSlot(1, [v']), n, h2, n - 1, body[p.f.dataSize..]);
  }

  lemma WantsAll(p: PField, n: nat, left: nat)
    requires FixedWidth(p) && left == n * p.f.dataSize && 0 < n < PB_SIZE_MAX
    ensures Wanted(p, 0, 0, left) == n
  {
  }
}
