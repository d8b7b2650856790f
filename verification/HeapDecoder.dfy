/** The decoder with dynamic allocation, reduced to what decides ownership: which heap blocks a structure
    refers to, which calls allocate, reallocate and free, and what is left in the structure when a call
    fails. Message types are entries of a table, so that pointer fields may refer to recursive types. */
module HeapDecoder {
  import opened Wire
  import opened Descriptor
  import opened Options
  import opened DecodeSpec

  /** A field and, for submessages, the index of its message type in the schema. */
  datatype PField = PField(f: Field, sub: nat)

  type Schema = seq<seq<PField>>

  /** Plain: a scalar or string in place. Null, Block and Wild: a pointer; cap is the size of the block in bytes
      and items are the entries stored in it. A wild pointer had part of its bytes overwritten. */
  datatype Val = Plain | Struct(slots: seq<PSlot>) | Null | Block(id: nat, cap: nat, items: seq<Val>) | Wild

  /** A member: its count or which_ tag (when it has one) and its entries. */
  datatype PSlot = PSlot(size: nat, vals: seq<Val>)

  /** live: blocks handed out and not freed, each under a new identity. grants: the outcomes of the coming
      realloc calls, all later ones succeed. lost: blocks whose pointers default initialisation overwrote; it
      only serves the account. bad: a block was freed that was not live, a wild pointer was freed or reallocated,
      or an entry was written outside its block. */
  datatype Heap = Heap(live: multiset<nat>, next: nat, grants: seq<bool>, lost: multiset<nat>, bad: bool)

  /** What no step takes back: lost blocks stay lost, harm done stays done, and when all requests are granted
      they go on being. */
  predicate Follows(before: Heap, after: Heap) {
    before.lost <= after.lost && (before.bad ==> after.bad) && (before.grants == [] ==> after.grants == [])
  }

  /** Every step returns the structure and the heap, also when it fails. */
  datatype Out<T> = Out(ok: bool, v: T, heap: Heap, rest: bytes)

  const SIZE_MAX: int := TWO64 - 1
  const HALF_WIDTH: int := TWO32

  function Bare(t: seq<PField>): (fields: seq<Field>)
    ensures |fields| == |t| && forall i :: 0 <= i < |t| ==> fields[i] == t[i].f
  {
    seq(|t|, i requires 0 <= i < |t| => t[i].f)
  }

  predicate IsPointer(p: PField) {
    p.f.atype.Pointer?
  }

  /** Entries that are pointers themselves: repeated strings and byte arrays. */
  predicate PointerEntries(p: PField) {
    IsPointer(p) && p.f.htype.Repeated? && (p.f.ltype.LString? || p.f.ltype.LBytes?)
  }

  // ---------------------------------------------------------------- zeroed and default structures

  function BlankEntry(types: Schema, ty: nat, p: PField): Val
    requires ty < |types|
    decreases ty, 0
  {
    if p.f.ltype.LSubmessage? && p.sub < ty then Struct(Blank(types, p.sub)) else Plain
  }

  function BlankSlot(types: Schema, ty: nat, i: nat): PSlot
    requires ty < |types| && i < |types[ty]|
    decreases ty, 1
  {
    var p := types[ty][i];
    if InsideUnion(Bare(types[ty]), i) then PSlot(0, [])
    else if IsPointer(p) || p.f.htype.Oneof? then PSlot(0, [Null])
    else if p.f.htype.Repeated? then PSlot(0, seq(p.f.arraySize, _ => BlankEntry(types, ty, p)))
    else PSlot(0, [BlankEntry(types, ty, p)])
  }

  /** A structure of the given type after memset to zero. */
  function Blank(types: Schema, ty: nat): (slots: seq<PSlot>)
    requires ty < |types|
    ensures |slots| == |types[ty]|
    decreases ty, 2
  {
    seq(|types[ty]|, i requires 0 <= i < |types[ty]| => BlankSlot(types, ty, i))
  }

  /** The first c bytes of a member are cleared. */
  function WipedVal(types: Schema, ty: nat, p: PField, v: Val, c: int): Val
    decreases ty, 0
  {
    if c > 0 && p.f.ltype.LSubmessage? && p.sub < ty && v.Struct? then Struct(WipedSlots(types, p.sub, v.slots, c))
        else v
  }

  function WipedVals(types: Schema, ty: nat, p: PField, vals: seq<Val>, c: int): (r: seq<Val>)
    ensures |r| == |vals|
    decreases ty, 1
  {
    seq(|vals|, k requires 0 <= k < |vals| => WipedVal(types, ty, p, vals[k], c - k * p.f.dataSize))
  }

  /** Cleared are the first `data` bytes of the contents, and of what lies from the companion on the first `size`
      bytes. A pointer that loses bytes is wild; entries behind a count that is cleared are out of reach. */
  function WipedPSlot(types: Schema, ty: nat, p: PField, prev: PSlot, data: int, size: int): PSlot
    decreases ty, 2
  {
    match p.f.htype
    case Oneof => if size > 0 then PSlot(0, [Null]) else prev
    case Repeated =>
      if IsPointer(p) then
        if size > 0 then
          PSlot(0, if |prev.vals| == 1 && prev.vals[0].Block? then [prev.vals[0].(items := [])] else prev.vals)
        else prev
      else if FixedCount(p.f) then PSlot(prev.size, WipedVals(types, ty, p, prev.vals, data))
      else PSlot(if size > 0 then 0 else prev.size, prev.vals)
    case _ =>
      if IsPointer(p) then if data > 0 && |prev.vals| == 1 && prev.vals[0].Block? then PSlot(prev.size, [Wild])
          else prev
      else PSlot(prev.size, WipedVals(types, ty, p, prev.vals, data))
  }

  /** A structure after its first c bytes were set to zero. */
  function WipedSlots(types: Schema, ty: nat, slots: seq<PSlot>, c: int): (r: seq<PSlot>)
    ensures |r| == |slots|
    decreases ty, 3
  {
    if ty >= |types| || |slots| != |types[ty]| then slots
    else
      var fields := Bare(types[ty]);
      seq(|slots|, i requires 0 <= i < |slots| =>
            if InsideUnion(fields, i) then slots[i]
            else WipedPSlot(types, ty, types[ty][i], slots[i], c - DataOffset(fields, i), c - SizeOffset(fields, i)))
  }

  function DefaultPSlot(types: Schema, ty: nat, i: nat, prev: PSlot): PSlot
    requires ty < |types| && i < |types[ty]|
    decreases ty, 4
  {
    var p := types[ty][i];
    if InsideUnion(Bare(types[ty]), i) then prev
    else if IsPointer(p) || p.f.htype.Oneof? then PSlot(0, [Null])
    else if p.f.htype.Repeated? then
      PSlot(0, if FixedCount(p.f) then WipedVals(types, ty, p, prev.vals, COUNT_BYTES) else prev.vals)
    else if p.f.ltype.LSubmessage? && p.sub < ty && |prev.vals| == 1 && prev.vals[0].Struct? then
      PSlot(0, [Struct(Defaults(types, p.sub, prev.vals[0].slots))])
    else PSlot(0, prev.vals)
  }

  /** pb_message_set_to_defaults: pointers become NULL, counts and which_ become 0. Array entries and the
      contents of a union no member of which is current are not touched; the latter are dead memory. The zero
      count of an array without a count of its own is stored over the beginning of its entries. */
  function Defaults(types: Schema, ty: nat, prev: seq<PSlot>): (slots: seq<PSlot>)
    requires ty < |types|
    ensures |slots| == |prev|
    decreases ty, 5
  {
    if |prev| != |types[ty]| then prev
    else seq(|prev|, i requires 0 <= i < |prev| => DefaultPSlot(types, ty, i, prev[i]))
  }

  predicate Current(p: PField, slot: PSlot) {
    p.f.htype.Oneof? ==> slot.size == p.f.tag
  }

  function Smaller(a: nat, b: nat): nat {
    if a < b then a else b
  }

  // ---------------------------------------------------------------- owned blocks

  function OwnedEntries(types: Schema, every: bool, ty: nat, vals: seq<Val>, n: nat): multiset<nat>
    decreases vals, n
  {
    if n == 0 || n > |vals| then multiset{}
    else OwnedEntries(types, every, ty, vals, n - 1) +
         if vals[n - 1].Struct? then Owned(types, every, ty, vals[n - 1].slots) else multiset{}
  }

  function EntryIds(vals: seq<Val>, n: nat): multiset<nat> {
    if n == 0 || n > |vals| then multiset{}
    else EntryIds(vals, n - 1) + if vals[n - 1].Block? then multiset{vals[n - 1].id} else multiset{}
  }

  /** How many entries of a field in place count: those that are part of the value, or every one. */
  function InPlace(p: PField, slot: PSlot, every: bool): nat {
    if every then |slot.vals|
    else if !p.f.htype.Repeated? then 1
    else if FixedCount(p.f) then p.f.arraySize
    else Smaller(slot.size, p.f.arraySize)   // protects against a corrupted count
  }

  /** What the first n entries of an array own. */
  function OwnedItems(types: Schema, every: bool, p: PField, vals: seq<Val>, n: nat): multiset<nat>
    decreases vals, n + 1
  {
    if p.f.ltype.LSubmessage? then OwnedEntries(types, every, p.sub, vals, n)
    else if PointerEntries(p) then EntryIds(vals, n)
    else multiset{}
  }

  function ItemOwned(types: Schema, every: bool, p: PField, v: Val): multiset<nat>
    decreases v
  {
    if p.f.ltype.LSubmessage? then if v.Struct? then Owned(types, every, p.sub, v.slots) else multiset{}
    else if PointerEntries(p) && v.Block? then multiset{v.id}
    else multiset{}
  }

  /** The blocks reachable through one field, read as the current one. */
  function OwnedCurrent(types: Schema, every: bool, p: PField, slot: PSlot): multiset<nat>
    decreases slot
  {
    if !IsPointer(p) then OwnedItems(types, every, p, slot.vals, InPlace(p, slot, every))
    else if |slot.vals| != 1 || !slot.vals[0].Block? then multiset{}
    else
      var v := slot.vals[0];
      multiset{v.id} + OwnedItems(types, every, p, v.items, if p.f.htype.Repeated? then slot.size else 1)
  }

  function OwnedUpTo(types: Schema, every: bool, ty: nat, slots: seq<PSlot>, n: nat): multiset<nat>
    requires ty < |types| && |slots| == |types[ty]| && n <= |slots|
    decreases slots, n
  {
    if n == 0 then multiset{}
    else
      var slot := slots[Home(Bare(types[ty]), n - 1)];
      OwnedUpTo(types, every, ty, slots, n - 1) +
      if Current(types[ty][n - 1], slot) then OwnedCurrent(types, every, types[ty][n - 1], slot) else multiset{}
  }

  /** The blocks a structure refers to: reachable through what is current in it, or also from array entries
      behind the count, whose memory still holds what earlier messages left there. */
  function Owned(types: Schema, every: bool, ty: nat, slots: seq<PSlot>): multiset<nat>
    decreases slots, |slots| + 1
  {
    if ty >= |types| || |slots| != |types[ty]| then multiset{} else OwnedUpTo(types, every, ty, slots, |slots|)
  }

  // ---------------------------------------------------------------- allocation

  /** allocate_field's overflow test: the division is avoided while both factors fit in half the width. */
  predicate TooLarge(dataSize: nat, count: nat)
    requires count > 0
  {
    (dataSize >= HALF_WIDTH || count >= HALF_WIDTH) && SIZE_MAX / count < dataSize
  }

  function Free(v: Val, heap: Heap): (h: Heap)
    ensures h.lost == heap.lost && h.grants == heap.grants && h.next == heap.next && (heap.bad ==> h.bad)
  {
    if v.Block? then heap.(live := heap.live - multiset{v.id}, bad := heap.bad || v.id !in heap.live)
    else if v.Wild? then heap.(bad := true)
    else heap
  }

  /** allocate_field: realloc the block the pointer refers to; on failure the pointer stays as it is. */
  function Allocate(v: Val, dataSize: nat, count: nat, heap: Heap): (r: (bool, Val, Heap))
    ensures r.2.lost == heap.lost && Follows(heap, r.2)
  {
    if dataSize == 0 || count == 0 || TooLarge(dataSize, count) then (false, v, heap)
    else
      var granted := heap.grants == [] || heap.grants[0];
      var h := heap.(grants := if heap.grants == [] then [] else heap.grants[1..]);
      if !granted then (false, v, h.(bad := h.bad || v.Wild?))
      else
        var h1 := Free(v, h);
        (true, Block(h.next, dataSize * count, if v.Block? then v.items else []),
         h1.(live := h1.live + multiset{h.next}, next := h.next + 1))
  }

  // ---------------------------------------------------------------- release

  /** Release what the first n entries contain. */
  function ReleaseEntries(types: Schema, ty: nat, vals: seq<Val>, n: nat, heap: Heap): (r: (seq<Val>, Heap))
    ensures |r.0| == |vals|
    ensures r.1.lost == heap.lost && r.1.grants == heap.grants && (heap.bad ==> r.1.bad)
    decreases vals, n
  {
    if n == 0 || n > |vals| then (vals, heap)
    else
      var (vs, h) := ReleaseEntries(types, ty, vals, n - 1, heap);
      var v := vals[n - 1];
      if v.Struct? then
        var (slots, h1) := Release(types, ty, v.slots, h);
        (vs[n - 1 := Struct(slots)], h1)
      else (vs, h)
  }

  function FreeEntries(vals: seq<Val>, n: nat, heap: Heap): (h: Heap)
    ensures h.lost == heap.lost && h.grants == heap.grants && (heap.bad ==> h.bad)
  {
    if n == 0 || n > |vals| then heap else Free(vals[n - 1], FreeEntries(vals, n - 1, heap))
  }

  /** pb_release_single_field on a field that is current (any field but an unchosen oneof member). */
  function ReleaseCurrent(types: Schema, p: PField, slot: PSlot, heap: Heap): (r: (PSlot, Heap))
    ensures r.1.lost == heap.lost && r.1.grants == heap.grants && (heap.bad ==> r.1.bad)
    decreases slot
  {
    if !IsPointer(p) then
      if !p.f.ltype.LSubmessage? then (slot, heap)
      else
        var (vals, h) := ReleaseEntries(types, p.sub, slot.vals, InPlace(p, slot, false), heap);
        (PSlot(slot.size, vals), h)
    else
      var size := if p.f.htype.Repeated? then 0 else slot.size;
      if |slot.vals| != 1 then (PSlot(size, [Null]), heap)
      else if !slot.vals[0].Block? then (PSlot(size, [Null]), Free(slot.vals[0], heap))
      else
        var v := slot.vals[0];
        var n := if p.f.htype.Repeated? then slot.size else 1;
        var h := if p.f.ltype.LSubmessage? then ReleaseEntries(types, p.sub, v.items, n, heap).1
                 else if PointerEntries(p) then FreeEntries(v.items, n, heap)
                 else heap;
        (PSlot(size, [Null]), Free(v, h))
  }

  /** The fields before n in descriptor order. A slot shared by a oneof is released by its current member. */
  function ReleaseUpTo(types: Schema, ty: nat, slots: seq<PSlot>, n: nat, heap: Heap): (r: (seq<PSlot>, Heap))
    requires ty < |types| && |slots| == |types[ty]| && n <= |slots|
    ensures |r.0| == |slots|
    ensures r.1.lost == heap.lost && r.1.grants == heap.grants && (heap.bad ==> r.1.bad)
    decreases slots, n
  {
    if n == 0 then (slots, heap)
    else
      var (s, h) := ReleaseUpTo(types, ty, slots, n - 1, heap);
      var at := Home(Bare(types[ty]), n - 1);
      if Current(types[ty][n - 1], slots[at]) then
        var (slot, h1) := ReleaseCurrent(types, types[ty][n - 1], slots[at], h);
        (s[at := slot], h1)
      else (s, h)
  }

  /** pb_release. */
  function Release(types: Schema, ty: nat, slots: seq<PSlot>, heap: Heap): (r: (seq<PSlot>, Heap))
    ensures |r.0| == |slots|
    ensures r.1.lost == heap.lost && r.1.grants == heap.grants && (heap.bad ==> r.1.bad)
    decreases slots, |slots| + 1
  {
    if ty >= |types| || |slots| != |types[ty]| then (slots, heap) else ReleaseUpTo(types, ty, slots, |slots|, heap)
  }

  // ---------------------------------------------------------------- decoding

  /** A non-message entry stored in place: only success and consumption matter here. */
  function LeafRest(f: Field, s: bytes): (r: Res<()>)
    ensures r.Ok? ==> |r.rest| < |s|
  {
    match DecLeaf(f, ZeroDatum(f), s)
    case Err => Err
    case Ok(_, rest) => Ok((), rest)
  }

  /** The bytes to allocate; for a string the sum is computed in 32 bits. */
  function BufferSize(p: PField, size: nat): nat {
    if p.f.ltype.LString? then (size + 1) % TWO32 else size + BYTES_OFFSET
  }

  /** pb_dec_string and pb_dec_bytes on a pointer: the length must be available before memory is taken. */
  function DecHeapBuffer(p: PField, v: Val, heap: Heap, s: bytes): (r: Out<Val>)
    ensures r.ok ==> |r.rest| < |s|
    ensures Follows(heap, r.heap)
  {
    match DecVarint32(s)
    case Err => Out(false, v, heap, s)
    case Ok(size, t) =>
      var allocSize := BufferSize(p, size);
      if allocSize < size || |t| < size then Out(false, v, heap, t)
      else
        var (ok, v', h) := Allocate(v, allocSize, 1, heap);
        if !ok then Out(false, v', h, t) else Out(true, v', h, t[size..])
  }

  /** A structure of type p.sub inside a length-delimited substream; array entries start from defaults. */
  function DecHeapSub(types: Schema, p: PField, slots: seq<PSlot>, heap: Heap, s: bytes): (r: Out<seq<PSlot>>)
    ensures r.ok ==> |r.rest| < |s|
    ensures Follows(heap, r.heap)
    decreases |s|, 0
  {
    if p.sub >= |types| then Out(false, slots, heap, s)
    else match TakeDelimited(s)
      case Err => Out(false, slots, heap, s)
      case Ok(body, rest) =>
        var r := if p.f.htype.Repeated? then HeapDecode(types, p.sub, slots, heap, body)
                 else HeapDecodeNoinit(types, p.sub, slots, heap, body);
        Out(r.ok, r.v, r.heap, rest)
  }

  /** One entry in place: a structure or a leaf. */
  function DecHeapEntry(types: Schema, p: PField, v: Val, heap: Heap, s: bytes): (r: Out<Val>)
    ensures r.ok ==> |r.rest| < |s|
    ensures Follows(heap, r.heap)
    decreases |s|, 1
  {
    if p.f.ltype.LSubmessage? then
      if !v.Struct? then Out(false, v, heap, s)
      else
        var r := DecHeapSub(types, p, v.slots, heap, s);
        Out(r.ok, Struct(r.v), r.heap, r.rest)
    else
      match LeafRest(p.f, s)
      case Err => Out(false, v, heap, s)
      case Ok(_, rest) => Out(true, v, heap, rest)
  }

  /** decode_static_field; got stands in for a missing count. */
  function DecHeapStatic(types: Schema, ty: nat, p: PField, wireType: nat, slot: PSlot, got: nat, heap: Heap, s: bytes)
    : (r: Out<(PSlot, nat)>)
    requires ty < |types|
    ensures r.ok ==> |r.rest| < |s|
    ensures Follows(heap, r.heap)
    decreases |s|, 2
  {
    match p.f.htype
    case Repeated =>
      var n := if FixedCount(p.f) then got else slot.size;
      if wireType == WT_STRING && Packable(p.f) then
        (match TakeDelimited(s)
         case Err => Out(false, (slot, got), heap, s)
         case Ok(body, rest) =>
           match DecPacked(p.f, seq(p.f.arraySize, _ => ZeroDatum(p.f)), n, body)
           case None => Out(false, (slot, got), heap, rest)
           case Some((_, n')) => Out(true, if FixedCount(p.f) then (slot, n')
               else (slot.(size := n'), got), heap, rest))
      else
        // the count is advanced before the check, so it may end up one too large
        var slot1 := if FixedCount(p.f) then slot else slot.(size := n + 1);
        if n >= p.f.arraySize || n >= |slot.vals| then Out(false, (slot1, n + 1), heap, s)
        else
          var r := DecHeapEntry(types, p, slot.vals[n], heap, s);
          Out(r.ok, (slot1.(vals := slot.vals[n := r.v]), if FixedCount(p.f) then n + 1 else got), r.heap, r.rest)
    case Oneof =>
      var v := if p.f.ltype.LSubmessage? then
                 (if slot.size != p.f.tag || |slot.vals| != 1 then
                    (if p.sub < ty then Struct(Defaults(types, p.sub, Blank(types, p.sub))) else Plain)
                  else slot.vals[0])
               else Plain;
      var r := DecHeapEntry(types, p, v, heap, s);
      Out(r.ok, (PSlot(p.f.tag, [r.v]), got), r.heap, r.rest)
    case _ =>
      if |slot.vals| != 1 then Out(false, (slot, got), heap, s)
      else
        var r := DecHeapEntry(types, p, slot.vals[0], heap, s);
        Out(r.ok, (slot.(vals := [r.v]), got), r.heap, r.rest)
  }

  /** initialize_pointer_field: a fresh entry is NULL, a default structure, or a leaf. */
  function FreshEntry(types: Schema, p: PField): Val {
    if PointerEntries(p) then Null
    else if p.f.ltype.LSubmessage? && p.sub < |types| then Struct(Defaults(types, p.sub, Blank(types, p.sub)))
    else Plain
  }

  /** Write entry number |items| of a block. */
  function Append(v: Val, entry: Val, dataSize: nat, heap: Heap): (r: (Val, Heap))
    requires v.Block?
    ensures Follows(heap, r.1)
  {
    (v.(items := v.items + [entry]), heap.(bad := heap.bad || v.cap < dataSize * (|v.items| + 1)))
  }

  /** The capacity the growth loop aims for when it has `left` bytes to go: what it has, or a guess of the
      number of remaining entries, the division rounded upwards, or one more. */
  function Wanted(p: PField, size: nat, reserved: nat, left: nat): nat
    requires p.f.dataSize > 0 && left > 0
  {
    var remain := (left - 1) / p.f.dataSize + 1;
    if size + 1 <= reserved then reserved
    else if remain < PB_SIZE_MAX - reserved then reserved + remain
    else reserved + 1
  }

  function Grown(p: PField, slot: PSlot, reserved: nat, heap: Heap, left: nat): (r: (bool, Val, Heap))
    requires p.f.dataSize > 0 && left > 0 && |slot.vals| == 1
    ensures Follows(heap, r.2)
  {
    if slot.size + 1 <= reserved then (true, slot.vals[0], heap)
    else Allocate(slot.vals[0], p.f.dataSize, Wanted(p, slot.size, reserved, left), heap)
  }

  /** The growth loop of a packed pointer array. `reserved` is what the loop takes the capacity to be. */
  function DecHeapPacked(p: PField, slot: PSlot, reserved: nat, heap: Heap, s: bytes): (r: Out<PSlot>)
    ensures Follows(heap, r.heap)
    decreases |s|
  {
    if s == [] then Out(true, slot, heap, [])
    else if slot.size == PB_SIZE_MAX || |slot.vals| != 1 || p.f.dataSize == 0 then Out(false, slot, heap, s)
    else
      var (ok, v, h) := Grown(p, slot, reserved, heap, |s|);
      if !ok || !v.Block? then Out(false, PSlot(slot.size, [v]), h, s)
      else
        match LeafRest(p.f, s)
        case Err => Out(false, PSlot(slot.size, [v]), h, s)
        case Ok(_, rest) =>
          var (v', h') := Append(v, Plain, p.f.dataSize, h);
          DecHeapPacked(p, PSlot(slot.size + 1, [v']), Wanted(p, slot.size, reserved, |s|), h', rest)
  }

  /** One more entry of a pointer array: grow the block by one, then decode into the new entry. */
  function DecHeapAppend(types: Schema, p: PField, slot: PSlot, heap: Heap, s: bytes): (r: Out<PSlot>)
    ensures r.ok ==> |r.rest| < |s|
    ensures Follows(heap, r.heap)
    decreases |s|, 2
  {
    if slot.size == PB_SIZE_MAX || |slot.vals| != 1 then Out(false, slot, heap, s)
    else
      var (ok, v, h) := Allocate(slot.vals[0], p.f.dataSize, slot.size + 1, heap);
      if !ok || !v.Block? then Out(false, PSlot(slot.size, [v]), h, s)
      else
        var (v1, h1) := Append(v, FreshEntry(types, p), p.f.dataSize, h);
        var k := |v.items|;
        var r := if PointerEntries(p) then DecHeapBuffer(p, Null, h1, s)
            else DecHeapEntry(types, p, FreshEntry(types, p), h1, s);
        Out(r.ok, PSlot(slot.size + 1, [v1.(items := v1.items[k := r.v])]), r.heap, r.rest)
  }

  /** The start of a single pointer field: an old submessage is released, any other block is kept for reuse. */
  function BeforeSingle(types: Schema, p: PField, slot: PSlot, heap: Heap): (r: (PSlot, Heap))
    requires |slot.vals| == 1
    ensures Follows(heap, r.1)
  {
    if p.f.ltype.LSubmessage? && !slot.vals[0].Null? && Current(p, slot) then ReleaseCurrent(types, p, slot, heap)
        else (slot, heap)
  }

  /** Decode into the pointer v, reallocating its block. */
  function DecHeapTarget(types: Schema, p: PField, v: Val, heap: Heap, s: bytes): (r: Out<Val>)
    ensures r.ok ==> |r.rest| < |s|
    ensures Follows(heap, r.heap)
    decreases |s|, 2
  {
    if p.f.ltype.LString? || p.f.ltype.LBytes? then DecHeapBuffer(p, v, heap, s)
    else
      var (ok, v1, h) := Allocate(v, p.f.dataSize, 1, heap);
      if !ok || !v1.Block? then Out(false, v1, h, s)
      else
        var r := DecHeapEntry(types, p, FreshEntry(types, p), h, s);
        Out(r.ok, v1.(items := if p.f.ltype.LSubmessage? then [r.v] else []), r.heap, r.rest)
  }

  /** A single pointer. */
  function DecHeapSingle(types: Schema, p: PField, slot: PSlot, heap: Heap, s: bytes): (r: Out<PSlot>)
    ensures r.ok ==> |r.rest| < |s|
    ensures Follows(heap, r.heap)
    decreases |s|, 3
  {
    if |slot.vals| != 1 then Out(false, slot, heap, s)
    else
      var (kept, h) := BeforeSingle(types, p, slot, heap);
      var r := DecHeapTarget(types, p, if |kept.vals| == 1 then kept.vals[0] else Null, h, s);
      Out(r.ok, PSlot(if p.f.htype.Oneof? then p.f.tag else slot.size, [r.v]), r.heap, r.rest)
  }

  /** decode_pointer_field. */
  function DecHeapPointer(types: Schema, p: PField, wireType: nat, slot: PSlot, heap: Heap, s: bytes): (r: Out<PSlot>)
    ensures r.ok ==> |r.rest| < |s|
    ensures Follows(heap, r.heap)
    decreases |s|, 4
  {
    if !p.f.htype.Repeated? then DecHeapSingle(types, p, slot, heap, s)
    else if wireType == WT_STRING && Packable(p.f) then
      match TakeDelimited(s)
      case Err => Out(false, slot, heap, s)
      case Ok(body, rest) =>
        var r := DecHeapPacked(p, slot, slot.size, heap, body);
        Out(r.ok, r.v, r.heap, rest)
    else DecHeapAppend(types, p, slot, heap, s)
  }

  /** pb_release_union_field: another member's data is released before the new member is decoded. */
  function ReleaseUnion(types: Schema, t: seq<PField>, p: PField, slot: PSlot, heap: Heap): (r: (bool, PSlot, Heap))
    ensures Follows(heap, r.2)
  {
    if !p.f.htype.Oneof? || slot.size == 0 || slot.size == p.f.tag then (true, slot, heap)
    else
      match Find(Bare(t), slot.size)
      case None => (false, slot, heap)
      case Some(j) =>
        var (released, h) := ReleaseCurrent(types, t[j], slot, heap);
        (true, if IsPointer(p) then released.(vals := [Null]) else released, h)
  }

  /** decode_field. */
  function DecHeapField(types: Schema, ty: nat, p: PField, wireType: nat, slot: PSlot, got: nat, heap: Heap, s: bytes)
    : (r: Out<(PSlot, nat)>)
    requires ty < |types|
    ensures r.ok ==> |r.rest| < |s|
    ensures Follows(heap, r.heap)
    decreases |s|, 5
  {
    var (ok, slot1, h) := ReleaseUnion(types, types[ty], p, slot, heap);
    if !ok then Out(false, (slot1, got), h, s)
    else if IsPointer(p) then
      var r := DecHeapPointer(types, p, wireType, slot1, h, s);
      Out(r.ok, (r.v, got), r.heap, r.rest)
    else DecHeapStatic(types, ty, p, wireType, slot1, got, h, s)
  }

  /** The record loop; ctl holds the required fields seen and the fixed-count bookkeeping. */
  function HeapLoop(types: Schema, ty: nat, slots: seq<PSlot>, ctl: State, heap: Heap,
                    s: bytes): (r: (Out<seq<PSlot>>, State))
    requires ty < |types| && |slots| == |types[ty]|
    ensures |r.0.v| == |slots|
    ensures Follows(heap, r.0.heap)
    decreases |s|, 6
  {
    var fields := Bare(types[ty]);
    if s == [] then (Out(true, slots, heap, []), ctl)
    else match DecVarint32(s)
      case Err => (Out(false, slots, heap, s), ctl)
      case Ok(key, rest) =>
        if key == 0 then (Out(true, slots, heap, rest), ctl)
        else match Find(fields, key / 8)
          case None =>
            (match SkipUnknown(fields, key / 8, key % 8, rest)
             case Err => (Out(false, slots, heap, rest), ctl)
             case Ok(_, rest') => HeapLoop(types, ty, slots, ctl, heap, rest'))
          case Some(i) =>
            match StartFixed(fields, ctl, i)
            case None => (Out(false, slots, heap, rest), ctl)
            case Some(c) =>
              var at := Home(fields, i);
              var r := DecHeapField(types, ty, types[ty][i], key % 8, slots[at], c.got, heap, rest);
              var slots' := slots[at := r.v.0];
              if !r.ok then (Out(false, slots', r.heap, r.rest), c)
              else HeapLoop(types, ty, slots', State([], MarkSeen(fields, c.seen, i), c.fixed, r.v.1), r.heap, r.rest)
  }

  /** pb_decode_noinit. */
  function HeapDecodeNoinit(types: Schema, ty: nat, slots: seq<PSlot>, heap: Heap, s: bytes): (r: Out<seq<PSlot>>)
    ensures |r.v| == |slots|
    ensures Follows(heap, r.heap)
    decreases |s|, 7
  {
    if ty >= |types| || |slots| != |types[ty]| then Out(false, slots, heap, s)
    else
      var (r, ctl) := HeapLoop(types, ty, slots, State([], {}, None, 0), heap, s);
      Out(r.ok && Complete(Bare(types[ty]), ctl), r.v, r.heap, r.rest)
  }

  /** pb_decode: defaults, decode, and release everything again when decoding fails. */
  function HeapDecode(types: Schema, ty: nat, slots: seq<PSlot>, heap: Heap, s: bytes): (r: Out<seq<PSlot>>)
    ensures |r.v| == |slots|
    ensures Follows(heap, r.heap)
    decreases |s|, 8
  {
    if ty >= |types| then Out(false, slots, heap, s)
    else
      var start := Defaults(types, ty, slots);
      var forgotten := Owned(types, true, ty, slots) - Owned(types, true, ty, start);
      var r := HeapDecodeNoinit(types, ty, start, heap.(lost := heap.lost + forgotten), s);
      if r.ok then r
      else
        var (released, h) := Release(types, ty, r.v, r.heap);
        Out(false, released, h, r.rest)
  }
}
