/** Decoding keeps the account of heap blocks, record by record. In every run, whatever the schema, nothing is
    freed twice or written out of bounds; for types that cannot lose blocks the live blocks are those of the
    caller plus those the structure owns, for every input, every pattern of realloc failures and every error
    path; and over a destination that held something, for every input that is accepted. */
module HeapSafety {
  import opened Wire
  import opened Descriptor
  import opened Options
  import opened DecodeSpec
  import opened HeapDecoder
  import opened Ownership
  import opened HeapRelease
  import opened HeapShares
  import opened HeapWipes
  import opened HeapDefaults

  /** The live account is only kept by what is accepted. */
  predicate Kept(mode: Mode, ok: bool) {
    mode.Live? ==> ok
  }

  // ---------------------------------------------------------------- delicate arrays

  predicate ClearFrom(types: Schema, mode: Mode, p: PField, vals: seq<Val>, n: nat) {
    forall k :: n <= k < |vals| ==> Idle(types, mode, p, vals[k])
  }

  /** The entries that delicate arrays have not received in this call are idle. */
  predicate FixedClear(types: Schema, mode: Mode, ty: nat, slots: seq<PSlot>, fixed: Option<nat>, got: nat)
    requires ty < |types| && |slots| == |types[ty]|
  {
    forall i :: 0 <= i < |slots| && Delicate(types, mode, ty, i) ==>
      ClearFrom(types, mode, types[ty][i], slots[i].vals, if fixed == Some(i) then got else 0)
  }

  lemma EmptyIsClear(types: Schema, mode: Mode, ty: nat, slots: seq<PSlot>)
    requires SoundSchema(types) && Fits(types, mode, ty) && Tidy(types, mode, ty, slots) &&
             Settable(types, mode, ty, slots)
    ensures ty < |types| && |slots| == |types[ty]| && FixedClear(types, mode, ty, slots, None, 0)
  {
    hide SoundSchema, Tidy, Pointerless, Settable, Fits, Idle, Sturdy;
    TidyLength(types, mode, ty, slots);
    forall i | 0 <= i < |slots| &&
        Delicate(types, mode, ty, i) ensures ClearFrom(types, mode, types[ty][i], slots[i].vals, 0) {
      SchemaField(types, ty, i);
      var p := types[ty][i];
      InMemoryIs(types, ty, i);
      forall k | 0 <= k < |slots[i].vals| ensures Idle(types, mode, p, slots[i].vals[k]) {
        SettableEntry(types, mode, ty, slots, i, k);
        SettableIsIdle(types, mode, p, slots[i].vals[k]);
      }
    }
  }

  /** An embedded structure may be decoded into again: its type has no such array. */
  lemma EmbeddedIsClear(types: Schema, mode: Mode, ty: nat, i: nat, slots: seq<PSlot>)
    requires SoundSchema(types) && Fits(types, mode, ty) && ty < |types| && i < |types[ty]| && Embeds(types[ty][i])
    requires types[ty][i].sub < |types| && |slots| == |types[types[ty][i].sub]|
    ensures FixedClear(types, mode, types[ty][i].sub, slots, None, 0)
  {
    hide ClearFrom, Fits, HoldsPointers, Sturdy;
    FitsHere(types, mode, ty);
    FitsInside(types, mode, ty, i);
    FitsHere(types, mode, types[ty][i].sub);
  }

  /** Only one array can be in progress when one is delicate. */
  lemma StartIsClear(types: Schema, mode: Mode, ty: nat, slots: seq<PSlot>, c: State, i: nat)
    requires Fits(types, mode, ty) && ty < |types| && |slots| == |types[ty]| && i < |slots|
    requires FixedClear(types, mode, ty, slots, c.fixed, c.got) && StartFixed(Bare(types[ty]), c, i).Some?
    requires c.fixed.Some? ==> c.fixed.value < |slots| && FixedCount(types[ty][c.fixed.value].f)
    ensures var d := StartFixed(Bare(types[ty]), c, i).value;
            && FixedClear(types, mode, ty, slots, d.fixed, d.got)
            && (d.fixed.Some? ==> d.fixed.value < |slots| && FixedCount(types[ty][d.fixed.value].f))
            && (FixedCount(types[ty][i].f) ==> d.fixed == Some(i))
  {
    hide ClearFrom, Fits, Sturdy, Pointerless;
    FitsHere(types, mode, ty);
    assert Bare(types[ty])[i] == types[ty][i].f;
    if FixedCount(types[ty][i].f) && c.fixed.Some? && c.fixed.value != i {
      assert !Delicate(types, mode, ty, i) && !Delicate(types, mode, ty, c.fixed.value);
    }
  }

  // ---------------------------------------------------------------- entries

  lemma {:induction false} EntryIdsPrefix(a: seq<Val>, b: seq<Val>, n: nat)
    requires n <= |a| && n <= |b| && forall k :: 0 <= k < n ==> a[k] == b[k]
    ensures EntryIds(a, n) == EntryIds(b, n)
  {
    if n > 0 { EntryIdsPrefix(a, b, n - 1); }
  }

  /** Storing entry n next to n equal ones adds what that entry owns. */
  lemma ItemsExtend(types: Schema, every: bool, p: PField, a: seq<Val>, b: seq<Val>, n: nat)
    requires n <= |a| && n < |b| && forall k :: 0 <= k < n ==> a[k] == b[k]
    ensures OwnedItems(types, every, p, b, n + 1) ==
            OwnedItems(types, every, p, a, n) + ItemOwned(types, every, p, b[n])
  {
    OwnedEntriesPrefix(types, every, p.sub, a, b, n);
    EntryIdsPrefix(a, b, n);
  }

  lemma BufferKeeps(p: PField, v: Val, h: Heap, s: bytes, mode: Mode, others: multiset<nat>)
    requires Pointing(mode, v) && Holds(h, mode, others + Id(v))
    ensures var r := DecHeapBuffer(p, v, h, s);
            && Pointing(mode, r.v) && (r.v.Wild? ==> v.Wild?) && Holds(r.heap, mode, others + Id(r.v))
            && (v.Block? ==> r.v.Block? && r.v.items == v.items) && (!v.Block? && r.v.Block? ==> r.v.items == [])
  {
    hide Holds, Allocate, DecVarint32, Follows, Id;
    match DecVarint32(s)
    case Err =>
    case Ok(size, t) =>
      var allocSize := BufferSize(p, size);
      AllocateKeeps(v, allocSize, 1, h, mode, others);
      var (ok, v', h') := Allocate(v, allocSize, 1, h);
  }

  /** What an entry brings into its decoding: array entries are set to defaults first, so that only the
      account of all memory still counts what they held. */
  function EntryShare(types: Schema, every: bool, p: PField, v: Val): multiset<nat> {
    if p.f.htype.Repeated? && !every then multiset{} else ItemOwned(types, every, p, v)
  }

  /** What decoding into an entry needs beside the account. */
  ghost predicate Ready(types: Schema, mode: Mode, p: PField, v: Val) {
    && !PointerEntries(p) && TidyEntry(types, mode, p, v)
    && (p.f.ltype.LSubmessage? ==>
          && p.sub < |types| && Fits(types, mode, p.sub)
          && v.Struct? && |v.slots| == |types[p.sub]|
          && (if p.f.htype.Repeated? then Settable(types, mode, p.sub, v.slots)
               else FixedClear(types, mode, p.sub, v.slots, None, 0)))
  }

  lemma {:induction false} EntryKeeps(types: Schema, mode: Mode, p: PField, v: Val, h: Heap, s: bytes,
                                      others: multiset<nat>)
    requires SoundSchema(types) && Ready(types, mode, p, v) &&
             Holds(h, mode, others + EntryShare(types, Wide(mode), p, v))
    ensures var r := DecHeapEntry(types, p, v, h, s);
            (Kept(mode, r.ok) ==>
               && TidyEntry(types, mode, p, r.v)
               && Holds(r.heap, mode, others + ItemOwned(types, Wide(mode), p, r.v)))
    decreases |s|, 1
  {
    hide SoundSchema, Tidy, Holds, Owned, HeapDecode, HeapDecodeNoinit, FixedClear, Fits;
    if p.f.ltype.LSubmessage? {
      match TakeDelimited(s)
      case Err =>
      case Ok(body, rest) =>
        if p.f.htype.Repeated? {
          DecodeKeeps(types, mode, p.sub, v.slots, h, body, others);
        } else {
          NoinitKeeps(types, mode, p.sub, v.slots, h, body, others);
        }
    }
  }

  lemma FreshIsReady(types: Schema, mode: Mode, p: PField)
    requires SoundSchema(types) && !PointerEntries(p) &&
             (p.f.ltype.LSubmessage? ==> p.sub < |types| && Fits(types, mode, p.sub))
    ensures Ready(types, mode, p, FreshEntry(types, p))
    ensures forall every: bool :: EntryShare(types, every, p, FreshEntry(types, p)) == multiset{}
    ensures forall every: bool :: ItemOwned(types, every, p, FreshEntry(types, p)) == multiset{}
  {
    hide SoundSchema, Tidy, Owned, Blank, Defaults, FixedClear, Fits;
    FreshIsTidy(types, mode, p);
    if p.f.ltype.LSubmessage? { EmptyIsClear(types, mode, p.sub, FreshEntry(types, p).slots); }
  }

  /** The value decoded into a fresh entry of a pointer array. */
  function DecodedItem(types: Schema, p: PField, h: Heap, s: bytes): Out<Val> {
    if PointerEntries(p) then DecHeapBuffer(p, Null, h, s) else DecHeapEntry(types, p, FreshEntry(types, p), h, s)
  }

  lemma {:induction false} ItemKeeps(types: Schema, mode: Mode, p: PField, h: Heap, s: bytes, others: multiset<nat>)
    requires SoundSchema(types) && (p.f.ltype.LSubmessage? ==> p.sub < |types| && Fits(types, mode, p.sub)) &&
             Holds(h, mode, others)
    ensures var r := DecodedItem(types, p, h, s);
            (Kept(mode, r.ok) ==>
               && TidyEntry(types, mode, p, r.v)
               && Holds(r.heap, mode, others + ItemOwned(types, Wide(mode), p, r.v)))
    decreases |s|, 2
  {
    hide SoundSchema, Tidy, Holds, Owned, DecHeapEntry, DecHeapBuffer, FreshEntry, Ready, EntryShare, Fits;
    assert others + multiset{} == others;
    if PointerEntries(p) {
      BufferKeeps(p, Null, h, s, mode, others);
    } else {
      FreshIsReady(types, mode, p);
      EntryKeeps(types, mode, p, FreshEntry(types, p), h, s, others);
    }
  }

  // ---------------------------------------------------------------- pointer fields

  /** What the pointer of a field leads to, beside the block itself. */
  function Behind(types: Schema, every: bool, p: PField, slot: PSlot): multiset<nat> {
    if |slot.vals| == 1 && slot.vals[0].Block? then
      OwnedItems(types, every, p, slot.vals[0].items, if p.f.htype.Repeated? then slot.size else 1)
    else multiset{}
  }

  lemma PointerOwned(types: Schema, every: bool, p: PField, slot: PSlot, others: multiset<nat>)
    requires IsPointer(p) && |slot.vals| == 1
    ensures others + OwnedCurrent(types, every, p, slot) == others + Behind(types, every, p, slot) + Id(slot.vals[0])
  {
    hide OwnedItems;
  }

  ghost predicate Leadable(types: Schema, mode: Mode, p: PField) {
    p.f.ltype.LSubmessage? ==> p.sub < |types| && Fits(types, mode, p.sub)
  }

  /** A repeated pointer field, one entry at a time: the block is grown first, the new entry lies inside it. */
  lemma {:induction false} AppendKeeps(types: Schema, mode: Mode, p: PField, slot: PSlot, h: Heap, s: bytes,
                                       others: multiset<nat>)
    requires SoundSchema(types) && Leadable(types, mode, p) && IsPointer(p) && p.f.htype.Repeated?
    requires TidyCurrent(types, mode, p, slot) && Holds(h, mode, others + OwnedCurrent(types, Wide(mode), p, slot))
    ensures var r := DecHeapAppend(types, p, slot, h, s);
            (Kept(mode, r.ok) ==>
               && TidyCurrent(types, mode, p, r.v)
               && Holds(r.heap, mode, others + OwnedCurrent(types, Wide(mode), p, r.v)))
    decreases |s|, 4
  {
    hide SoundSchema, Holds, Allocate, OwnedCurrent, Behind, TidyCurrent, DecHeapEntry, DecHeapBuffer, FreshEntry;
    hide Leadable, Follows;
    BlockItems(types, mode, p, slot);
    if slot.size < PB_SIZE_MAX {
      var every := Wide(mode);
      var v0 := slot.vals[0];
      var rest := others + Behind(types, every, p, slot);
      PointerOwned(types, every, p, slot, others);
      AllocateKeeps(v0, p.f.dataSize, slot.size + 1, h, mode, rest);
      var (ok, v, h1) := Allocate(v0, p.f.dataSize, slot.size + 1, h);
      if ok {
        AppendedEntry(types, mode, p, slot, v, h1, s, others);
      } else {
        assert PSlot(slot.size, [v]) == slot;
      }
    }
  }

  lemma {:induction false} AppendedEntry(types: Schema, mode: Mode, p: PField, slot: PSlot, v: Val, h: Heap, s: bytes,
                                         others: multiset<nat>)
    requires SoundSchema(types) && Leadable(types, mode, p) && IsPointer(p) && p.f.htype.Repeated?
    requires TidyCurrent(types, mode, p, slot) && slot.size < PB_SIZE_MAX
    requires v.Block? && v.cap == p.f.dataSize * (slot.size + 1)
    requires v.items == if slot.vals[0].Block? then slot.vals[0].items else []
    requires Holds(h, mode, others + Behind(types, Wide(mode), p, slot) + Id(v))
    ensures var (v1, h1) := Append(v, FreshEntry(types, p), p.f.dataSize, h);
            var r := DecodedItem(types, p, h1, s);
            var slot' := PSlot(slot.size + 1, [v1.(items := v1.items[|v.items| := r.v])]);
            (Kept(mode, r.ok) ==>
               && TidyCurrent(types, mode, p, slot')
               && Holds(r.heap, mode, others + OwnedCurrent(types, Wide(mode), p, slot')))
    decreases |s|, 3
  {
    hide SoundSchema, Holds, OwnedCurrent, Behind, TidyCurrent, TidyEntry, ItemOwned, DecodedItem, FreshEntry, Fits;
    var every := Wide(mode);
    BlockItems(types, mode, p, slot);
    var n := |v.items|;
    var (v1, h1) := Append(v, FreshEntry(types, p), p.f.dataSize, h);
    assert n == slot.size && h1 == h;
    var all := others + Behind(types, every, p, slot) + Id(v);
    ItemKeeps(types, mode, p, h1, s, all);
    var r := DecodedItem(types, p, h1, s);
    assert v1.items[n := r.v] == v.items + [r.v];
    AppendedOwned(types, every, p, slot, v, r.v, others);
    if Kept(mode, r.ok) { AppendedTidy(types, mode, p, slot, v, r.v); }
  }

  lemma BlockItems(types: Schema, mode: Mode, p: PField, slot: PSlot)
    requires IsPointer(p) && p.f.htype.Repeated? && TidyCurrent(types, mode, p, slot)
    ensures |slot.vals| == 1 && (slot.vals[0].Null? || slot.vals[0].Block?)
    ensures slot.size <= PB_SIZE_MAX && slot.size == if slot.vals[0].Block? then |slot.vals[0].items| else 0
  {
    hide TidyEntry;
  }

  lemma AppendedOwned(types: Schema, every: bool, p: PField, slot: PSlot, v: Val, item: Val, others: multiset<nat>)
    requires IsPointer(p) && p.f.htype.Repeated? && |slot.vals| == 1 && v.Block? && |v.items| == slot.size
    requires v.items == if slot.vals[0].Block? then slot.vals[0].items else []
    ensures var slot' := PSlot(slot.size + 1, [v.(items := v.items + [item])]);
            others + OwnedCurrent(types, every, p, slot')
            == others + Behind(types, every, p, slot) + Id(v) + ItemOwned(types, every, p, item)
  {
    hide OwnedCurrent, OwnedItems, ItemOwned;
    var items := v.items + [item];
    var slot' := PSlot(slot.size + 1, [v.(items := items)]);
    ItemsExtend(types, every, p, v.items, items, slot.size);
    assert Behind(types, every, p, slot) == OwnedItems(types, every, p, v.items, slot.size) by {
      if !slot.vals[0].Block? { NothingInEmpty(types, every, p, []); }
    }
    PointerOwned(types, every, p, slot', others);
  }

  lemma AppendedTidy(types: Schema, mode: Mode, p: PField, slot: PSlot, v: Val, item: Val)
    requires IsPointer(p) && p.f.htype.Repeated? && TidyCurrent(types, mode, p, slot) && slot.size < PB_SIZE_MAX
    requires v.Block? && v.cap == p.f.dataSize * (slot.size + 1) && TidyEntry(types, mode, p, item)
    requires |slot.vals| == 1 && v.items == if slot.vals[0].Block? then slot.vals[0].items else []
    ensures TidyCurrent(types, mode, p, PSlot(slot.size + 1, [v.(items := v.items + [item])]))
  {
    hide TidyEntry;
    var items := v.items + [item];
    forall k | 0 <= k < |items| ensures TidyEntry(types, mode, p, items[k]) {
      if k < |v.items| { assert items[k] == v.items[k]; }
    }
  }

  /** The block has room for that many elements. */
  predicate Roomy(p: PField, v: Val, n: nat) {
    if v.Block? then v.cap >= p.f.dataSize * n else n == 0
  }

  /** The growth loop of a packed pointer array: the count stays within PB_SIZE_MAX and every element is
      written inside the block. */
  lemma {:induction false} PackedKeeps(types: Schema, mode: Mode, p: PField, slot: PSlot, reserved: nat, h: Heap,
                                       s: bytes, others: multiset<nat>)
    requires Packable(p.f) && IsPointer(p) && p.f.htype.Repeated? && p.f.dataSize > 0
    requires TidyCurrent(types, mode, p, slot) && slot.size <= reserved <= PB_SIZE_MAX
    requires Roomy(p, slot.vals[0], reserved)
    requires Holds(h, mode, others + Id(slot.vals[0]))
    ensures var r := DecHeapPacked(p, slot, reserved, h, s);
            TidyCurrent(types, mode, p, r.v) && Holds(r.heap, mode, others + Id(r.v.vals[0]))
    decreases |s|
  {
    hide Holds, Allocate, TidyCurrent, Append, LeafRest, Wanted, Grown, Follows, Id, Roomy;
    OnePointer(types, mode, p, slot);
    if s != [] && slot.size != PB_SIZE_MAX {
      var (ok, v, h1) := Grown(p, slot, reserved, h, |s|);
      var wanted := Wanted(p, slot.size, reserved, |s|);
      GrownKeeps(types, mode, p, slot, reserved, h, |s|, others);
      if ok && LeafRest(p.f, s).Ok? {
        var (v', h') := Append(v, Plain, p.f.dataSize, h1);
        AppendInside(types, mode, p, slot.size, v, wanted, h1);
        PackedKeeps(types, mode, p, PSlot(slot.size + 1, [v']), wanted, h', LeafRest(p.f, s).rest, others);
      }
    }
  }

  /** After growing there is room for one more element, and the count stays below the limit. */
  lemma GrownKeeps(types: Schema, mode: Mode, p: PField, slot: PSlot, reserved: nat, h: Heap, left: nat,
                   others: multiset<nat>)
    requires IsPointer(p) && p.f.htype.Repeated? && p.f.dataSize > 0 && left > 0
    requires TidyCurrent(types, mode, p, slot) && slot.size <= reserved <= PB_SIZE_MAX && slot.size < PB_SIZE_MAX
    requires Roomy(p, slot.vals[0], reserved)
    requires Holds(h, mode, others + Id(slot.vals[0]))
    ensures var (ok, v, h1) := Grown(p, slot, reserved, h, left); var wanted := Wanted(p, slot.size, reserved, left);
            && Holds(h1, mode, others + Id(v)) && TidyCurrent(types, mode, p, PSlot(slot.size, [v]))
            && slot.size < wanted <= PB_SIZE_MAX
            && (ok ==> v.Block? && Roomy(p, v, wanted))
  {
    hide Holds, Allocate, TidyCurrent;
    var wanted := Wanted(p, slot.size, reserved, left);
    BlockItems(types, mode, p, slot);
    assert slot == PSlot(slot.size, [slot.vals[0]]);
    assert slot.size < wanted <= PB_SIZE_MAX;
    if slot.size + 1 > reserved {
      AllocateKeeps(slot.vals[0], p.f.dataSize, wanted, h, mode, others);
      var (ok, v, h1) := Allocate(slot.vals[0], p.f.dataSize, wanted, h);
      TidyGrown(types, mode, p, slot, v, wanted);
    }
  }

  lemma OnePointer(types: Schema, mode: Mode, p: PField, slot: PSlot)
    requires IsPointer(p) && TidyCurrent(types, mode, p, slot)
    ensures |slot.vals| == 1
  {
  }

  lemma AppendInside(types: Schema, mode: Mode, p: PField, size: nat, v: Val, wanted: nat, h: Heap)
    requires Packable(p.f) && IsPointer(p) && p.f.htype.Repeated? && size < wanted && size < PB_SIZE_MAX
    requires v.Block? && Roomy(p, v, wanted) && TidyCurrent(types, mode, p, PSlot(size, [v]))
    ensures var (v', h') := Append(v, Plain, p.f.dataSize, h);
            && h' == h && v'.Block? && Id(v') == Id(v) && Roomy(p, v', wanted)
            && TidyCurrent(types, mode, p, PSlot(size + 1, [v']))
  {
    hide TidyEntry;
    RoomForOne(p.f.dataSize, size, wanted, v.cap);
    assert TidyPointer(types, mode, p, size, PSlot(size, [v]).vals[0]);
    TidyLonger(types, mode, p, size, v);
  }

  lemma RoomForOne(size: nat, n: nat, wanted: nat, cap: nat)
    requires n < wanted && cap >= size * wanted
    ensures cap >= size * (n + 1)
  {
    MulMonotone(n + 1, wanted, size);
  }

  lemma TidyLonger(types: Schema, mode: Mode, p: PField, size: nat, v: Val)
    requires Packable(p.f) && IsPointer(p) && p.f.htype.Repeated? && size < PB_SIZE_MAX
    requires v.Block? && v.cap >= p.f.dataSize * (size + 1) && TidyCurrent(types, mode, p, PSlot(size, [v]))
    ensures TidyCurrent(types, mode, p, PSlot(size + 1, [v.(items := v.items + [Plain])]))
  {
    var slot := PSlot(size, [v]);
    assert TidyPointer(types, mode, p, size, slot.vals[0]);
    var items := v.items + [Plain];
    forall k | 0 <= k < |items| ensures TidyEntry(types, mode, p, items[k]) {
      if k < |v.items| { assert TidyEntry(types, mode, p, v.items[k]); }
    }
    var longer := PSlot(size + 1, [v.(items := items)]);
    assert TidyPointer(types, mode, p, size + 1, longer.vals[0]);
  }

  lemma TidyGrown(types: Schema, mode: Mode, p: PField, slot: PSlot, v: Val, wanted: nat)
    requires IsPointer(p) && p.f.htype.Repeated? && TidyCurrent(types, mode, p, slot) && slot.size <= wanted
    requires v == slot.vals[0] ||
             (v.Block? && v.cap >= p.f.dataSize * wanted && v.items
                 == if slot.vals[0].Block? then slot.vals[0].items else [])
    ensures TidyCurrent(types, mode, p, PSlot(slot.size, [v]))
  {
    hide TidyEntry;
    if v != slot.vals[0] { MulMonotone(slot.size, wanted, p.f.dataSize); }
  }

  lemma {:induction false} ReleasedFirst(types: Schema, mode: Mode, p: PField, slot: PSlot, h: Heap,
                                         others: multiset<nat>)
    requires SoundSchema(types) && IsPointer(p) && !p.f.htype.Repeated?
    requires if Current(p, slot) then TidyCurrent(types, mode, p, slot) &&
             Holds(h, mode, others + OwnedCurrent(types, Wide(mode), p, slot))
             else slot.vals == [Null] && Holds(h, mode, others)
    ensures |slot.vals| == 1
    ensures var (kept, h0) := BeforeSingle(types, p, slot, h);
            && |kept.vals| == 1 && Holds(h0, mode, others + Id(kept.vals[0]))
            && (if p.f.ltype.LSubmessage? then kept.vals[0].Null?
                else Pointing(mode, kept.vals[0]) && (kept.vals[0].Block? ==> kept.vals[0].items == []))
  {
    hide SoundSchema, Holds, ReleaseCurrent, OwnedCurrent, TidyEntry;
    assert others + Id(Null) == others;
    if Current(p, slot) {
      if p.f.ltype.LSubmessage? && !slot.vals[0].Null? {
        ReleaseCurrentFrees(types, mode, p, slot, h, others);
        var slot' := ReleaseCurrent(types, p, slot, h).0;
        assert OwnedCurrent(types, Wide(mode), p, slot') == multiset{}
               by { NullOwnsNothing(types, Wide(mode), p, slot'); }
      } else {
        PlainOwned(types, Wide(mode), p, slot, others);
      }
    }
  }

  lemma NullOwnsNothing(types: Schema, every: bool, p: PField, slot: PSlot)
    requires IsPointer(p) && slot.vals == [Null]
    ensures OwnedCurrent(types, every, p, slot) == multiset{}
  {
  }

  lemma {:induction false} TargetKeeps(types: Schema, mode: Mode, p: PField, size: nat, v: Val, h: Heap, s: bytes,
                                       others: multiset<nat>)
    requires SoundSchema(types) && Leadable(types, mode, p) && IsPointer(p) && !p.f.htype.Repeated?
    requires Holds(h, mode, others + Id(v))
    requires if p.f.ltype.LSubmessage? then v.Null? else Pointing(mode, v) && (v.Block? ==> v.items == [])
    ensures var r := DecHeapTarget(types, p, v, h, s); var slot := PSlot(size, [r.v]);
            (Kept(mode, r.ok) ==>
               && TidyCurrent(types, mode, p, slot)
               && Holds(r.heap, mode, others + OwnedCurrent(types, Wide(mode), p, slot)))
    decreases |s|, 4
  {
    hide SoundSchema, Holds, OwnedCurrent, OwnedItems, TidyEntry, DecHeapEntry, DecHeapBuffer, FreshEntry, Allocate;
    hide Leadable, Follows;
    var every := Wide(mode);
    if p.f.ltype.LString? || p.f.ltype.LBytes? {
      BufferKeeps(p, v, h, s, mode, others);
      PlainOwned(types, every, p, PSlot(size, [DecHeapBuffer(p, v, h, s).v]), others);
    } else {
      AllocateKeeps(v, p.f.dataSize, 1, h, mode, others);
      var (ok, v1, h1) := Allocate(v, p.f.dataSize, 1, h);
      if ok {
        SingleEntry(types, mode, p, size, v1, h1, s, others);
      } else {
        PlainOwned(types, every, p, PSlot(size, [v1]), others);
      }
    }
  }

  /** A single pointer: an old submessage is released first, any other block is reused. */
  lemma {:induction false} SingleKeeps(types: Schema, mode: Mode, p: PField, slot: PSlot, h: Heap, s: bytes,
                                       others: multiset<nat>)
    requires SoundSchema(types) && Leadable(types, mode, p) && IsPointer(p) && !p.f.htype.Repeated?
    requires if Current(p, slot) then TidyCurrent(types, mode, p, slot) &&
             Holds(h, mode, others + OwnedCurrent(types, Wide(mode), p, slot))
             else slot.vals == [Null] && Holds(h, mode, others)
    ensures var r := DecHeapSingle(types, p, slot, h, s);
            (Kept(mode, r.ok) ==>
               && Current(p, r.v) && TidyCurrent(types, mode, p, r.v)
               && Holds(r.heap, mode, others + OwnedCurrent(types, Wide(mode), p, r.v)))
    decreases |s|, 5
  {
    hide SoundSchema, Holds, OwnedCurrent, TidyCurrent, DecHeapEntry, DecHeapBuffer, Allocate, FreshEntry;
    hide ReleaseCurrent, Leadable;
    ReleasedFirst(types, mode, p, slot, h, others);
    var (kept, h0) := BeforeSingle(types, p, slot, h);
    var size := if p.f.htype.Oneof? then p.f.tag else slot.size;
    TargetKeeps(types, mode, p, size, kept.vals[0], h0, s, others);
    var r := DecHeapTarget(types, p, kept.vals[0], h0, s);
    assert DecHeapSingle(types, p, slot, h, s) == Out(r.ok, PSlot(size, [r.v]), r.heap, r.rest);
  }

  /** Nothing is behind a single pointer to anything but a structure. */
  lemma PlainBehind(types: Schema, every: bool, p: PField, slot: PSlot)
    requires IsPointer(p) && !p.f.htype.Repeated?
    requires |slot.vals| == 1 && (slot.vals[0].Null? || !p.f.ltype.LSubmessage?)
    ensures Behind(types, every, p, slot) == multiset{}
  {
  }

  lemma PlainOwned(types: Schema, every: bool, p: PField, slot: PSlot, others: multiset<nat>)
    requires IsPointer(p) && !p.f.htype.Repeated?
    requires |slot.vals| == 1 && (slot.vals[0].Null? || !p.f.ltype.LSubmessage?)
    ensures others + OwnedCurrent(types, every, p, slot) == others + Id(slot.vals[0])
  {
    PointerOwned(types, every, p, slot, others);
    PlainBehind(types, every, p, slot);
    assert others + multiset{} + Id(slot.vals[0]) == others + Id(slot.vals[0]);
  }

  lemma {:induction false} SingleEntry(types: Schema, mode: Mode, p: PField, size: nat, v: Val, h: Heap, s: bytes,
                                       others: multiset<nat>)
    requires SoundSchema(types) && Leadable(types, mode, p) && IsPointer(p) && !p.f.htype.Repeated?
    requires !p.f.ltype.LString? && !p.f.ltype.LBytes?
    requires v.Block? && v.items == [] && Holds(h, mode, others + Id(v))
    ensures var r := DecHeapEntry(types, p, FreshEntry(types, p), h, s);
            var slot := PSlot(size, [v.(items := if p.f.ltype.LSubmessage? then [r.v] else [])]);
            (Kept(mode, r.ok) ==>
               && TidyCurrent(types, mode, p, slot)
               && Holds(r.heap, mode, others + OwnedCurrent(types, Wide(mode), p, slot)))
    decreases |s|, 2
  {
    hide SoundSchema, Holds, OwnedCurrent, OwnedItems, ItemOwned, TidyEntry, DecHeapEntry, FreshEntry, Ready;
    hide EntryShare, Fits;
    var every := Wide(mode);
    FreshIsReady(types, mode, p);
    assert others + Id(v) + multiset{} == others + Id(v);
    EntryKeeps(types, mode, p, FreshEntry(types, p), h, s, others + Id(v));
    var r := DecHeapEntry(types, p, FreshEntry(types, p), h, s);
    var slot := PSlot(size, [v.(items := if p.f.ltype.LSubmessage? then [r.v] else [])]);
    if p.f.ltype.LSubmessage? {
      ItemsExtend(types, every, p, [], [r.v], 0);
      NothingInEmpty(types, every, p, []);
      PointerOwned(types, every, p, slot, others);
      assert others + Behind(types, every, p, slot) + Id(slot.vals[0]) ==
             others + Id(v) + ItemOwned(types, every, p, r.v);
    } else {
      PlainOwned(types, every, p, slot, others);
      assert ItemOwned(types, every, p, r.v) == multiset{} by { LeafOwnsNothing(types, every, p, r.v); }
    }
  }

  lemma LeafOwnsNothing(types: Schema, every: bool, p: PField, v: Val)
    requires !p.f.ltype.LSubmessage? && !PointerEntries(p)
    ensures ItemOwned(types, every, p, v) == multiset{}
  {
  }

  lemma {:induction false} PointerKeeps(types: Schema, mode: Mode, ty: nat, p: PField, wireType: nat, slot: PSlot,
                                        h: Heap, s: bytes, others: multiset<nat>)
    requires SoundSchema(types) && SoundField(types, ty, p) && Leadable(types, mode, p) && IsPointer(p)
    requires if Current(p, slot) then TidyCurrent(types, mode, p, slot) &&
             Holds(h, mode, others + OwnedCurrent(types, Wide(mode), p, slot))
             else slot.vals == [Null] && Holds(h, mode, others)
    ensures var r := DecHeapPointer(types, p, wireType, slot, h, s);
            (Kept(mode, r.ok) ==>
               && Current(p, r.v) && TidyCurrent(types, mode, p, r.v)
               && Holds(r.heap, mode, others + OwnedCurrent(types, Wide(mode), p, r.v)))
    decreases |s|, 6
  {
    hide SoundSchema, Holds, OwnedCurrent, OwnedItems, TidyPointer, DecHeapSingle, DecHeapAppend, DecHeapPacked;
    hide Leadable;
    var every := Wide(mode);
    if !p.f.htype.Repeated? {
      SingleKeeps(types, mode, p, slot, h, s, others);
    } else if wireType == WT_STRING && Packable(p.f) {
      if TakeDelimited(s).Ok? {
        var body := TakeDelimited(s).value;
        PackedStart(types, mode, p, slot);
        ScalarsOwn(types, every, p, slot, others);
        PackedKeeps(types, mode, p, slot, slot.size, h, body, others);
        ScalarsOwn(types, every, p, DecHeapPacked(p, slot, slot.size, h, body).v, others);
      }
    } else {
      AppendKeeps(types, mode, p, slot, h, s, others);
    }
  }

  lemma PackedStart(types: Schema, mode: Mode, p: PField, slot: PSlot)
    requires IsPointer(p) && p.f.htype.Repeated? && TidyCurrent(types, mode, p, slot)
    ensures slot.size <= PB_SIZE_MAX
    ensures Roomy(p, slot.vals[0], slot.size)
  {
    assert TidyPointer(types, mode, p, slot.size, slot.vals[0]);
  }

  lemma ScalarsOwn(types: Schema, every: bool, p: PField, slot: PSlot, others: multiset<nat>)
    requires Packable(p.f) && IsPointer(p) && |slot.vals| == 1
    ensures others + OwnedCurrent(types, every, p, slot) == others + Id(slot.vals[0])
  {
    PointerOwned(types, every, p, slot, others);
    assert Behind(types, every, p, slot) == multiset{};
    assert others + multiset{} + Id(slot.vals[0]) == others + Id(slot.vals[0]);
  }

  // ---------------------------------------------------------------- fields in place

  lemma ScalarArray(types: Schema, mode: Mode, p: PField, slot: PSlot, n: nat)
    requires Packable(p.f) && !IsPointer(p) && p.f.htype.Repeated? && TidyCurrent(types, mode, p, slot)
    ensures TidyCurrent(types, mode, p, slot.(size := n))
    ensures forall every: bool ::
            OwnedCurrent(types, every, p, slot) == OwnedCurrent(types, every, p, slot.(size := n)) == multiset{}
  {
    hide TidyEntry;
  }

  /** Replacing entry n of the array by what was decoded into it, in terms of the account. */
  lemma {:induction false} CountedEntryKeeps(types: Schema, mode: Mode, p: PField, vals: seq<Val>, m: nat, n: nat,
                                             h: Heap, s: bytes, others: multiset<nat>)
    requires SoundSchema(types) && p.f.ltype.LSubmessage? && p.f.htype.Repeated? && n < m <= |vals| &&
             Ready(types, mode, p, vals[n])
    requires Wide(mode) || ItemOwned(types, false, p, vals[n]) == multiset{}
    requires Holds(h, mode, others + OwnedItems(types, Wide(mode), p, vals, m))
    ensures var r := DecHeapEntry(types, p, vals[n], h, s);
            (Kept(mode, r.ok) ==>
               && TidyEntry(types, mode, p, r.v)
               && Holds(r.heap, mode, others + OwnedItems(types, Wide(mode), p, vals[n := r.v], m)))
    decreases |s|, 2
  {
    hide SoundSchema, Holds, Tidy, Owned, OwnedItems, ItemOwned, TidyEntry, DecHeapEntry, Ready;
    var every := Wide(mode);
    var rest := BesideEntry(types, every, p, vals, m, n);
    ReplaceEntry(types, every, p, vals, m, n, vals[n]);
    assert others + OwnedItems(types, every, p, vals, m) == (others + rest) + EntryShare(types, every, p, vals[n]);
    EntryKeeps(types, mode, p, vals[n], h, s, others + rest);
    var r := DecHeapEntry(types, p, vals[n], h, s);
    ReplaceEntry(types, every, p, vals, m, n, r.v);
    assert (others + rest) + ItemOwned(types, every, p, r.v) == others + OwnedItems(types, every, p, vals[n := r.v], m);
  }

  /** The next entry of an array with a count, in an account that did not count it. */
  lemma {:induction false} NextEntryKeeps(types: Schema, mode: Mode, p: PField, vals: seq<Val>, n: nat, h: Heap,
                                          s: bytes, others: multiset<nat>)
    requires SoundSchema(types) && p.f.htype.Repeated? && n < |vals| && Ready(types, mode, p, vals[n]) && !Wide(mode)
    requires Holds(h, mode, others + OwnedItems(types, false, p, vals, n))
    ensures var r := DecHeapEntry(types, p, vals[n], h, s);
            (Kept(mode, r.ok) ==>
               && TidyEntry(types, mode, p, r.v)
               && Holds(r.heap, mode, others + OwnedItems(types, false, p, vals[n := r.v], n + 1)))
    decreases |s|, 2
  {
    hide SoundSchema, Holds, Tidy, Owned, OwnedItems, ItemOwned, TidyEntry, DecHeapEntry, Ready;
    var own := OwnedItems(types, false, p, vals, n);
    assert others + own + EntryShare(types, false, p, vals[n]) == others + own;
    EntryKeeps(types, mode, p, vals[n], h, s, others + own);
    var r := DecHeapEntry(types, p, vals[n], h, s);
    ItemsExtend(types, false, p, vals, vals[n := r.v], n);
    assert others + own + ItemOwned(types, false, p, r.v) == others + (own + ItemOwned(types, false, p, r.v));
  }

  /** An entry of an array in place: the next one, or one of a fixed-count array. */
  lemma {:induction false} ArrayEntryKeeps(types: Schema, mode: Mode, ty: nat, i: nat, slot: PSlot, n: nat, h: Heap,
                                           s: bytes, others: multiset<nat>)
    requires SoundSchema(types) && Fits(types, mode, ty) && ty < |types| && i < |types[ty]|
    requires var p := types[ty][i];
             && !IsPointer(p) && p.f.htype.Repeated? && n < p.f.arraySize && (!FixedCount(p.f) ==> n == slot.size)
             && TidyCurrent(types, mode, p, slot) && Holds(h, mode, others + OwnedCurrent(types, Wide(mode), p, slot))
             && (Delicate(types, mode, ty, i) ==> ClearFrom(types, mode, p, slot.vals, n))
    ensures var p := types[ty][i];
            var r := DecHeapEntry(types, p, slot.vals[n], h, s);
            var slot' := PSlot(if FixedCount(p.f) then slot.size else n + 1, slot.vals[n := r.v]);
            (Kept(mode, r.ok) ==>
               && TidyCurrent(types, mode, p, slot')
               && Holds(r.heap, mode, others + OwnedCurrent(types, Wide(mode), p, slot')))
    decreases |s|, 3
  {
    hide SoundSchema, Holds, Tidy, Owned, OwnedItems, ItemOwned, TidyEntry, DecHeapEntry, Fits, FixedClear, Ready;
    var p, every := types[ty][i], Wide(mode);
    EntryIsReady(types, mode, ty, i, slot, n);
    if !p.f.ltype.LSubmessage? {
      LeafEntryKeeps(types, mode, p, slot.vals, n, h, s);
      var r := DecHeapEntry(types, p, slot.vals[n], h, s);
      NoLeafOwns(types, every, p, slot.vals, InPlace(p, slot, every));
      NoLeafOwns(types, every, p, slot.vals[n := r.v], InPlace(p, PSlot(n + 1, slot.vals[n := r.v]), every));
      NoLeafOwns(types, every, p, slot.vals[n := r.v], InPlace(p, slot, every));
      LeafOwnsNothing(types, false, p, r.v);
    } else if every || FixedCount(p.f) {
      CountedEntryKeeps(types, mode, p, slot.vals, |slot.vals|, n, h, s, others);
    } else {
      NextEntryKeeps(types, mode, p, slot.vals, n, h, s, others);
    }
  }

  lemma LeafEntryKeeps(types: Schema, mode: Mode, p: PField, vals: seq<Val>, n: nat, h: Heap, s: bytes)
    requires !p.f.ltype.LSubmessage? && n < |vals| && TidyEntry(types, mode, p, vals[n])
    ensures var r := DecHeapEntry(types, p, vals[n], h, s); r.v == vals[n] && r.heap == h
  {
  }

  lemma EntryIsReady(types: Schema, mode: Mode, ty: nat, i: nat, slot: PSlot, n: nat)
    requires SoundSchema(types) && Fits(types, mode, ty) && ty < |types| && i < |types[ty]|
    requires var p := types[ty][i];
             && !IsPointer(p) && p.f.htype.Repeated? && n < p.f.arraySize && (!FixedCount(p.f) ==> n == slot.size)
             && TidyCurrent(types, mode, p, slot)
             && (Delicate(types, mode, ty, i) ==> ClearFrom(types, mode, p, slot.vals, n))
    ensures var p := types[ty][i];
            && |slot.vals| == p.f.arraySize && Ready(types, mode, p, slot.vals[n])
            && (!Wide(mode) && FixedCount(p.f) ==> ItemOwned(types, false, p, slot.vals[n]) == multiset{})
  {
    hide SoundSchema, OwnedItems, Owned, Fits, FixedClear, Pointerless, Sturdy, Unarmed, Tidy;
    var p, v := types[ty][i], slot.vals[n];
    SchemaField(types, ty, i);
    assert TidyEntry(types, mode, p, v);
    if FixedCount(p.f) && !HoldsPointers(types, ty, i) {
      FixedOwnsNothing(types, ty, i, slot.vals);
      assert ItemOwned(types, false, p, v) == multiset{};
    }
    if p.f.ltype.LSubmessage? {
      FitsInside(types, mode, ty, i);
      TidyLength(types, mode, p.sub, v.slots);
      FitsHere(types, mode, ty);
      if mode.Live? {
        LiveFits(types, p.sub);
        NoArraysIsSturdy(types, p.sub);
        SturdyIsUnarmed(types, p.sub, v.slots);
      } else if mode.Every? && FixedCount(p.f) && Sturdy(types, p.sub) {
        SturdyIsUnarmed(types, p.sub, v.slots);
      }
      assert Settable(types, mode, p.sub, v.slots);
    }
  }

  lemma LiveFits(types: Schema, ty: nat)
    requires Fits(types, Live, ty)
    ensures NoPointerArrays(types, ty)
  {
  }

  /** A value in place that is not an array. */
  lemma {:induction false} PlaceKeeps(types: Schema, mode: Mode, p: PField, size: nat, v: Val, h: Heap, s: bytes,
                                      others: multiset<nat>)
    requires SoundSchema(types) && !IsPointer(p) && !p.f.htype.Repeated?
    requires Ready(types, mode, p, v) && Holds(h, mode, others + ItemOwned(types, Wide(mode), p, v))
    ensures var r := DecHeapEntry(types, p, v, h, s); var slot := PSlot(size, [r.v]);
            (Kept(mode, r.ok) ==>
               && TidyCurrent(types, mode, p, slot)
               && Holds(r.heap, mode, others + OwnedCurrent(types, Wide(mode), p, slot)))
    decreases |s|, 2
  {
    hide SoundSchema, Holds, Tidy, Owned, OwnedItems, ItemOwned, TidyEntry, DecHeapEntry, Ready;
    EntryKeeps(types, mode, p, v, h, s, others);
    OneOwned(types, Wide(mode), p, size, DecHeapEntry(types, p, v, h, s).v);
  }

  function CurrentOwned(types: Schema, every: bool, p: PField, slot: PSlot): multiset<nat> {
    if Current(p, slot) then OwnedCurrent(types, every, p, slot) else multiset{}
  }

  /** The value a single field or a chosen oneof member already has can be decoded into. */
  lemma PlaceIsReady(types: Schema, mode: Mode, ty: nat, i: nat, v: Val)
    requires SoundSchema(types) && Fits(types, mode, ty) && ty < |types| && i < |types[ty]|
    requires var p := types[ty][i]; !IsPointer(p) && !p.f.htype.Repeated? && TidyEntry(types, mode, p, v)
    ensures Ready(types, mode, types[ty][i], v)
  {
    hide SoundSchema, Fits, FixedClear, ItemOwned;
    var p := types[ty][i];
    SchemaField(types, ty, i);
    if p.f.ltype.LSubmessage? {
      FitsInside(types, mode, ty, i);
      TidyLength(types, mode, p.sub, v.slots);
      EmbeddedIsClear(types, mode, ty, i, v.slots);
    }
  }

  lemma {:induction false} StaticArrayKeeps(types: Schema, mode: Mode, ty: nat, i: nat, wireType: nat, slot: PSlot,
                                       got: nat, h: Heap, s: bytes, others: multiset<nat>)
    requires SoundSchema(types) && Fits(types, mode, ty) && ty < |types| && i < |types[ty]| && !IsPointer(types[ty][i])
    requires types[ty][i].f.htype.Repeated?
    requires var p := types[ty][i];
             && (Current(p, slot) ==> TidyCurrent(types, mode, p, slot))
             && Holds(h, mode, others + CurrentOwned(types, Wide(mode), p, slot))
             && (Delicate(types, mode, ty, i) ==> ClearFrom(types, mode, p, slot.vals, got))
    ensures var p := types[ty][i];
            var r := DecHeapStatic(types, ty, p, wireType, slot, got, h, s); var slot' := r.v.0;
            (Kept(mode, r.ok) ==>
               && Current(p, slot') && TidyCurrent(types, mode, p, slot')
               && Holds(r.heap, mode, others + OwnedCurrent(types, Wide(mode), p, slot')))
    decreases |s|, 4
  {
    hide SoundSchema, Holds, Tidy, Owned, OwnedItems, ItemOwned, TidyEntry, DecHeapEntry, Blank, Defaults, DecPacked;
    hide Fits, Ready, ClearFrom;
    hide Follows;
    var p, every := types[ty][i], Wide(mode);
    SchemaField(types, ty, i);
    var n := if FixedCount(p.f) then got else slot.size;
    if wireType == WT_STRING && Packable(p.f) {
      var slot' := DecHeapStatic(types, ty, p, wireType, slot, got, h, s).v.0;
      ScalarArray(types, mode, p, slot, slot'.size);
      assert slot' == slot.(size := slot'.size);
      assert OwnedCurrent(types, every, p, slot) == OwnedCurrent(types, every, p, slot.(size := slot'.size));
    } else if n < p.f.arraySize {
      ArrayEntryKeeps(types, mode, ty, i, slot, n, h, s, others);
    }
  }

  lemma {:induction false} MemberKeeps(types: Schema, mode: Mode, ty: nat, i: nat, wireType: nat, slot: PSlot,
                                       got: nat, h: Heap, s: bytes, others: multiset<nat>)
    requires SoundSchema(types) && Fits(types, mode, ty) && ty < |types| && i < |types[ty]| && !IsPointer(types[ty][i])
    requires types[ty][i].f.htype.Oneof?
    requires var p := types[ty][i];
             && (Current(p, slot) ==> TidyCurrent(types, mode, p, slot))
             && Holds(h, mode, others + CurrentOwned(types, Wide(mode), p, slot))
             && (Delicate(types, mode, ty, i) ==> ClearFrom(types, mode, p, slot.vals, got))
    ensures var p := types[ty][i];
            var r := DecHeapStatic(types, ty, p, wireType, slot, got, h, s); var slot' := r.v.0;
            (Kept(mode, r.ok) ==>
               && Current(p, slot') && TidyCurrent(types, mode, p, slot')
               && Holds(r.heap, mode, others + OwnedCurrent(types, Wide(mode), p, slot')))
    decreases |s|, 4
  {
    hide SoundSchema, Holds, Tidy, Owned, OwnedItems, ItemOwned, TidyEntry, DecHeapEntry, Blank, Defaults, DecPacked;
    hide Fits, Ready, ClearFrom;
    hide Follows;
    var p, every := types[ty][i], Wide(mode);
    SchemaField(types, ty, i);
    if slot.size == p.f.tag {
      OneOwned(types, every, p, slot.size, slot.vals[0]);
      assert slot == PSlot(slot.size, [slot.vals[0]]);
      if p.f.ltype.LSubmessage? {
        PlaceIsReady(types, mode, ty, i, slot.vals[0]);
        PlaceKeeps(types, mode, p, p.f.tag, slot.vals[0], h, s, others);
      } else {
        LeafOwnsNothing(types, every, p, slot.vals[0]);
        LeafOwnsNothing(types, every, p, Plain);
        assert TidyEntry(types, mode, p, Plain) by { PlainIsTidy(types, mode, p); }
        PlaceIsReady(types, mode, ty, i, Plain);
        PlaceKeeps(types, mode, p, p.f.tag, Plain, h, s, others);
      }
    } else {
      if p.f.ltype.LSubmessage? { FitsInside(types, mode, ty, i); }
      FreshIsReady(types, mode, p);
      PlaceKeeps(types, mode, p, p.f.tag, FreshEntry(types, p), h, s, others);
    }
  }

  lemma {:induction false} StaticKeeps(types: Schema, mode: Mode, ty: nat, i: nat, wireType: nat, slot: PSlot,
                                       got: nat, h: Heap, s: bytes, others: multiset<nat>)
    requires SoundSchema(types) && Fits(types, mode, ty) && ty < |types| && i < |types[ty]| && !IsPointer(types[ty][i])
    requires var p := types[ty][i];
             && (Current(p, slot) ==> TidyCurrent(types, mode, p, slot))
             && Holds(h, mode, others + CurrentOwned(types, Wide(mode), p, slot))
             && (Delicate(types, mode, ty, i) ==> ClearFrom(types, mode, p, slot.vals, got))
    ensures var p := types[ty][i];
            var r := DecHeapStatic(types, ty, p, wireType, slot, got, h, s); var slot' := r.v.0;
            (Kept(mode, r.ok) ==>
               && Current(p, slot') && TidyCurrent(types, mode, p, slot')
               && Holds(r.heap, mode, others + OwnedCurrent(types, Wide(mode), p, slot')))
    decreases |s|, 5
  {
    hide SoundSchema, Holds, Tidy, Owned, OwnedItems, ItemOwned, TidyEntry, DecHeapEntry, Blank, Defaults, DecPacked;
    hide Fits, Ready, ClearFrom;
    hide Follows;
    var p, every := types[ty][i], Wide(mode);
    match p.f.htype
    case Repeated => StaticArrayKeeps(types, mode, ty, i, wireType, slot, got, h, s, others);
    case Oneof => MemberKeeps(types, mode, ty, i, wireType, slot, got, h, s, others);
    case _ =>
      OneOwned(types, every, p, slot.size, slot.vals[0]);
      assert slot == PSlot(slot.size, [slot.vals[0]]);
      PlaceIsReady(types, mode, ty, i, slot.vals[0]);
      PlaceKeeps(types, mode, p, slot.size, slot.vals[0], h, s, others);
  }

  lemma PlainIsTidy(types: Schema, mode: Mode, p: PField)
    requires !p.f.ltype.LSubmessage? && !PointerEntries(p)
    ensures TidyEntry(types, mode, p, Plain)
  {
  }

  /** Decoding an array in place leaves the entries it has not reached as they were. */
  lemma StaticClear(types: Schema, mode: Mode, ty: nat, i: nat, wireType: nat, slot: PSlot, got: nat, h: Heap, s: bytes)
    requires ty < |types| && i < |types[ty]| && FixedCount(types[ty][i].f) && types[ty][i].f.ltype.LSubmessage?
    requires ClearFrom(types, mode, types[ty][i], slot.vals, got)
    ensures var r := DecHeapStatic(types, ty, types[ty][i], wireType, slot, got, h, s);
            r.ok ==> ClearFrom(types, mode, types[ty][i], r.v.0.vals, r.v.1)
  {
    hide Idle, DecHeapEntry;
  }

  lemma CounterStays(types: Schema, ty: nat, p: PField, wireType: nat, slot: PSlot, got: nat, h: Heap, s: bytes)
    requires ty < |types| && !FixedCount(p.f)
    ensures var r := DecHeapField(types, ty, p, wireType, slot, got, h, s); r.ok ==> r.v.1 == got
  {
    hide DecHeapEntry, DecHeapPointer, ReleaseUnion, DecPacked;
  }

  // ---------------------------------------------------------------- records

  /** pb_release_union_field: whatever another member owned is given back; the find never fails. */
  lemma {:induction false} UnionKeeps(types: Schema, mode: Mode, ty: nat, slots: seq<PSlot>, i: nat, h: Heap,
                                      others: multiset<nat>)
    requires SoundSchema(types) && Tidy(types, mode, ty, slots) && i < |slots|
    requires ty < |types| && |slots| == |types[ty]|
    requires var at := Home(Bare(types[ty]), i);
             Holds(h, mode, others + OwnedHere(types, Wide(mode), ty, at, slots[at], |slots|))
    ensures var p, slot := types[ty][i], slots[Home(Bare(types[ty]), i)];
            var (ok, slot', h') := ReleaseUnion(types, types[ty], p, slot, h);
            && ok && Holds(h', mode, others + CurrentOwned(types, Wide(mode), p, slot'))
            && (Current(p, slot') ==> TidyCurrent(types, mode, p, slot'))
            && (!Current(p, slot') && IsPointer(p) ==> slot'.vals == [Null])
            && (!p.f.htype.Oneof? ==> slot' == slot)
  {
    hide SoundSchema, Holds, Tidy, TidyCurrent, OwnedCurrent, SoundField, ReleaseCurrent;
    var every := Wide(mode);
    var fields := Bare(types[ty]);
    var p, at := types[ty][i], Home(fields, i);
    var slot := slots[at];
    assert fields[i] == p.f;
    SchemaField(types, ty, i);
    FieldIsTidy(types, mode, ty, slots, i);
    TagPositive(types, ty, p);
    if Current(p, slot) {
      OwnedHereIs(types, every, ty, i, slot, |slots|);
    } else if slot.size == 0 {
      assert fields[at] == types[ty][at].f;
      OwnedHereNothing(types, every, ty, at, slot, |slots|);
    } else {
      var j :| 0 <= j < |fields| && Home(fields, j) == at && fields[j].tag == slot.size;
      assert Find(fields, slot.size) == Some(j) by { FindIsIndex(fields, j, 0); }
      assert fields[j] == types[ty][j].f;
      FieldIsTidy(types, mode, ty, slots, j);
      OwnedHereIs(types, every, ty, j, slot, |slots|);
      ReleaseCurrentFrees(types, mode, types[ty][j], slot, h, others);
      var (released, h') := ReleaseCurrent(types, types[ty][j], slot, h);
      if every { HoldsLess(h', mode, others, OwnedCurrent(types, every, types[ty][j], released)); }
      assert others + multiset{} == others;
    }
  }

  lemma {:induction false} FieldKeeps(types: Schema, mode: Mode, ty: nat, slots: seq<PSlot>, i: nat, wireType: nat,
                                      got: nat, h: Heap, s: bytes, others: multiset<nat>)
    requires SoundSchema(types) && Fits(types, mode, ty) && Tidy(types, mode, ty, slots) && i < |slots|
    requires ty < |types| && |slots| == |types[ty]|
    requires var at := Home(Bare(types[ty]), i);
             Holds(h, mode, others + OwnedHere(types, Wide(mode), ty, at, slots[at], |slots|))
    requires Delicate(types, mode, ty, i) ==> ClearFrom(types, mode, types[ty][i], slots[i].vals, got)
    ensures var p := types[ty][i];
            var r := DecHeapField(types, ty, p, wireType, slots[Home(Bare(types[ty]), i)], got, h,
                s); var slot' := r.v.0;
            (Kept(mode, r.ok) ==>
               && Current(p, slot') && TidyCurrent(types, mode, p, slot')
               && Holds(r.heap, mode, others + OwnedCurrent(types, Wide(mode), p, slot')))
            && (r.ok && Delicate(types, mode, ty, i) ==> ClearFrom(types, mode, p, slot'.vals, r.v.1))
    decreases |s|, 7
  {
    hide SoundSchema, Holds, Tidy, TidyCurrent, OwnedCurrent, SoundField, ReleaseUnion, DecHeapPointer, DecHeapStatic;
    hide Fits, ClearFrom, Pointerless;
    var p, slot := types[ty][i], slots[Home(Bare(types[ty]), i)];
    assert Bare(types[ty])[i] == p.f;
    UnionKeeps(types, mode, ty, slots, i, h, others);
    SchemaField(types, ty, i);
    var (ok, slot', h') := ReleaseUnion(types, types[ty], p, slot, h);
    if IsPointer(p) {
      assert Leadable(types, mode, p) by { FieldIsLeadable(types, mode, ty, i); }
      if !Current(p, slot') { assert others + multiset{} == others; }
      NoFixedPointer(types, ty, i);
      PointerKeeps(types, mode, ty, p, wireType, slot', h', s, others);
    } else {
      StaticKeeps(types, mode, ty, i, wireType, slot', got, h', s, others);
      if Delicate(types, mode, ty, i) { StaticClear(types, mode, ty, i, wireType, slot', got, h', s); }
    }
  }

  lemma FieldIsLeadable(types: Schema, mode: Mode, ty: nat, i: nat)
    requires SoundSchema(types) && Fits(types, mode, ty) && ty < |types| && i < |types[ty]|
    ensures Leadable(types, mode, types[ty][i])
  {
    hide SoundSchema, Fits;
    SchemaField(types, ty, i);
    if types[ty][i].f.ltype.LSubmessage? { FitsInside(types, mode, ty, i); }
  }

  lemma NoFixedPointer(types: Schema, ty: nat, i: nat)
    requires SoundSchema(types) && ty < |types| && i < |types[ty]| && IsPointer(types[ty][i])
    ensures !HoldsPointers(types, ty, i)
  {
    SchemaField(types, ty, i);
  }

  /** One record of a known field, in terms of the whole structure. */
  lemma {:induction false} StepKeeps(types: Schema, mode: Mode, ty: nat, slots: seq<PSlot>, i: nat, wireType: nat,
                                     got: nat, h: Heap, s: bytes, others: multiset<nat>)
    requires SoundSchema(types) && Fits(types, mode, ty) && Tidy(types, mode, ty, slots) && i < |slots|
    requires ty < |types| && |slots| == |types[ty]| && Holds(h, mode, others + Owned(types, Wide(mode), ty, slots))
    requires Delicate(types, mode, ty, i) ==> ClearFrom(types, mode, types[ty][i], slots[i].vals, got)
    ensures var at := Home(Bare(types[ty]), i);
            var r := DecHeapField(types, ty, types[ty][i], wireType, slots[at], got, h, s);
            (Kept(mode, r.ok) ==>
               && Tidy(types, mode, ty, slots[at := r.v.0])
               && Holds(r.heap, mode, others + Owned(types, Wide(mode), ty, slots[at := r.v.0])))
            && (r.ok && Delicate(types, mode, ty, i) ==> ClearFrom(types, mode, types[ty][i], r.v.0.vals, r.v.1))
    decreases |s|, 8
  {
    hide SoundSchema, Holds, Tidy, TidyCurrent, OwnedCurrent, SoundField, DecHeapField, Owned, OwnedHere, Current;
    hide DistinctTags, Fits, ClearFrom, HoldsPointers;
    var every := Wide(mode);
    var at := Home(Bare(types[ty]), i);
    var p, n := types[ty][i], |slots|;
    SchemaField(types, ty, i);
    var rest := BesideField(types, every, ty, slots, i);
    var r := DecHeapField(types, ty, p, wireType, slots[at], got, h, s);
    BesideIsRest(types, every, ty, slots, i);
    assert others + Owned(types, every, ty, slots) == (others + rest) + OwnedHere(types, every, ty, at, slots[at], n);
    FieldKeeps(types, mode, ty, slots, i, wireType, got, h, s, others + rest);
    var slot := r.v.0;
    if Kept(mode, r.ok) {
      TidyUpdate(types, mode, ty, slots, i, slot);
      ReplaceField(types, every, ty, slots, i, slot);
      assert (others + rest) + OwnedCurrent(types, every, p, slot) ==
             others + Owned(types, every, ty, slots[at := slot]);
    }
  }

  lemma BesideIsRest(types: Schema, every: bool, ty: nat, slots: seq<PSlot>, i: nat)
    requires ty < |types| && |slots| == |types[ty]| && i < |slots|
    ensures var at := Home(Bare(types[ty]), i);
            Owned(types, every, ty, slots) ==
                BesideField(types, every, ty, slots, i) + OwnedHere(types, every, ty, at, slots[at], |slots|)
  {
    hide OwnedUpTo, OwnedHere;
    HereIsOwned(types, every, ty, slots, Home(Bare(types[ty]), i), |slots|);
  }

  /** Storing what field i received keeps the other arrays as they were. */
  lemma StoreClear(types: Schema, mode: Mode, ty: nat, slots: seq<PSlot>, i: nat, slot: PSlot, c: State, got: nat)
    requires ty < |types| && |slots| == |types[ty]| && i < |slots| && FixedClear(types, mode, ty, slots, c.fixed, c.got)
    requires Delicate(types, mode, ty, i) ==> ClearFrom(types, mode, types[ty][i], slot.vals, got)
    requires if FixedCount(types[ty][i].f) then c.fixed == Some(i) else got == c.got
    ensures FixedClear(types, mode, ty, slots[Home(Bare(types[ty]), i) := slot], c.fixed, got)
  {
    hide ClearFrom, Sturdy, Pointerless;
    var fields := Bare(types[ty]);
    forall j | 0 <= j < |slots| && Delicate(types, mode, ty, j)
      ensures ClearFrom(types, mode, types[ty][j], slots[Home(fields, i) := slot][j].vals, if c.fixed == Some(j)
              then got else 0)
    {
      assert fields[i] == types[ty][i].f && fields[j] == types[ty][j].f;
      assert ClearFrom(types, mode, types[ty][j], slots[j].vals, if c.fixed == Some(j) then c.got else 0);
      if Home(fields, i) == j { assert fields[i].htype.Oneof? == fields[j].htype.Oneof?; }
    }
  }

  lemma {:induction false} LoopKeeps(types: Schema, mode: Mode, ty: nat, slots: seq<PSlot>, ctl: State, h: Heap,
                                     s: bytes, others: multiset<nat>)
    requires SoundSchema(types) && Fits(types, mode, ty) && Tidy(types, mode, ty, slots)
    requires ty < |types| && |slots| == |types[ty]| && Holds(h, mode, others + Owned(types, Wide(mode), ty, slots))
    requires FixedClear(types, mode, ty, slots, ctl.fixed, ctl.got)
    requires ctl.fixed.Some? ==> ctl.fixed.value < |slots| && FixedCount(types[ty][ctl.fixed.value].f)
    ensures var r := HeapLoop(types, ty, slots, ctl, h, s).0;
            (Kept(mode, r.ok) ==>
               && Tidy(types, mode, ty, r.v)
               && Holds(r.heap, mode, others + Owned(types, Wide(mode), ty, r.v)))
    decreases |s|, 9
  {
    hide SoundSchema, Holds, Tidy, Owned, DecHeapField, SkipUnknown, StartFixed, DecVarint32, MarkSeen, Fits;
    hide FixedClear, ClearFrom;
    if s != [] && DecVarint32(s).Ok? && DecVarint32(s).value != 0 {
      var fields := Bare(types[ty]);
      var key, rest := DecVarint32(s).value, DecVarint32(s).rest;
      match Find(fields, key / 8)
      case None =>
        var r := SkipUnknown(fields, key / 8, key % 8, rest);
        if r.Ok? { LoopKeeps(types, mode, ty, slots, ctl, h, r.rest, others); }
      case Some(i) =>
        var c := StartFixed(fields, ctl, i);
        if c.Some? {
          var at := Home(fields, i);
          var got := c.value.got;
          StartFields(types, mode, ty, slots, ctl, i);
          StepKeeps(types, mode, ty, slots, i, key % 8, got, h, rest, others);
          var r := DecHeapField(types, ty, types[ty][i], key % 8, slots[at], got, h, rest);
          if r.ok {
            if !FixedCount(types[ty][i].f) { CounterStays(types, ty, types[ty][i], key % 8, slots[at], got, h, rest); }
            StoreClear(types, mode, ty, slots, i, r.v.0, c.value, r.v.1);
            LoopKeeps(types, mode, ty, slots[at := r.v.0],
                State([], MarkSeen(fields, c.value.seen, i), c.value.fixed, r.v.1), r.heap, r.rest, others);
          }
        }
    }
  }

  /** Starting a field keeps what the loop knows about fixed-count arrays. */
  lemma StartFields(types: Schema, mode: Mode, ty: nat, slots: seq<PSlot>, c: State, i: nat)
    requires Fits(types, mode, ty) && ty < |types| && |slots| == |types[ty]| && i < |slots|
    requires FixedClear(types, mode, ty, slots, c.fixed, c.got)
    requires c.fixed.Some? ==> c.fixed.value < |slots| && FixedCount(types[ty][c.fixed.value].f)
    requires StartFixed(Bare(types[ty]), c, i).Some?
    ensures var d := StartFixed(Bare(types[ty]), c, i).value;
            && (d.fixed.Some? ==> d.fixed.value < |slots| && FixedCount(types[ty][d.fixed.value].f))
            && (FixedCount(types[ty][i].f) ==> d.fixed == Some(i))
            && FixedClear(types, mode, ty, slots, d.fixed, d.got)
            && (Delicate(types, mode, ty, i) ==> ClearFrom(types, mode, types[ty][i], slots[i].vals, d.got))
  {
    hide ClearFrom, Fits, Pointerless;
    assert Bare(types[ty])[i] == types[ty][i].f;
    StartIsClear(types, mode, ty, slots, c, i);
  }

  // ---------------------------------------------------------------- messages

  /** pb_decode_noinit: the structure owns exactly what the call left allocated. */
  lemma {:induction false} NoinitKeeps(types: Schema, mode: Mode, ty: nat, slots: seq<PSlot>, h: Heap, s: bytes,
                                       others: multiset<nat>)
    requires SoundSchema(types) && Fits(types, mode, ty) && Tidy(types, mode, ty, slots)
    requires ty < |types| && |slots| == |types[ty]| && FixedClear(types, mode, ty, slots, None, 0)
    requires Holds(h, mode, others + Owned(types, Wide(mode), ty, slots))
    ensures var r := HeapDecodeNoinit(types, ty, slots, h, s);
            (Kept(mode, r.ok) ==>
               && Tidy(types, mode, ty, r.v)
               && Holds(r.heap, mode, others + Owned(types, Wide(mode), ty, r.v)))
    decreases |s|, 10
  {
    hide SoundSchema, Holds, Tidy, Owned, HeapLoop, Complete, Fits, FixedClear;
    LoopKeeps(types, mode, ty, slots, State([], {}, None, 0), h, s, others);
  }

  /** pb_decode. What the destination refers to is not part of the account of a clean or live structure; in
      the account of all memory, what defaults forget becomes lost. */
  lemma {:induction false} DecodeKeeps(types: Schema, mode: Mode, ty: nat, slots: seq<PSlot>, h: Heap, s: bytes,
                                       others: multiset<nat>)
    requires SoundSchema(types) && Fits(types, mode, ty) && Tidy(types, mode, ty, slots)
    requires Settable(types, mode, ty, slots)
    requires Holds(h, mode, others + if Wide(mode) then Owned(types, true, ty, slots) else multiset{})
    ensures var r := HeapDecode(types, ty, slots, h, s);
            (Kept(mode, r.ok) ==>
               && Tidy(types, mode, ty, r.v)
               && Holds(r.heap, mode, others + Owned(types, Wide(mode), ty, r.v)))
            && (!mode.Live? && !r.ok ==> Owned(types, false, ty, r.v) == multiset{})
    decreases |s|, 11
  {
    hide SoundSchema, Holds, Tidy, Owned, HeapDecodeNoinit, Defaults, Release, Fits, FixedClear;
    TidyLength(types, mode, ty, slots);
    var start := Defaults(types, ty, slots);
    DefaultsTidy(types, mode, ty, slots);
    var h1 := h.(lost := h.lost + (Owned(types, true, ty, slots) - Owned(types, true, ty, start)));
    DefaultsAccount(types, mode, ty, slots, h, others);
    NoinitKeeps(types, mode, ty, start, h1, s, others);
    var r := HeapDecodeNoinit(types, ty, start, h1, s);
    if !r.ok && Kept(mode, r.ok) { ReleaseFrees(types, mode, ty, r.v, r.heap, others); }
  }

  lemma DefaultsAccount(types: Schema, mode: Mode, ty: nat, slots: seq<PSlot>, h: Heap, others: multiset<nat>)
    requires SoundSchema(types) && Fits(types, mode, ty) && Tidy(types, mode, ty, slots) && ty < |types|
    requires Settable(types, mode, ty, slots)
    requires Holds(h, mode, others + if Wide(mode) then Owned(types, true, ty, slots) else multiset{})
    ensures var start := Defaults(types, ty, slots);
            && |start| == |types[ty]| && FixedClear(types, mode, ty, start, None, 0)
            && Holds(h.(lost := h.lost + (Owned(types, true, ty, slots) - Owned(types, true, ty, start))), mode,
                     others + Owned(types, Wide(mode), ty, start))
  {
    hide SoundSchema, Tidy, Owned, Defaults, Fits, FixedClear, Unarmed;
    TidyLength(types, mode, ty, slots);
    var start := Defaults(types, ty, slots);
    DefaultsTidy(types, mode, ty, slots);
    DefaultsForget(types, mode, true, ty, slots);
    EmptyIsClear(types, mode, ty, start);
    var before, after := Owned(types, true, ty, slots), Owned(types, true, ty, start);
    if Wide(mode) {
      assert (others + after) + (h.lost + (before - after)) == others + before + h.lost;
    } else if mode.Live? {
      LiveFits(types, ty);
      DefaultsForgetAll(types, ty, slots);
    }
  }
}
