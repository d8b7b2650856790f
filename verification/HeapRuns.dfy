/** Ownership over whole runs: what a program may rely on when it decodes, merges and releases. */
module HeapRuns {
  import opened Descriptor
  import opened Options
  import opened Wire
  import opened HeapDecoder
  import opened Ownership
  import opened HeapRelease
  import opened HeapWipes
  import opened HeapDefaults
  import opened HeapSafety

  /** What a program does with a structure: pb_decode, pb_decode_noinit, pb_release. */
  datatype Call = Decode(s: bytes) | Merge(s: bytes) | ReleaseIt

  function Run(types: Schema, ty: nat, slots: seq<PSlot>, h: Heap, calls: seq<Call>): (seq<PSlot>, Heap)
    decreases |calls|
  {
    if calls == [] then (slots, h)
    else match calls[0]
      case Decode(s) =>
        var r := HeapDecode(types, ty, slots, h, s);
        Run(types, ty, r.v, r.heap, calls[1..])
      case Merge(s) =>
        var r := HeapDecodeNoinit(types, ty, slots, h, s);
        Run(types, ty, r.v, r.heap, calls[1..])
      case ReleaseIt =>
        var (slots', h') := Release(types, ty, slots, h);
        Run(types, ty, slots', h', calls[1..])
  }

  /** Merging decodes the structure's own fixed-count arrays again: when one of them is delicate, the structure has
      to be released first. Decoding again sets the structure to defaults: it has to be released first, except that
      in the account of all memory a sturdy type need not be. */
  predicate Allowed(types: Schema, mode: Mode, ty: nat, calls: seq<Call>, empty: bool)
    requires ty < |types|
    decreases |calls|
  {
    calls == [] ||
    match calls[0]
    case Decode(_) =>
      (empty || mode.Any? || (mode.Every? && Sturdy(types, ty))) && Allowed(types, mode, ty, calls[1..], false)
    case Merge(_) =>
      (empty || forall i :: 0 <= i < |types[ty]| ==> !Delicate(types, mode, ty, i)) &&
          Allowed(types, mode, ty, calls[1..], false)
    case ReleaseIt => Allowed(types, mode, ty, calls[1..], true)
  }

  /** A sturdy type may be decoded, merged into and released in any order. */
  lemma {:induction false} SturdyAllows(types: Schema, ty: nat, calls: seq<Call>, empty: bool)
    requires SoundSchema(types) && ty < |types| && Sturdy(types, ty)
    ensures Allowed(types, Every, ty, calls, empty)
    decreases |calls|
  {
    hide SoundSchema, StartsWithPointer;
    forall i | 0 <= i < |types[ty]| ensures !Delicate(types, Every, ty, i) {
      SchemaField(types, ty, i);
      if FixedCount(types[ty][i].f) && types[ty][i].f.ltype.LSubmessage? { InMemoryIs(types, ty, i); }
    }
    if calls != [] { SturdyAllows(types, ty, calls[1..], if calls[0].ReleaseIt? then true else false); }
  }

  lemma {:induction false} RunKeeps(types: Schema, mode: Mode, ty: nat, slots: seq<PSlot>, h: Heap, calls: seq<Call>,
                                    empty: bool, others: multiset<nat>)
    requires SoundSchema(types) && Fits(types, mode, ty) && Tidy(types, mode, ty, slots) && ty < |types|
    requires Holds(h, mode, others + Owned(types, Wide(mode), ty, slots)) && !mode.Live?
    requires Allowed(types, mode, ty, calls, empty) && (empty ==> Owned(types, false, ty, slots) == multiset{})
    ensures var (slots', h') := Run(types, ty, slots, h, calls);
            Tidy(types, mode, ty, slots') && Holds(h', mode, others + Owned(types, Wide(mode), ty, slots'))
    decreases |calls|
  {
    hide SoundSchema, Holds, Tidy, Owned, Release, HeapDecodeNoinit, HeapDecode, Fits, FixedClear, Delicate, Settable;
    if calls != [] {
      TidyLength(types, mode, ty, slots);
      match calls[0]
      case Decode(s) =>
        AgainIsSettable(types, mode, ty, slots, empty);
        NothingCounted(types, mode, ty, slots, h, others, empty);
        DecodeKeeps(types, mode, ty, slots, h, s, others);
        var r := HeapDecode(types, ty, slots, h, s);
        RunKeeps(types, mode, ty, r.v, r.heap, calls[1..], false, others);
      case Merge(s) =>
        MergeIsClear(types, mode, ty, slots, empty);
        NoinitKeeps(types, mode, ty, slots, h, s, others);
        var r := HeapDecodeNoinit(types, ty, slots, h, s);
        RunKeeps(types, mode, ty, r.v, r.heap, calls[1..], false, others);
      case ReleaseIt =>
        ReleaseFrees(types, mode, ty, slots, h, others);
        var (slots', h') := Release(types, ty, slots, h);
        RunKeeps(types, mode, ty, slots', h', calls[1..], true, others);
    }
  }

  lemma AgainIsSettable(types: Schema, mode: Mode, ty: nat, slots: seq<PSlot>, empty: bool)
    requires SoundSchema(types) && Tidy(types, mode, ty, slots) && ty < |types| && !mode.Live?
    requires if empty then Owned(types, false, ty, slots) == multiset{}
             else mode.Any? || (mode.Every? && Sturdy(types, ty))
    ensures Settable(types, mode, ty, slots)
  {
    hide SoundSchema, Tidy, Owned, Unarmed, Sturdy;
    if mode.Every? {
      if empty { NothingIsUnarmed(types, mode, ty, slots); } else { SturdyIsUnarmed(types, ty, slots); }
    }
  }

  lemma NothingCounted(types: Schema, mode: Mode, ty: nat, slots: seq<PSlot>, h: Heap, others: multiset<nat>,
                       empty: bool)
    requires Holds(h, mode, others + Owned(types, Wide(mode), ty, slots))
    requires Wide(mode) || Owned(types, false, ty, slots) == multiset{}
    ensures Holds(h, mode, others + if Wide(mode) then Owned(types, true, ty, slots) else multiset{})
  {
    hide Holds, Owned;
  }

  lemma MergeIsClear(types: Schema, mode: Mode, ty: nat, slots: seq<PSlot>, empty: bool)
    requires SoundSchema(types) && Fits(types, mode, ty) && Tidy(types, mode, ty, slots) && ty < |types| &&
             |slots| == |types[ty]|
    requires !mode.Live?
    requires if empty then Owned(types, false, ty, slots) == multiset{}
             else forall i :: 0 <= i < |types[ty]| ==> !Delicate(types, mode, ty, i)
    ensures FixedClear(types, mode, ty, slots, None, 0)
  {
    hide SoundSchema, Tidy, Owned, Delicate, ClearFrom, Fits, Settable;
    if empty {
      AgainIsSettable(types, mode, ty, slots, true);
      EmptyIsClear(types, mode, ty, slots);
    }
  }

  /** For every harm-free type, whatever is decoded, merged and released, with or without success and with any
      realloc failures: no block is freed twice or freed without being live, no pointer is freed of which bytes were
      overwritten, nothing is written outside its block, and whatever the structure refers to anywhere in its memory
      is live. */
  lemma NeverFreedTwice(types: Schema, ty: nat, h: Heap, calls: seq<Call>)
    requires SoundSchema(types) && HarmFree(types, ty) && ty < |types| && Holds(h, Clean, h.live) &&
             h.lost == multiset{}
    requires Allowed(types, Every, ty, calls, true)
    ensures var (slots, h1) := Run(types, ty, Blank(types, ty), h, calls);
            Holds(h1, Every, h.live + Owned(types, true, ty, slots)) && !h1.bad
  {
    hide SoundSchema, Tidy, Owned, Blank, Run, Allowed, HarmFree;
    BlankOwnsNothing(types, Every, ty);
    assert Owned(types, false, ty, Blank(types, ty)) == multiset{};
    assert Holds(h, Every, h.live + Owned(types, true, ty, Blank(types, ty)));
    RunKeeps(types, Every, ty, Blank(types, ty), h, calls, true, h.live);
  }

  /** A type that can lose no block can come to no harm either. */
  lemma LossFreeIsHarmFree(types: Schema, ty: nat)
    requires SoundSchema(types) && LossFree(types, ty)
    ensures HarmFree(types, ty)
  {
    hide SoundSchema;
    forall path | Leads(types, ty, path) ensures !Risky(types, Every, EndOf(types, ty, path)) {
      RiskyBoth(types, EndOf(types, ty, path));
    }
  }

  lemma RiskyBoth(types: Schema, ty: nat)
    requires ty < |types|
    ensures Risky(types, Every, ty) ==> Risky(types, Clean, ty)
  {
    forall t: nat, i: nat | t < |types| ensures Delicate(types, Every, t, i) ==> Delicate(types, Clean, t, i) {
      DelicateBoth(types, t, i);
    }
  }

  lemma DelicateBoth(types: Schema, ty: nat, i: nat)
    requires ty < |types|
    ensures Delicate(types, Every, ty, i) ==> Delicate(types, Clean, ty, i)
  {
    hide Sturdy, Pointerless;
    if Delicate(types, Every, ty, i) && Pointerless(types, types[ty][i].sub) {
      PointerlessIsSturdy(types, types[ty][i].sub);
    }
  }

  /** pb_decode on a zeroed structure, for every input and every pattern of realloc failures: a failing call
      leaves exactly the blocks that were live before it; a successful one adds exactly those the structure
      owns. */
  lemma DecodeAccounts(types: Schema, ty: nat, h: Heap, s: bytes)
    requires SoundSchema(types) && LossFree(types, ty) && ty < |types| && Holds(h, Clean, h.live)
    ensures var r := HeapDecode(types, ty, Blank(types, ty), h, s);
            && Holds(r.heap, Clean, h.live + Owned(types, false, ty, r.v))
            && (!r.ok ==> r.heap.live == h.live)
  {
    hide SoundSchema, Tidy, Owned, HeapDecode, Blank, LossFree;
    BlankOwnsNothing(types, Clean, ty);
    assert Owned(types, false, ty, Blank(types, ty)) == multiset{};
    DecodeKeeps(types, Clean, ty, Blank(types, ty), h, s, h.live);
  }

  /** Whatever is decoded and merged, with or without success, one pb_release at the end gives back every
      block allocated on the way, each once; a second pb_release frees nothing. */
  lemma ReleaseEndsRun(types: Schema, ty: nat, h: Heap, calls: seq<Call>)
    requires SoundSchema(types) && LossFree(types, ty) && ty < |types| && Holds(h, Clean, h.live) &&
             Allowed(types, Clean, ty, calls, true)
    ensures var (slots, h1) := Run(types, ty, Blank(types, ty), h, calls);
            var (slots2, h2) := Release(types, ty, slots, h1);
            var (_, h3) := Release(types, ty, slots2, h2);
            Holds(h2, Clean, h.live) && Holds(h3, Clean, h.live)
  {
    hide SoundSchema, Holds, Tidy, Owned, Release, Run, Blank, LossFree, Allowed;
    BlankOwnsNothing(types, Clean, ty);
    assert Owned(types, false, ty, Blank(types, ty)) == multiset{};
    assert h.live + multiset{} == h.live;
    RunKeeps(types, Clean, ty, Blank(types, ty), h, calls, true, h.live);
    var (slots, h1) := Run(types, ty, Blank(types, ty), h, calls);
    ReleaseFrees(types, Clean, ty, slots, h1, h.live);
    var (slots2, h2) := Release(types, ty, slots, h1);
    ReleaseFrees(types, Clean, ty, slots2, h2, h.live);
  }

  // ---------------------------------------------------------------- a destination that owns blocks

  /** What the caller can reach afterwards and what it could reach before are all there is. */
  predicate Accounted(types: Schema, ty: nat, dest: seq<PSlot>, h: Heap, r: Out<seq<PSlot>>) {
    r.heap.live + Owned(types, false, ty, dest) == h.live + Owned(types, false, ty, r.v)
  }

  lemma SumEquals(a: multiset<nat>, b: multiset<nat>, c: multiset<nat>)
    ensures a + b == a + c <==> b == c
  {
    if a + b == a + c {
      forall id ensures b[id] == c[id] { assert (a + b)[id] == (a + c)[id]; }
    }
  }

  lemma NoArraysSettable(types: Schema, ty: nat, slots: seq<PSlot>)
    requires NoPointerArrays(types, ty) && ty < |types|
    ensures Unarmed(types, ty, slots)
  {
    hide NoPointerArrays, Unarmed, Sturdy;
    NoArraysIsSturdy(types, ty);
    SturdyIsUnarmed(types, ty, slots);
  }

  /** Over a destination that owns blocks an accepted input adds the blocks of the result and frees none of
      the old ones; so they are accounted for if and only if there were none. */
  lemma AcceptedOver(types: Schema, ty: nat, dest: seq<PSlot>, h: Heap, s: bytes)
    requires SoundSchema(types) && NoPointerArrays(types, ty) && Tidy(types, Live, ty, dest) && Holds(h, Clean, h.live)
    requires HeapDecode(types, ty, dest, h, s).ok
    ensures var r := HeapDecode(types, ty, dest, h, s);
            && Holds(r.heap, Clean, h.live + Owned(types, false, ty, r.v))
            && (Accounted(types, ty, dest, h, r) <==> Owned(types, false, ty, dest) == multiset{})
  {
    hide SoundSchema, Tidy, Owned, HeapDecode, NoPointerArrays, Unarmed;
    assert h.live + multiset{} == h.live;
    TidyLength(types, Live, ty, dest);
    NoArraysSettable(types, ty, dest);
    DecodeKeeps(types, Live, ty, dest, h, s, h.live);
    var r := HeapDecode(types, ty, dest, h, s);
    var own := Owned(types, false, ty, dest);
    SumEquals(r.heap.live, own, multiset{});
  }

  /** Where no count is stored over a pointer, the empty input forgets what defaults forget, accepted or not: when it
      is refused for a missing required field, pb_release finds only what defaults left. */
  lemma EmptyInputOver(types: Schema, ty: nat, dest: seq<PSlot>, h: Heap)
    requires SoundSchema(types) && Tidy(types, Live, ty, dest) && Unarmed(types, ty, dest)
    requires Holds(h, Clean, h.live) && Owned(types, false, ty, dest) <= h.live
    ensures var r := HeapDecode(types, ty, dest, h, []);
            && !r.heap.bad
            && (Accounted(types, ty, dest, h, r) <==>
                 Owned(types, false, ty, dest) == Owned(types, false, ty, Defaults(types, ty, dest)))
    ensures NoPointerArrays(types, ty) ==>
              (Accounted(types, ty, dest, h, HeapDecode(types, ty, dest, h, [])) <==>
                  Owned(types, false, ty, dest) == multiset{})
  {
    hide SoundSchema, Tidy, Owned, Defaults, Release, NoPointerArrays, Unarmed;
    TidyLength(types, Live, ty, dest);
    DefaultsTidy(types, Live, ty, dest);
    DefaultsForget(types, Live, false, ty, dest);
    var start := Defaults(types, ty, dest);
    var own, left := Owned(types, false, ty, dest), Owned(types, false, ty, start);
    var h1 := h.(lost := h.lost + (Owned(types, true, ty, dest) - Owned(types, true, ty, start)));
    var r := HeapDecode(types, ty, dest, h, []);
    if r.ok {
      assert r.v == start && r.heap == h1;
      SumEquals(h.live, own, left);
    } else {
      assert (h.live - left) + left == h.live;
      ReleaseFrees(types, Live, ty, start, h1, h.live - left);
      assert r.heap.live == h.live - left && Owned(types, false, ty, r.v) == multiset{};
      SumEquals(h.live - left, own, left);
    }
    if NoPointerArrays(types, ty) { DefaultsForgetAll(types, ty, dest); }
  }
}
