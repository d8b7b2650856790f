/** Small schemas that show what the ownership theorems distinguish. */
module LeakExamples {
  import opened Wire
  import opened Descriptor
  import opened Options
  import opened DecodeSpec
  import opened HeapDecoder
  import opened Ownership
  import opened HeapRuns
  import opened HeapLeaks

  /** An element with a string pointer; a holder with a fixed-count array of one element; a message with the
      holder embedded as an optional submessage; a message with a counted array of one element; a tower with a
      fixed-count array of one holder; a message with the tower embedded. */
  const ELEMENT: seq<PField> := [PField(Field(1, LString, Optional, Pointer, 0, 0, 8, 0, [], None), 0)]
  const HOLDER: seq<PField> := [PField(Field(1, LSubmessage, Repeated, Static, 0, 0, 8, 1, [], None), 0)]
  const OUTER: seq<PField> := [PField(Field(1, LSubmessage, Optional, Static, 0, 0, 8, 0, [], None), 1)]
  const COUNTED: seq<PField> := [PField(Field(1, LSubmessage, Repeated, Static, 4, -4, 8, 1, [], None), 0)]
  const TOWER: seq<PField> := [PField(Field(1, LSubmessage, Repeated, Static, 0, 0, 8, 1, [], None), 1)]
  const FRAME: seq<PField> := [PField(Field(1, LSubmessage, Optional, Static, 0, 0, 8, 0, [], None), 4)]
  const TYPES: Schema := [ELEMENT, HOLDER, OUTER, COUNTED, TOWER, FRAME]

  /** One record of each type: the string "a", and one element. */
  const ELEMENT_BYTES: bytes := [0x0A, 1, 97]
  const HOLDER_BYTES: bytes := [0x0A, 3, 0x0A, 1, 97]
  const TOWER_BYTES: bytes := [0x0A, 5, 0x0A, 3, 0x0A, 1, 97]

  function Element(v: Val): seq<PSlot> { [PSlot(0, [v])] }

  function Holder(v: Val): seq<PSlot> { [PSlot(0, [Struct(Element(v))])] }

  function Tower(v: Val): seq<PSlot> { [PSlot(0, [Struct(Holder(v))])] }

  function Taken(h: Heap): Heap {
    h.(live := h.live + multiset{h.next}, next := h.next + 1)
  }

  lemma Shapes()
    ensures TYPES[0] == ELEMENT && TYPES[1] == HOLDER && TYPES[2] == OUTER && TYPES[3] == COUNTED
    ensures TYPES[4] == TOWER && TYPES[5] == FRAME
    ensures Bare(ELEMENT) == [ELEMENT[0].f] && Bare(HOLDER) == [HOLDER[0].f] && Bare(OUTER) == [OUTER[0].f] &&
            Bare(COUNTED) == [COUNTED[0].f]
    ensures Bare(TOWER) == [TOWER[0].f] && Bare(FRAME) == [FRAME[0].f]
  {
  }

  lemma Blanks()
    ensures Blank(TYPES, 0) == Element(Null) && Blank(TYPES, 1) == Holder(Null) && Blank(TYPES, 4) == Tower(Null)
  {
    Shapes();
    assert Blank(TYPES, 0) == Element(Null) by { assert BlankSlot(TYPES, 0, 0) == PSlot(0, [Null]); }
    assert Blank(TYPES, 1) == Holder(Null) by {
      assert seq(1, _ => BlankEntry(TYPES, 1, HOLDER[0])) == [Struct(Element(Null))];
      assert BlankSlot(TYPES, 1, 0) == PSlot(0, [Struct(Element(Null))]);
    }
    assert Blank(TYPES, 4) == Tower(Null) by {
      assert seq(1, _ => BlankEntry(TYPES, 4, TOWER[0])) == [Struct(Holder(Null))];
      assert BlankSlot(TYPES, 4, 0) == PSlot(0, [Struct(Holder(Null))]);
    }
  }

  /** The zero count of the holder's array is stored over half of the pointer its first element starts with. */
  lemma HolderDefaults(v: Val)
    ensures Defaults(TYPES, 1, Holder(v)) == Holder(if v.Block? then Wild else v)
  {
    Shapes();
    var w := if v.Block? then Wild else v;
    assert WipedPSlot(TYPES, 0, ELEMENT[0], PSlot(0, [v]), 4, 4) == PSlot(0, [w]);
    assert WipedSlots(TYPES, 0, Element(v), 4) == Element(w);
    assert WipedVals(TYPES, 1, HOLDER[0], [Struct(Element(v))], 4) == [Struct(Element(w))];
    assert DefaultPSlot(TYPES, 1, 0, Holder(v)[0]) == Holder(w)[0];
  }

  lemma ElementDefaults(v: Val)
    ensures Defaults(TYPES, 0, Element(v)) == Element(Null)
  {
    Shapes();
    assert DefaultPSlot(TYPES, 0, 0, PSlot(0, [v])) == PSlot(0, [Null]);
  }

  lemma Freshes()
    ensures Fresh(TYPES, 0) == Element(Null) && Fresh(TYPES, 1) == Holder(Null) && Fresh(TYPES, 4) == Tower(Null)
  {
    hide WipedSlots;
    Shapes();
    Blanks();
    ElementDefaults(Null);
    HolderDefaults(Null);
    BlankWiped(TYPES, 1, 4);
    assert WipedVals(TYPES, 4, TOWER[0], [Struct(Holder(Null))], 4) == [Struct(Holder(Null))];
    assert DefaultPSlot(TYPES, 4, 0, Tower(Null)[0]) == Tower(Null)[0];
  }

  lemma TypesAreSound()
    ensures SoundSchema(TYPES)
  {
    Shapes();
    forall ty | 0 <= ty < |TYPES|
      ensures DistinctTags(Bare(TYPES[ty])) && forall i :: 0 <= i < |TYPES[ty]| ==> SoundField(TYPES, ty, TYPES[ty][i])
    {
      assert ty == 0 || ty == 1 || ty == 2 || ty == 3 || ty == 4 || ty == 5;
    }
  }

  lemma NothingRequired(f: Field)
    requires !f.htype.Required?
    ensures TrackedRequired([f]) == 0
  {
    assert ReqIndex([f], 1) == ReqIndex([f], 0) == 0;
  }

  lemma ElementString(h: Heap)
    requires h.grants == []
    ensures DecHeapBuffer(ELEMENT[0], Null, h, [1, 97]) == Out(true, Block(h.next, 2, []), Taken(h), [])
  {
    var s: bytes := [1, 97];
    assert s[1..] == [97] && [97][1..] == [];
    assert Allocate(Null, 2, 1, h) == (true, Block(h.next, 2, []), Taken(h));
  }

  lemma ElementField(h: Heap)
    requires h.grants == []
    ensures DecHeapField(TYPES, 0, ELEMENT[0], 2, PSlot(0, [Null]), 0, h, [1, 97])
         == Out(true, (PSlot(0, [Block(h.next, 2, [])]), 0), Taken(h), [])
  {
    hide DecHeapBuffer;
    var p := ELEMENT[0];
    var b := Block(h.next, 2, []);
    ElementString(h);
    assert DecHeapTarget(TYPES, p, Null, h, [1, 97]) == Out(true, b, Taken(h), []);
    assert DecHeapSingle(TYPES, p, PSlot(0, [Null]), h, [1, 97]) == Out(true, PSlot(0, [b]), Taken(h), []);
  }

  /** The only field of each type is found by its key. */
  lemma KeyIsTen(s: bytes, f: Field)
    requires s != [] && s[0] == 10 && f.tag == 1
    ensures DecVarint32(s) == Ok(10, s[1..]) && Find([f], 1) == Some(0)
  {
  }

  lemma ElementStep(h: Heap)
    requires h.grants == []
    ensures HeapDecodeNoinit(TYPES, 0, Element(Null), h, ELEMENT_BYTES) ==
            Out(true, Element(Block(h.next, 2, [])), Taken(h), [])
  {
    hide DecHeapField, DecVarint32, Find;
    Shapes();
    var p := ELEMENT[0];
    assert ELEMENT_BYTES[1..] == [1, 97];
    var b := Block(h.next, 2, []);
    ElementField(h);
    KeyIsTen(ELEMENT_BYTES, p.f);
    assert [PSlot(0, [Null])][0 := PSlot(0, [b])] == Element(b);
    var ctl := State([], {}, None, 0);
    assert HeapLoop(TYPES, 0, Element(b), ctl, Taken(h), []) == (Out(true, Element(b), Taken(h), []), ctl);
    assert HeapLoop(TYPES, 0, Element(Null), ctl, h, ELEMENT_BYTES) == (Out(true, Element(b), Taken(h), []), ctl);
    NothingRequired(p.f);
    assert Complete([p.f], ctl);
  }

  lemma ElementDecodes(h: Heap)
    requires h.grants == []
    ensures HeapDecode(TYPES, 0, Element(Null), h, ELEMENT_BYTES) ==
            Out(true, Element(Block(h.next, 2, [])), Taken(h), [])
  {
    hide HeapDecodeNoinit, Defaults;
    Shapes();
    ElementDefaults(Null);
    ElementStep(h);
    var own := Owned(TYPES, true, 0, Element(Null));
    assert h.(lost := h.lost + (own - own)) == h by { assert own - own == multiset{}; }
  }

  lemma HolderField(h: Heap)
    requires h.grants == []
    ensures DecHeapField(TYPES, 1, HOLDER[0], 2, Holder(Null)[0], 0, h, HOLDER_BYTES[1..])
         == Out(true, (Holder(Block(h.next, 2, []))[0], 1), Taken(h), [])
  {
    hide HeapDecode;
    ElementDecodes(h);
    var p := HOLDER[0];
    var s := HOLDER_BYTES[1..];
    assert s == [3] + ELEMENT_BYTES && s[1..] == ELEMENT_BYTES && ELEMENT_BYTES[..3] == ELEMENT_BYTES &&
           ELEMENT_BYTES[3..] == [];
    var b := Block(h.next, 2, []);
    assert TakeDelimited(s) == Ok(ELEMENT_BYTES, []);
    assert DecHeapSub(TYPES, p, Element(Null), h, s) == Out(true, Element(b), Taken(h), []);
    assert DecHeapEntry(TYPES, p, Struct(Element(Null)), h, s) == Out(true, Struct(Element(b)), Taken(h), []);
    assert Holder(Null)[0].vals[0 := Struct(Element(b))] == [Struct(Element(b))];
  }

  lemma HolderStep(h: Heap)
    requires h.grants == []
    ensures HeapDecodeNoinit(TYPES, 1, Holder(Null), h, HOLDER_BYTES) ==
            Out(true, Holder(Block(h.next, 2, [])), Taken(h), [])
  {
    hide DecHeapField, DecVarint32, Find;
    Shapes();
    HolderField(h);
    var p := HOLDER[0];
    var b := Block(h.next, 2, []);
    var slot' := Holder(b)[0];
    KeyIsTen(HOLDER_BYTES, p.f);
    assert Holder(Null)[0 := slot'] == Holder(b);
    var ctl := State([], {}, Some(0), 1);
    assert HeapLoop(TYPES, 1, Holder(b), ctl, Taken(h), []) == (Out(true, Holder(b), Taken(h), []), ctl);
    assert HeapLoop(TYPES, 1, Holder(Null), State([], {}, None, 0), h, HOLDER_BYTES) ==
           (Out(true, Holder(b), Taken(h), []), ctl);
    NothingRequired(p.f);
    assert Complete([p.f], ctl);
  }

  lemma HolderDecodes(h: Heap)
    requires h.grants == []
    ensures HeapDecode(TYPES, 1, Holder(Null), h, HOLDER_BYTES) == Out(true, Holder(Block(h.next, 2, [])), Taken(h), [])
  {
    hide HeapDecodeNoinit, Defaults;
    Shapes();
    HolderDefaults(Null);
    HolderStep(h);
    var own := Owned(TYPES, true, 1, Holder(Null));
    assert h.(lost := h.lost + (own - own)) == h by { assert own - own == multiset{}; }
  }

  lemma TowerField(h: Heap)
    requires h.grants == []
    ensures DecHeapField(TYPES, 4, TOWER[0], 2, Tower(Null)[0], 0, h, TOWER_BYTES[1..])
         == Out(true, (Tower(Block(h.next, 2, []))[0], 1), Taken(h), [])
  {
    hide HeapDecode;
    HolderDecodes(h);
    var p := TOWER[0];
    var s := TOWER_BYTES[1..];
    assert s == [5] + HOLDER_BYTES && s[1..] == HOLDER_BYTES && HOLDER_BYTES[..5] == HOLDER_BYTES &&
           HOLDER_BYTES[5..] == [];
    var b := Block(h.next, 2, []);
    assert TakeDelimited(s) == Ok(HOLDER_BYTES, []);
    assert DecHeapSub(TYPES, p, Holder(Null), h, s) == Out(true, Holder(b), Taken(h), []);
    assert DecHeapEntry(TYPES, p, Struct(Holder(Null)), h, s) == Out(true, Struct(Holder(b)), Taken(h), []);
    assert Tower(Null)[0].vals[0 := Struct(Holder(b))] == [Struct(Holder(b))];
  }

  lemma TowerStep(h: Heap)
    requires h.grants == []
    ensures HeapDecodeNoinit(TYPES, 4, Tower(Null), h, TOWER_BYTES) ==
            Out(true, Tower(Block(h.next, 2, [])), Taken(h), [])
  {
    hide DecHeapField, DecVarint32, Find;
    Shapes();
    TowerField(h);
    var p := TOWER[0];
    var b := Block(h.next, 2, []);
    var slot' := Tower(b)[0];
    KeyIsTen(TOWER_BYTES, p.f);
    assert Tower(Null)[0 := slot'] == Tower(b);
    var ctl := State([], {}, Some(0), 1);
    assert HeapLoop(TYPES, 4, Tower(b), ctl, Taken(h), []) == (Out(true, Tower(b), Taken(h), []), ctl);
    assert HeapLoop(TYPES, 4, Tower(Null), State([], {}, None, 0), h, TOWER_BYTES) ==
           (Out(true, Tower(b), Taken(h), []), ctl);
    NothingRequired(p.f);
    assert Complete([p.f], ctl);
  }

  // ---------------------------------------------------------------- a block is lost

  lemma ElementForgets(b: Val)
    requires b.Block?
    ensures Owned(TYPES, true, 0, Element(b)) == multiset{b.id} && Below(TYPES, false, 0, Element(b), [])
  {
    Shapes();
    ElementDefaults(b);
    assert OwnedUpTo(TYPES, true, 0, Element(b), 0) == multiset{};
    assert OwnedCurrent(TYPES, true, ELEMENT[0], PSlot(0, [b])) == multiset{b.id};
    assert OwnedUpTo(TYPES, true, 0, Element(b), 1) == multiset{b.id};
    assert OwnedUpTo(TYPES, true, 0, Element(Null), 0) == multiset{};
    assert OwnedUpTo(TYPES, true, 0, Element(Null), 1) == multiset{};
    assert b.id in multiset{b.id} - multiset{};
  }

  /** The holder is safe on its own; embedded, a second record of it leaks. */
  lemma FixedCountLeaks()
    ensures SoundSchema(TYPES) && LossFree(TYPES, 1) && NeverLeaks(TYPES, 1)
    ensures !LossFree(TYPES, 2) && !NeverLeaks(TYPES, 2)
  {
    hide SoundSchema, LossFree, NeverLeaks, Shows, HurtBytes;
    TypesAreSound();
    HolderIsLossFree();
    LossFreeIsExact(TYPES, 1);
    OuterShows();
    var ev := Embedded(0, 0, HOLDER_BYTES, []);
    assert Leads(TYPES, 2, []) && EndOf(TYPES, 2, []) == 2;
    RiskyHurts(TYPES, false, 2, [], ev);
    assert Shown(TYPES, false, 2);
    LossFreeIsExact(TYPES, 2);
  }

  lemma OuterShows()
    ensures Shows(TYPES, false, 2, Embedded(0, 0, HOLDER_BYTES, []))
  {
    hide HeapDecodeNoinit, Below, Fresh;
    Shapes();
    Freshes();
    forall h: Heap | h.grants == []
      ensures var r := HeapDecodeNoinit(TYPES, 1, Fresh(TYPES, 1), h, HOLDER_BYTES);
              r.ok && Loaded(TYPES, false, 1, r.v, 0, [])
    {
      HolderStep(h);
      ElementForgets(Block(h.next, 2, []));
    }
    assert |Reload(TYPES, 1, 0, [])| < TWO32 by { ReloadIsShort(1); }
  }

  lemma ReloadIsShort(ty: nat)
    requires ty == 1 || ty == 4
    ensures |Reload(TYPES, ty, 0, [])| < TWO32
  {
    Shapes();
    assert Reload(TYPES, ty, 0, []) == EncVarint(10) + (EncVarint(0) + []);
  }

  lemma {:induction false} HolderIsLossFree()
    ensures LossFree(TYPES, 1)
  {
    Shapes();
    forall path | Leads(TYPES, 1, path) ensures !Risky(TYPES, Clean, EndOf(TYPES, 1, path)) {
      if path != [] {
        assert TYPES[1][path[0]].sub == 0;
        var rest := path[1..];
        assert Leads(TYPES, 0, rest);
        assert EndOf(TYPES, 1, path) == 0;
      }
    }
  }

  // ---------------------------------------------------------------- a pointer is overwritten

  /** Releasing the holder with the spoiled pointer frees it. */
  lemma WildHolderIsDoomed()
    ensures Doomed(TYPES, 1, Holder(Wild))
  {
    Shapes();
    forall h: Heap ensures Release(TYPES, 1, Holder(Wild), h).1.bad {
      assert ReleaseCurrent(TYPES, ELEMENT[0], PSlot(0, [Wild]), h).1.bad;
      assert ReleaseUpTo(TYPES, 0, Element(Wild), 0, h) == (Element(Wild), h);
      assert Release(TYPES, 0, Element(Wild), h).1.bad;
      assert ReleaseEntries(TYPES, 0, [Struct(Element(Wild))], 0, h) == ([Struct(Element(Wild))], h);
      assert ReleaseEntries(TYPES, 0, [Struct(Element(Wild))], 1, h).1.bad;
      assert ReleaseCurrent(TYPES, HOLDER[0], Holder(Wild)[0], h).1.bad;
      assert ReleaseUpTo(TYPES, 1, Holder(Wild), 0, h) == (Holder(Wild), h);
    }
  }

  lemma HolderIsArmed(b: Val)
    requires b.Block?
    ensures Below(TYPES, true, 1, Holder(b), [])
  {
    hide Defaults, Doomed;
    Shapes();
    HolderDefaults(b);
    WildHolderIsDoomed();
  }

  /** The tower comes to no harm when it is decoded and released. Embedded in a message, a second record of it with
      one empty holder makes the decoder store a count over half of a live pointer, and pb_release frees the rest. */
  lemma StoreHarms()
    ensures SoundSchema(TYPES) && HarmFree(TYPES, 4) && NeverHarms(TYPES, 4)
    ensures !HarmFree(TYPES, 5) && !NeverHarms(TYPES, 5)
  {
    hide SoundSchema, HarmFree, NeverHarms, Shows, HurtBytes;
    TypesAreSound();
    TowerIsHarmFree();
    HarmFreeIsExact(TYPES, 4);
    FrameShows();
    var ev := Embedded(0, 0, TOWER_BYTES, []);
    assert Leads(TYPES, 5, []) && EndOf(TYPES, 5, []) == 5;
    RiskyHurts(TYPES, true, 5, [], ev);
    assert Shown(TYPES, true, 5);
    HarmFreeIsExact(TYPES, 5);
  }

  lemma FrameShows()
    ensures Shows(TYPES, true, 5, Embedded(0, 0, TOWER_BYTES, []))
  {
    hide HeapDecodeNoinit, Below, Fresh;
    Shapes();
    Freshes();
    forall h: Heap | h.grants == []
      ensures var r := HeapDecodeNoinit(TYPES, 4, Fresh(TYPES, 4), h, TOWER_BYTES);
              r.ok && Loaded(TYPES, true, 4, r.v, 0, [])
    {
      TowerStep(h);
      HolderIsArmed(Block(h.next, 2, []));
    }
    assert |Reload(TYPES, 4, 0, [])| < TWO32 by { ReloadIsShort(4); }
  }

  lemma {:induction false} TowerIsHarmFree()
    ensures HarmFree(TYPES, 4)
  {
    hide Sturdy, Pointerless;
    Shapes();
    forall path | Leads(TYPES, 4, path) ensures !Risky(TYPES, Every, EndOf(TYPES, 4, path)) {
      TowerLeads(path);
    }
  }

  lemma {:induction false} TowerLeads(path: seq<nat>)
    requires Leads(TYPES, 4, path)
    ensures EndOf(TYPES, 4, path) == 4 || EndOf(TYPES, 4, path) == 1 || EndOf(TYPES, 4, path) == 0
  {
    Shapes();
    if path != [] {
      var rest := path[1..];
      assert Leads(TYPES, 1, rest) && EndOf(TYPES, 4, path) == EndOf(TYPES, 1, rest);
      if rest != [] { assert Leads(TYPES, 0, rest[1..]) && EndOf(TYPES, 1, rest) == EndOf(TYPES, 0, rest[1..]); }
    }
  }

  /** The calls that are not allowed: merging into the tower, and decoding into the holder again, without a release
      in between. The bytes are one empty holder, and none at all. */
  lemma ForbiddenCallsHarm(b: Val, h: Heap)
    requires b.Block?
    ensures !Allowed(TYPES, Every, 4, [Merge([0x0A, 0])], false) && !Allowed(TYPES, Every, 1, [Decode([])], false)
    ensures Run(TYPES, 4, Tower(b), h, [Merge([0x0A, 0]), ReleaseIt]).1.bad
    ensures Run(TYPES, 1, Holder(b), h, [Decode([]), ReleaseIt]).1.bad
  {
    hide HeapDecode, HeapDecodeNoinit, Release, Below, Sturdy;
    Shapes();
    TypesAreSound();
    HolderIsNotSturdy();
    HolderIsArmed(b);
    assert Follow(TYPES, 1, []) == [];
    AgainHurts(TYPES, true, 1, Holder(b), [], h);
    RunTwo(1, Holder(b), h, Decode([]));
    assert Reload(TYPES, 4, 0, []) == [0x0A, 0] by { ReloadIs(); }
    assert Loaded(TYPES, true, 4, Tower(b), 0, []);
    NoinitReloads(TYPES, true, 4, Tower(b), 0, [], h);
    RunTwo(4, Tower(b), h, Merge([0x0A, 0]));
    assert Delicate(TYPES, Every, 4, 0);
  }

  lemma ReloadIs()
    ensures Reload(TYPES, 4, 0, []) == [0x0A, 0]
  {
    Shapes();
    assert EncVarint(10) == [10] && EncVarint(0) == [0];
    assert Reload(TYPES, 4, 0, []) == EncVarint(10) + (EncVarint(0) + []);
  }

  lemma HolderIsNotSturdy()
    ensures !Sturdy(TYPES, 1)
  {
    Shapes();
    assert ReachesPointer(TYPES, 0, 0, 4 - DataOffset(Bare(ELEMENT), 0));
    assert StartsWithPointer(TYPES, 0, COUNT_BYTES);
    assert InMemory(TYPES, 1, 0) && FixedCount(HOLDER[0].f);
  }

  lemma RunTwo(ty: nat, slots: seq<PSlot>, h: Heap, call: Call)
    requires !call.ReleaseIt?
    ensures var r := if call.Decode? then HeapDecode(TYPES, ty, slots, h, call.s)
            else HeapDecodeNoinit(TYPES, ty, slots, h, call.s);
            Run(TYPES, ty, slots, h, [call, ReleaseIt]).1 == Release(TYPES, ty, r.v, r.heap).1
  {
    hide HeapDecode, HeapDecodeNoinit, Release;
    assert [call, ReleaseIt][1..] == [ReleaseIt] && [ReleaseIt][1..] == [];
    var r := if call.Decode? then HeapDecode(TYPES, ty, slots, h, call.s)
        else HeapDecodeNoinit(TYPES, ty, slots, h, call.s);
    assert Run(TYPES, ty, slots, h, [call, ReleaseIt]) == Run(TYPES, ty, r.v, r.heap, [ReleaseIt]);
    assert Run(TYPES, ty, r.v, r.heap, [ReleaseIt]) == Release(TYPES, ty, r.v, r.heap) by {
      assert forall s: seq<PSlot>, g: Heap :: Run(TYPES, ty, s, g, []) == (s, g);
    }
  }

  // ---------------------------------------------------------------- a refused input over old contents

  /** A counted array whose one element owns a block, and a record without its length: the count is raised
      before the record is refused, so pb_release finds the old element and frees its block. */
  lemma RefusedFreesStale()
    ensures var dest := [PSlot(1, [Struct(Element(Block(0, 2, [])))])];
            var r := HeapDecode(TYPES, 3, dest, Heap(multiset{0}, 1, [], multiset{}, false), [0x0A]);
            !r.ok && r.heap.live == multiset{} && !r.heap.bad
  {
    Shapes();
    var b := Block(0, 2, []);
    var dest := [PSlot(1, [Struct(Element(b))])];
    var start := [PSlot(0, [Struct(Element(b))])];
    assert Defaults(TYPES, 3, dest) == start by { assert DefaultPSlot(TYPES, 3, 0, dest[0]) == start[0]; }
    var h := Heap(multiset{0}, 1, [], multiset{}, false);
    var h1 := h.(lost := h.lost + (Owned(TYPES, true, 3, dest) - Owned(TYPES, true, 3, start)));
    var p := COUNTED[0];
    assert DecHeapEntry(TYPES, p, Struct(Element(b)), h1, []) == Out(false, Struct(Element(b)), h1, []);
    assert start[0].vals[0 := Struct(Element(b))] == dest[0].vals;
    assert DecHeapField(TYPES, 3, p, 2, start[0], 0, h1, []) == Out(false, (dest[0], 0), h1, []);
    assert Find([p.f], 1) == Some(0);
    assert start[0 := dest[0]] == dest;
    var s: bytes := [0x0A];
    assert s[1..] == [];
    var r := HeapLoop(TYPES, 3, start, State([], {}, None, 0), h1, s).0;
    assert r == Out(false, dest, h1, []);
    StaleRelease(b, h1);
  }

  lemma StaleRelease(b: Val, h: Heap)
    requires b == Block(0, 2, []) && h.live == multiset{0} && !h.bad
    ensures var h' := Release(TYPES, 3, [PSlot(1, [Struct(Element(b))])], h).1; h'.live == multiset{} && !h'.bad
  {
    Shapes();
    var h' := Free(b, h);
    assert ReleaseCurrent(TYPES, ELEMENT[0], PSlot(0, [b]), h) == (PSlot(0, [Null]), h');
    assert ReleaseUpTo(TYPES, 0, Element(b), 0, h) == (Element(b), h);
    assert Release(TYPES, 0, Element(b), h).1 == h';
    assert ReleaseEntries(TYPES, 0, [Struct(Element(b))], 0, h) == ([Struct(Element(b))], h);
    assert ReleaseEntries(TYPES, 0, [Struct(Element(b))], 1, h).1 == h';
    var slot := PSlot(1, [Struct(Element(b))]);
    assert ReleaseCurrent(TYPES, COUNTED[0], slot, h).1 == h';
    assert ReleaseUpTo(TYPES, 3, [slot], 0, h) == ([slot], h);
  }
}
