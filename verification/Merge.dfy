/** Decoding as merging: concatenated inputs, repeated submessage records, unknown records. */
module Merge {
  import opened Wire
  import opened Descriptor
  import opened Options
  import opened EncodeSpec
  import opened DecodeSpec
  import opened RoundTrip
  import opened WireFormat

  /** No array of this message type relies on the loop-local element counter. */
  predicate NoFixedCount(fields: seq<Field>) {
    forall i :: 0 <= i < |fields| ==> !FixedCount(fields[i])
  }

  // ---------------------------------------------------------------- concatenation

  function Seen(st: State, x: set<nat>): State {
    st.(seen := st.seen + x)
  }

  function SeenOutcome(r: Outcome, x: set<nat>): Outcome {
    match r
    case Failed => Failed
    case Done(st, rest, stopped) => Done(Seen(st, x), rest, stopped)
  }

  lemma RecordIgnoresSeen(fields: seq<Field>, st: State, x: set<nat>, s: bytes)
    requires |st.msg| == |fields|
    ensures DecRecord(fields, Seen(st, x), s) ==
            match DecRecord(fields, st, s)
            case Next(st', rest) => Next(Seen(st', x), rest)
            case Stop(rest) => Stop(rest)
            case Fail => Fail
  {
    hide DecSlot, DecVarint32, Home, ReqIndex;
    forall i | 0 <= i < |fields| ensures MarkSeen(fields, st.seen + x, i) == MarkSeen(fields, st.seen, i) + x {
    }
  }

  /** Which required fields were seen before has no influence on how records are decoded. */
  lemma {:induction false} LoopIgnoresSeen(fields: seq<Field>, st: State, x: set<nat>, s: bytes)
    requires |st.msg| == |fields|
    ensures DecLoop(fields, Seen(st, x), s) == SeenOutcome(DecLoop(fields, st, s), x)
    decreases |s|
  {
    hide DecRecord;
    if s != [] {
      RecordIgnoresSeen(fields, st, x, s);
      var r := DecRecord(fields, st, s);
      if r.Next? { LoopIgnoresSeen(fields, r.st, x, r.rest); }
    }
  }

  lemma SlotKeepsCounter(fields: seq<Field>, f: Field, wireType: nat, slot: Slot, got: nat, s: bytes)
    requires !FixedCount(f)
    ensures var r := DecSlot(fields, f, wireType, slot, got, s); r.Ok? ==> r.value.1 == got
  {
    hide DecDatum, DecPacked, TakeDelimited;
  }

  lemma RecordKeepsNoFixed(fields: seq<Field>, st: State, s: bytes)
    requires |st.msg| == |fields| && NoFixedCount(fields)
    ensures var r := DecRecord(fields, st, s); r.Next? ==> r.st.fixed == st.fixed && r.st.got == st.got
  {
    hide DecSlot, DecVarint32;
    match DecVarint32(s)
    case Err =>
    case Ok(key, rest) =>
      var i := Find(fields, key / 8);
      if i.Some? {
        SlotKeepsCounter(fields, fields[i.value], key % 8, st.msg[Home(fields, i.value)], st.got, rest);
      }
  }

  lemma {:induction false} LoopKeepsNoFixed(fields: seq<Field>, st: State, s: bytes)
    requires |st.msg| == |fields| && NoFixedCount(fields)
    ensures var r := DecLoop(fields, st, s); r.Done? ==> r.st.fixed == st.fixed && r.st.got == st.got
    decreases |s|
  {
    hide DecRecord;
    if s != [] {
      RecordKeepsNoFixed(fields, st, s);
      var r := DecRecord(fields, st, s);
      if r.Next? { LoopKeepsNoFixed(fields, r.st, r.rest); }
    }
  }

  /** One run over a + b does what a run over a and then a run over b do: same structure, same unread bytes,
      same failure, and the required fields seen are those of both. */
  lemma ConcatenationMerges(fields: seq<Field>, m: Message, a: bytes, st: State, b: bytes)
    requires |m| == |fields| && NoFixedCount(fields) && Runs(fields, Initial(m), a, st)
    ensures |st.msg| == |fields|
    ensures DecLoop(fields, Initial(m), a + b) == SeenOutcome(DecLoop(fields, Initial(st.msg), b), st.seen)
  {
    DecLoopResumes(fields, Initial(m), a, st, b);
    LoopKeepsNoFixed(fields, Initial(m), a);
    assert Seen(Initial(st.msg), st.seen) == st;
    LoopIgnoresSeen(fields, Initial(st.msg), st.seen, b);
  }

  // ---------------------------------------------------------------- arrays without a count

  /** The first fixed-count field that the loop comes upon. */
  function FirstFixed(fields: seq<Field>, st: State, s: bytes): Option<nat>
    requires |st.msg| == |fields|
    decreases |s|
  {
    if s == [] then None
    else match NextField(fields, s)
      case Some(i) =>
        if FixedCount(fields[i]) then Some(i)
        else (match DecRecord(fields, st, s) case Next(st', rest) => FirstFixed(fields, st', rest) case _ => None)
      case None => match DecRecord(fields, st, s) case Next(st', rest) => FirstFixed(fields, st', rest) case _ => None
  }

  /** The known field whose record comes next. */
  function NextField(fields: seq<Field>, s: bytes): (r: Option<nat>)
    ensures r.Some? ==> r.value < |fields|
  {
    match DecVarint32(s)
    case Err => None
    case Ok(key, _) => if key == 0 then None else Find(fields, key / 8)
  }

  /** As if no array had been received yet. */
  function Unfixed(st: State): State {
    st.(fixed := None, got := 0)
  }

  lemma SlotIgnoresCounter(fields: seq<Field>, f: Field, wireType: nat, slot: Slot, a: nat, b: nat, s: bytes)
    requires !FixedCount(f)
    ensures var r, q := DecSlot(fields, f, wireType, slot, a, s), DecSlot(fields, f, wireType, slot, b, s);
            r.Ok? == q.Ok? && (r.Ok? ==> r.rest == q.rest && r.value == (q.value.0, a) && q.value.1 == b)
  {
    hide DecDatum, DecPacked, TakeDelimited;
  }

  /** A record of anything else is decoded alike whatever array is in progress. */
  lemma OtherRecord(fields: seq<Field>, st: State, fixed: Option<nat>, got: nat, s: bytes)
    requires |st.msg| == |fields|
    requires NextField(fields, s).Some? ==> !FixedCount(fields[NextField(fields, s).value])
    ensures DecRecord(fields, st.(fixed := fixed, got := got), s) ==
            match DecRecord(fields, st, s)
            case Next(st', rest) => Next(st'.(fixed := fixed, got := got), rest)
            case Stop(rest) => Stop(rest)
            case Fail => Fail
    ensures var r := DecRecord(fields, st, s); r.Next? ==> r.st.fixed == st.fixed && r.st.got == st.got
  {
    hide DecSlot, DecVarint32, Find, Home, MarkSeen;
    match DecVarint32(s)
    case Err =>
    case Ok(key, rest) =>
      var i := Find(fields, key / 8);
      if key != 0 && i.Some? {
        SlotIgnoresCounter(fields, fields[i.value], key % 8, st.msg[Home(fields, i.value)], st.got, got, rest);
      }
  }

  lemma FixedRecord(fields: seq<Field>, st: State, s: bytes)
    requires |st.msg| == |fields| && NextField(fields, s).Some?
    ensures var i := NextField(fields, s).value;
            DecRecord(fields, st, s) == DecField(fields, st, i, DecVarint32(s).value % 8, DecVarint32(s).rest)
  {
    hide DecField, DecVarint32, Find;
  }

  /** Once an array is complete and another one, or none, comes next, the loop goes on as if it started here. */
  lemma {:induction false} LoopIgnoresFixed(fields: seq<Field>, st: State, s: bytes)
    requires |st.msg| == |fields| && FixedComplete(fields, st)
    requires st.fixed.None? || FirstFixed(fields, Unfixed(st), s) != st.fixed
    ensures var r, q := DecLoop(fields, st, s), DecLoop(fields, Unfixed(st), s);
            && r.Done? == q.Done?
            && (r.Done? ==> && r.rest == q.rest && r.stopped == q.stopped
                            && (r.st == q.st ||
                                 (q.st == Unfixed(r.st) && r.st.fixed == st.fixed && r.st.got == st.got)))
    decreases |s|
  {
    hide DecRecord, DecField, Find;
    if s != [] {
      var i := NextField(fields, s);
      if i.Some? && FixedCount(fields[i.value]) {
        FixedRecord(fields, st, s);
        FixedRecord(fields, Unfixed(st), s);
        FreshStart(fields, st, i.value, DecVarint32(s).value % 8, DecVarint32(s).rest);
      } else {
        OtherRecord(fields, st, None, 0, s);
        var r := DecRecord(fields, st, s);
        if r.Next? { LoopIgnoresFixed(fields, r.st, r.rest); }
      }
    }
  }

  lemma FreshStart(fields: seq<Field>, st: State, i: nat, wireType: nat, s: bytes)
    requires |st.msg| == |fields| && i < |fields| && FixedCount(fields[i]) && st.fixed != Some(i) &&
             FixedComplete(fields, st)
    ensures DecField(fields, st, i, wireType, s) == DecField(fields, Unfixed(st), i, wireType, s)
  {
    hide DecSlot, MarkSeen, Home;
  }

  /** While array j stays without an element here and is full there, any element of it is refused there. */
  predicate FullBeside(fields: seq<Field>, st: State, j: nat) {
    |st.msg| == |fields| && j < |fields| && FixedCount(fields[j]) && fields[j].arraySize > 0 && st.fixed == Some(j) &&
        st.got == 0
  }

  function Full(fields: seq<Field>, st: State, j: nat): State
    requires j < |fields|
  {
    st.(fixed := Some(j), got := fields[j].arraySize)
  }

  lemma FullSlot(fields: seq<Field>, f: Field, wireType: nat, slot: Slot, s: bytes)
    requires FixedCount(f) && f.arraySize > 0
    ensures var r, q := DecSlot(fields, f, wireType, slot, 0, s), DecSlot(fields, f, wireType, slot, f.arraySize, s);
            q.Ok? ==> r.Ok? && r.value == (slot, 0) && q.value == (slot, f.arraySize) && q.rest == r.rest
    ensures var r := DecSlot(fields, f, wireType, slot, 0, s);
            r.Ok? && r.value == (slot, 0) ==> DecSlot(fields, f, wireType, slot, f.arraySize, s).Ok?
  {
    hide DecDatum, TakeDelimited, DecLeaf;
    match slot
    case Many(count, items) =>
      if wireType == WT_STRING && Packable(f) {
        var r := TakeDelimited(s);
        if r.Ok? { PackedMoves(f, items, 0, r.value); PackedMoves(f, items, f.arraySize, r.value); }
      }
    case _ =>
  }

  lemma {:induction false} PackedMoves(f: Field, items: seq<Datum>, n: nat, s: bytes)
    ensures var r := DecPacked(f, items, n, s);
            if s == [] then r == Some((items, n)) else r.Some? ==> r.value.1 > n && n < f.arraySize
  {
    hide DecLeaf;
  }

  /** The run that starts the array again fills it, so that the run that had filled it before refuses. */
  lemma {:induction false} FullArrayRefuses(fields: seq<Field>, st: State, j: nat, s: bytes)
    requires FullBeside(fields, st, j)
    requires var r := DecLoop(fields, st, s); r.Done? && FixedComplete(fields, r.st)
    ensures DecLoop(fields, Full(fields, st, j), s).Failed?
    decreases |s|
  {
    hide DecRecord, DecField, Find;
    if s != [] {
      var i := NextField(fields, s);
      var full := Full(fields, st, j);
      if i.Some? && FixedCount(fields[i.value]) {
        FixedRecord(fields, st, s);
        FixedRecord(fields, full, s);
        FullField(fields, st, j, i.value, DecVarint32(s).value % 8, DecVarint32(s).rest);
        var r := DecRecord(fields, st, s);
        if r.Next? && DecRecord(fields, full, s).Next? { FullArrayRefuses(fields, r.st, j, r.rest); }
      } else {
        OtherRecord(fields, st, full.fixed, full.got, s);
        var r := DecRecord(fields, st, s);
        if r.Next? { FullArrayRefuses(fields, r.st, j, r.rest); }
      }
    }
  }

  lemma FullField(fields: seq<Field>, st: State, j: nat, i: nat, wireType: nat, s: bytes)
    requires FullBeside(fields, st, j) && i < |fields| && FixedCount(fields[i])
    ensures var r, q := DecField(fields, st, i, wireType, s), DecField(fields, Full(fields, st, j), i, wireType, s);
            && (r.Next? && q.Next? ==> FullBeside(fields, r.st, j) && q == Next(Full(fields, r.st, j), r.rest))
            && (i != j ==> r.Fail?) && !q.Stop?
  {
    hide DecSlot, MarkSeen;
    if i == j {
      FullSlot(fields, fields[j], wireType, st.msg[j], s);
      assert st.msg[j := st.msg[j]] == st.msg;
    }
  }

  /** Up to its first record of array j both runs agree; from there on the full one refuses. */
  lemma {:induction false} ResumedArrayFails(fields: seq<Field>, st: State, j: nat, s: bytes)
    requires |st.msg| == |fields| && st.fixed.None? && st.got == 0 && j < |fields| && FixedCount(fields[j]) &&
             fields[j].arraySize > 0
    requires FirstFixed(fields, st, s) == Some(j)
    requires var r := DecLoop(fields, st, s); r.Done? && FixedComplete(fields, r.st)
    ensures DecLoop(fields, Full(fields, st, j), s).Failed?
    decreases |s|
  {
    hide DecRecord, DecField, Find;
    var full := Full(fields, st, j);
    var i := NextField(fields, s);
    if i.Some? && FixedCount(fields[i.value]) {
      FixedRecord(fields, st, s);
      FixedRecord(fields, full, s);
      var started := st.(fixed := Some(j), got := 0);
      var w, t := DecVarint32(s).value % 8, DecVarint32(s).rest;
      assert DecField(fields, st, j, w, t) == DecField(fields, started, j, w, t)
             by { StartedAlready(fields, st, j, w, t); }
      FixedRecord(fields, started, s);
      assert DecLoop(fields, started, s) == DecLoop(fields, st, s);
      FullArrayRefuses(fields, started, j, s);
    } else {
      OtherRecord(fields, st, full.fixed, full.got, s);
      var r := DecRecord(fields, st, s);
      ResumedArrayFails(fields, r.st, j, r.rest);
    }
  }

  lemma StartedAlready(fields: seq<Field>, st: State, j: nat, wireType: nat, s: bytes)
    requires |st.msg| == |fields| && j < |fields| && FixedCount(fields[j]) && st.fixed.None?
    ensures DecField(fields, st, j, wireType, s) == DecField(fields, st.(fixed := Some(j), got := 0), j, wireType, s)
  {
    hide DecSlot, MarkSeen, Home;
  }

  /** The array in progress at the end of a, if any, is not the first one that b comes upon. */
  predicate Apart(fields: seq<Field>, m: Message, a: bytes, m1: Message, b: bytes)
    requires |m| == |m1| == |fields|
  {
    match DecLoop(fields, Initial(m), a)
    case Done(st, _, _) => st.fixed.None? || FirstFixed(fields, Initial(m1), b) != st.fixed
    case Failed => true
  }

  /** Merging two messages by decoding the second into the structure that holds the first is the same as decoding
      their concatenation, exactly if the second does not come upon the array first that the first one ended with;
      otherwise the concatenation is refused. */
  lemma DecodeConcatenation(fields: seq<Field>, m: Message, a: bytes, m1: Message, b: bytes, m2: Message, rest: bytes)
    requires WellFormed(fields) && |m| == |fields|
    requires DecMessage(fields, m, a) == Ok(m1, []) && DecLoop(fields, Initial(m), a).Done? &&
             !DecLoop(fields, Initial(m), a).stopped
    requires DecMessage(fields, m1, b) == Ok(m2, rest)
    ensures DecMessage(fields, m, a + b) == if Apart(fields, m, a, m1, b) then Ok(m2, rest) else Err
  {
    hide DecLoop, WellFormed, FirstFixed;
    var st := DecLoop(fields, Initial(m), a).st;
    DecLoopResumes(fields, Initial(m), a, st, b);
    var plain := State(m1, {}, st.fixed, st.got);
    assert Seen(plain, st.seen) == st && Unfixed(plain) == Initial(m1);
    LoopIgnoresSeen(fields, plain, st.seen, b);
    if Apart(fields, m, a, m1, b) {
      LoopIgnoresFixed(fields, plain, b);
    } else {
      InProgress(fields, m, a);
      var j := st.fixed.value;
      assert WellFormedField(fields[j]) by { FieldOf(fields, j); }
      ResumedArrayFails(fields, Initial(m1), j, b);
      assert plain == Full(fields, Initial(m1), j);
    }
  }

  /** Without fixed-count fields messages are always apart. */
  lemma NoFixedIsApart(fields: seq<Field>, m: Message, a: bytes, m1: Message, b: bytes)
    requires |m| == |m1| == |fields| && NoFixedCount(fields)
    ensures Apart(fields, m, a, m1, b)
  {
    hide DecLoop, FirstFixed;
    LoopKeepsNoFixed(fields, Initial(m), a);
  }

  /** The array in progress is a fixed-count array of the message. */
  lemma InProgress(fields: seq<Field>, m: Message, a: bytes)
    requires |m| == |fields| && DecLoop(fields, Initial(m), a).Done?
    ensures var st := DecLoop(fields, Initial(m), a).st;
            st.fixed.Some? ==> st.fixed.value < |fields| && FixedCount(fields[st.fixed.value])
  {
    hide DecLoop;
    LoopInProgress(fields, Initial(m), a);
  }

  lemma RecordInProgress(fields: seq<Field>, st: State, s: bytes)
    requires |st.msg| == |fields| &&
             (st.fixed.Some? ==> st.fixed.value < |fields| && FixedCount(fields[st.fixed.value]))
    ensures var r := DecRecord(fields, st, s);
            r.Next? && r.st.fixed.Some? ==> r.st.fixed.value < |fields| && FixedCount(fields[r.st.fixed.value])
  {
    hide DecSlot, DecField, Find;
    var i := NextField(fields, s);
    if i.Some? {
      FixedRecord(fields, st, s);
      FieldInProgress(fields, st, i.value, DecVarint32(s).value % 8, DecVarint32(s).rest);
    }
    else { OtherRecord(fields, st, st.fixed, st.got, s); }
  }

  lemma FieldInProgress(fields: seq<Field>, st: State, i: nat, wireType: nat, s: bytes)
    requires |st.msg| == |fields| && i < |fields|
    requires st.fixed.Some? ==> st.fixed.value < |fields| && FixedCount(fields[st.fixed.value])
    ensures var r := DecField(fields, st, i, wireType, s);
            r.Next? && r.st.fixed.Some? ==> r.st.fixed.value < |fields| && FixedCount(fields[r.st.fixed.value])
  {
    hide DecSlot, MarkSeen, Home;
  }

  lemma {:induction false} LoopInProgress(fields: seq<Field>, st: State, s: bytes)
    requires |st.msg| == |fields| &&
             (st.fixed.Some? ==> st.fixed.value < |fields| && FixedCount(fields[st.fixed.value]))
    ensures var r := DecLoop(fields, st, s);
            r.Done? && r.st.fixed.Some? ==> r.st.fixed.value < |fields| && FixedCount(fields[r.st.fixed.value])
    decreases |s|
  {
    hide DecRecord;
    if s != [] {
      RecordInProgress(fields, st, s);
      var r := DecRecord(fields, st, s);
      if r.Next? { LoopInProgress(fields, r.st, r.rest); }
    }
  }

  // ---------------------------------------------------------------- the last one wins

  lemma {:induction false} TerminatedAlike(x: bytes, t: bytes, u: bytes)
    ensures CStr(x + [0] + t) == CStr(x + [0] + u)
  {
    if x != [] {
      assert (x + [0] + t)[1..] == x[1..] + [0] + t && (x + [0] + u)[1..] == x[1..] + [0] + u;
      TerminatedAlike(x[1..], t, u);
    }
  }

  /** Two readings agree on success, on what is left unread and on what the user sees. */
  predicate SameReading(f: Field, a: Res<Datum>, b: Res<Datum>) {
    match a
    case Err => b.Err?
    case Ok(d, rest) => b.Ok? && b.rest == rest && ViewDatum(f, b.value) == ViewDatum(f, d)
  }

  lemma LeafIgnoresPrevious(f: Field, a: Datum, b: Datum, s: bytes)
    requires SizesFit(f) && !f.ltype.LSubmessage? && ShapedDatum(f, a) && ShapedDatum(f, b)
    ensures SameReading(f, DecLeaf(f, a, s), DecLeaf(f, b, s))
  {
    hide DecVarint32, DecVarint, DecFixed, CStr;
    if f.ltype.LString? && DecLeaf(f, a, s).Ok? {
      var size, t := DecVarint32(s).value, DecVarint32(s).rest;
      var x := Take(t, size).value;
      TerminatedAlike(x, a.buf[size + 1..], b.buf[size + 1..]);
    }
  }

  /** The wire type of a record decides one thing only, whether the numbers of an array come packed. */
  lemma WireTypeMatters(fields: seq<Field>, f: Field, v: nat, w: nat, slot: Slot, got: nat, s: bytes)
    requires f.htype.Repeated? && Packable(f) ==> (v == 2 <==> w == 2)
    ensures DecSlot(fields, f, v, slot, got, s) == DecSlot(fields, f, w, slot, got, s)
  {
    hide DecDatum, DecPacked, TakeDelimited, UnionStart;
  }

  /** A oneof whose which_ names no field of the message is refused by every other member. */
  lemma UnknownMemberRefused(fields: seq<Field>, f: Field, w: nat, which: nat, d: Datum, got: nat, s: bytes)
    requires which != 0 && which != f.tag && forall i :: 0 <= i < |fields| ==> fields[i].tag != which
    ensures DecSlot(fields, f, w, Union(which, d), got, s).Err?
  {
    hide DecDatum, UnionStart;
  }

  predicate KnownTag(fields: seq<Field>, slot: Slot) {
    slot.Union? && slot.which != 0 ==> Find(fields, slot.which).Some?
  }

  /** A record of a field that is neither repeated nor a submessage replaces what the field, or its whole
      oneof, held before: whatever that was, the record is accepted or not and looks the same afterwards. */
  lemma LastOneWins(fields: seq<Field>, f: Field, wireType: nat, a: Slot, b: Slot, got: nat, s: bytes)
    requires WellFormedField(f) && !f.ltype.LSubmessage? && !f.htype.Repeated?
    requires ShapedSlot(f, a) && ShapedSlot(f, b) && KnownTag(fields, a) && KnownTag(fields, b)
    ensures var r, q := DecSlot(fields, f, wireType, a, got, s), DecSlot(fields, f, wireType, b, got, s);
            && r.Ok? == q.Ok?
            && (r.Ok? ==> q.rest == r.rest && q.value.1 == r.value.1 == got)
            && (r.Ok? ==> ViewSlot(f, q.value.0) == ViewSlot(f, r.value.0) != Absent)
  {
    hide DecLeaf, ViewDatum, DecMessage, WellFormed, ZeroDatum;
    ZeroShapedDatum(f);
    var d := if f.htype.Oneof? then UnionStart(f, a.which, a.data) else a.data;
    var e := if f.htype.Oneof? then UnionStart(f, b.which, b.data) else b.data;
    LeafIgnoresPrevious(f, d, e, s);
  }

  /** Repeating a non-repeated submessage record merges: two accepted records act like one record with both bodies, when
      those are apart; otherwise that one is refused. */
  lemma SubmessageRecordsMerge(f: Field, d: Datum, x: bytes, d1: Datum, y: bytes, d2: Datum)
    requires f.ltype.LSubmessage? && f.atype.Static? && !f.htype.Repeated? && WellFormed(f.sub) && |x| + |y| < TWO32
    requires DecDatum(f, d, EncDelimited(x)) == Ok(d1, [])
    requires var r := DecLoop(f.sub, Initial(SlotsOf(f, d)), x); r.Done? && r.rest == [] && !r.stopped
    requires DecDatum(f, d1, EncDelimited(y)) == Ok(d2, [])
    ensures DecDatum(f, d, EncDelimited(x + y))
            == if Apart(f.sub, SlotsOf(f, d), x, SlotsOf(f, d1), y) then Ok(d2, []) else Err
  {
    hide DecLoop, DecDatum, WellFormed, Apart;
    BodyOf(f, d, x);
    BodyOf(f, d, x + y);
    BodyOf(f, d1, y);
    var m, m1 := SlotsOf(f, d), SlotsOf(f, d1);
    var q := DecMessage(f.sub, m1, y);
    FullRun(f.sub, m, x);
    DecodeConcatenation(f.sub, m, x, m1, y, q.value, q.rest);
  }

  /** The contents a record of a singular or oneof submessage is read into. */
  function StartOfMember(f: Field, slot: Slot): Datum
    requires !slot.Many?
  {
    if slot.One? || slot.which == f.tag then slot.data else Sub(Default(f.sub, ZeroMessage(f.sub)))
  }

  /** The same for the whole slot, where the first record may be the one that switches a oneof to this member. */
  lemma MemberRecordsMerge(fields: seq<Field>, f: Field, wireType: nat, got: nat, slot: Slot, x: bytes, slot1: Slot,
                           y: bytes, slot2: Slot)
    requires f.ltype.LSubmessage? && f.atype.Static? && !slot.Many? && WellFormed(f.sub) && |x| + |y| < TWO32
    requires Find(fields, f.tag).Some?
    requires DecSlot(fields, f, wireType, slot, got, EncDelimited(x)) == Ok((slot1, got), [])
    requires var r := DecLoop(f.sub, Initial(SlotsOf(f, StartOfMember(f, slot))), x);
             r.Done? && r.rest == [] && !r.stopped
    requires DecSlot(fields, f, wireType, slot1, got, EncDelimited(y)) == Ok((slot2, got), [])
    ensures DecSlot(fields, f, wireType, slot, got, EncDelimited(x + y)) ==
            if Apart(f.sub, SlotsOf(f, StartOfMember(f, slot)), x, SlotsOf(f, slot1.data), y) then Ok((slot2, got), [])
            else Err
  {
    hide DecLoop, DecDatum, WellFormed, Apart, Default, Find;
    var d := StartOfMember(f, slot);
    assert DecDatum(f, d, EncDelimited(x)) == Ok(slot1.data, []);
    assert DecDatum(f, slot1.data, EncDelimited(y)) == Ok(slot2.data, []);
    SubmessageRecordsMerge(f, d, x, slot1.data, y, slot2.data);
  }

  /** A record of another member than the one that is set reads its message into a default structure: nothing of what
      the oneof held before remains. */
  lemma SwitchStartsAfresh(fields: seq<Field>, f: Field, wireType: nat, got: nat, which: nat, d: Datum, body: bytes,
                           t: bytes)
    requires f.ltype.LSubmessage? && f.htype.Oneof? && which != f.tag && |body| < TWO32
    requires which == 0 || Find(fields, which).Some?
    ensures var r, q := DecSlot(fields, f, wireType, Union(which, d), got, EncDelimited(body) + t),
                        Decode(f.sub, ZeroMessage(f.sub), body);
            if q.Ok? then r == Ok((Union(f.tag, Sub(q.value)), got), t) else r.Err?
  {
    hide DecLoop, Default, Find, ZeroMessage, EncVarint;
    var s := EncDelimited(body) + t;
    DelimitedPrefix(body, t);
    assert TakeDelimited(s) == Ok(body, t);
    var start := UnionStart(f, which, d);
    assert DecDatum(f, start, s) == DecSub(f, start, s);
  }

  lemma FullRun(fields: seq<Field>, m: Message, s: bytes)
    requires |m| == |fields| && DecLoop(fields, Initial(m), s).Done?
    ensures var r := DecMessage(fields, m, s); r.Ok? ==> r.rest == DecLoop(fields, Initial(m), s).rest
  {
    hide DecLoop;
  }

  lemma BodyOf(f: Field, d: Datum, b: bytes)
    requires f.ltype.LSubmessage? && f.atype.Static? && !f.htype.Repeated? && |b| < TWO32
    ensures var r := DecMessage(f.sub, SlotsOf(f, d), b);
            DecDatum(f, d, EncDelimited(b)) == if r.Ok? then Ok(Sub(r.value), []) else Err
  {
    DelimitedBody(b);
  }

  lemma DelimitedBody(b: bytes)
    requires |b| < TWO32
    ensures TakeDelimited(EncDelimited(b)) == Ok(b, [])
  {
    DelimitedPrefix(b, []);
    assert EncDelimited(b) + [] == EncDelimited(b) && b + [] == b;
  }

  // ---------------------------------------------------------------- unknown records

  /** u is one well-formed record with a field number the descriptor does not have. */
  ghost predicate UnknownRecord(fields: seq<Field>, u: bytes) {
    match DecVarint32(u)
    case Err => false
    case Ok(key, p) => key / 8 >= 1 && Find(fields, key / 8).None? && SkipPayload(p, key % 8) == Ok((), [])
  }

  /** Field number 0 is unknown to every message type with fields, but an empty type reads it as a bool, whatever its
      wire type. */
  lemma EmptyTypeReadsBool(st: State, w: nat, v: nat, t: bytes)
    requires st.msg == [] && 1 <= w < 8 && v < TWO32
    ensures DecRecord([], st, [w] + EncVarint(v) + t) == Next(st, t)
  {
    hide EncVarint;
    assert [w] + EncVarint(v) + t == [w] + (EncVarint(v) + t);
    Varint32RoundTrip(v, t);
  }

  lemma UnknownRuns(fields: seq<Field>, st: State, u: bytes)
    requires |st.msg| == |fields| && UnknownRecord(fields, u)
    ensures Runs(fields, st, u, st)
  {
    assert DecRecord(fields, st, u) == Next(st, []);
    assert DecLoop(fields, st, []) == Done(st, [], false);
  }

  /** Unknown records inserted at a record boundary, be it between the elements of a fixed-count array,
      change neither the outcome nor the structure nor what is left unread. */
  lemma UnknownIsTransparent(fields: seq<Field>, st: State, a: bytes, st': State, u: bytes, b: bytes)
    requires |st.msg| == |fields| && Runs(fields, st, a, st') && UnknownRecord(fields, u)
    ensures DecLoop(fields, st, a + u + b) == DecLoop(fields, st, a + b)
  {
    hide DecLoop, UnknownRecord;
    DecLoopResumes(fields, st, a, st', b);
    DecLoopResumes(fields, st, a, st', u + b);
    UnknownRuns(fields, st', u);
    DecLoopResumes(fields, st', u, st', b);
    assert a + u + b == a + (u + b);
  }

  /** The same for the whole decoder, at any prefix the loop has worked through. */
  lemma UnknownInMessage(fields: seq<Field>, m: Message, a: bytes, st: State, u: bytes, b: bytes)
    requires |m| == |fields| && Runs(fields, Initial(m), a, st) && UnknownRecord(fields, u)
    ensures DecMessage(fields, m, a + u + b) == DecMessage(fields, m, a + b)
  {
    UnknownIsTransparent(fields, Initial(m), a, st, u, b);
  }

  /** A key with a free field number and a payload of the wire type it names is such a record, for every wire type:
      what a newer sender writes for a field the receiver does not know. */
  lemma EncodedRecordIsUnknown(fields: seq<Field>, tag: nat, w: nat, p: bytes)
    requires 1 <= tag < TWO32 / 8 && Find(fields, tag).None? && Payload(w, p)
    ensures UnknownRecord(fields, EncTag(tag, w) + p)
  {
    hide EncVarint, DecVarint32, SkipPayload, Find;
    assert w < 8;
    Varint32RoundTrip(8 * tag + w, p);
    SkipsPayload(w, p, []);
    assert p + [] == p;
  }
}
