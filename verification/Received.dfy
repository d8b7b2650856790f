/** Which fields an input brings: without their required fields messages are refused, and fields that are left out
    hold their defaults. */
module Received {
  import opened Wire
  import opened Descriptor
  import opened DecodeSpec
  import opened FieldIterator
  import opened RoundTrip
  import opened Merge

  /** The fields of which the loop reads a record. */
  function FieldsRead(fields: seq<Field>, st: State, s: bytes): set<nat>
    requires |st.msg| == |fields|
    decreases |s|
  {
    if s == [] then {}
    else match DecRecord(fields, st, s)
      case Next(st', rest) =>
        (if NextField(fields, s).Some? then {NextField(fields, s).value} else {}) + FieldsRead(fields, st', rest)
      case _ => {}
  }

  // ---------------------------------------------------------------- required fields

  /** The first 64 required fields are checked for. */
  predicate Tracked(fields: seq<Field>, i: nat)
    requires i < |fields|
  {
    fields[i].htype.Required? && |RequiredBefore(fields, i)| < 64
  }

  function Marks(fields: seq<Field>, read: set<nat>): set<nat> {
    set i | i in read && i < |fields| && Tracked(fields, i) :: ReqIndex(fields, i)
  }

  lemma MarkIsTracked(fields: seq<Field>, seen: set<nat>, i: nat)
    requires i < |fields|
    ensures MarkSeen(fields, seen, i) == seen + Marks(fields, {i})
  {
    CountRequired(fields, i);
  }

  lemma RecordMarks(fields: seq<Field>, st: State, s: bytes)
    requires |st.msg| == |fields|
    ensures var r, i := DecRecord(fields, st, s), NextField(fields, s);
            r.Next? ==> r.st.seen == if i.Some? then MarkSeen(fields, st.seen, i.value) else st.seen
  {
    hide DecSlot, DecVarint32, Find, Home, MarkSeen;
  }

  lemma {:induction false} LoopMarks(fields: seq<Field>, st: State, s: bytes)
    requires |st.msg| == |fields|
    ensures var r := DecLoop(fields, st, s); r.Done? ==> r.st.seen == st.seen + Marks(fields, FieldsRead(fields, st, s))
    decreases |s|
  {
    hide DecRecord, Tracked, MarkSeen;
    if s != [] {
      RecordMarks(fields, st, s);
      var r, i := DecRecord(fields, st, s), NextField(fields, s);
      if r.Next? {
        LoopMarks(fields, r.st, r.rest);
        if i.Some? { MarkIsTracked(fields, st.seen, i.value); }
        MarksAdd(fields, if i.Some? then {i.value} else {}, FieldsRead(fields, r.st, r.rest));
      }
    }
  }

  lemma MarksAdd(fields: seq<Field>, a: set<nat>, b: set<nat>)
    ensures Marks(fields, a + b) == Marks(fields, a) + Marks(fields, b)
  {
    hide Tracked;
  }

  lemma {:induction false} IndexGrows(fields: seq<Field>, i: nat, j: nat)
    requires i < j <= |fields|
    ensures ReqIndex(fields, i) + (if fields[i].htype.Required? then 1 else 0) <= ReqIndex(fields, j)
    decreases j
  {
    if i + 1 < j { IndexGrows(fields, i, j - 1); }
  }

  lemma MarkedExactly(fields: seq<Field>, read: set<nat>, i: nat)
    requires i < |fields| && Tracked(fields, i)
    ensures ReqIndex(fields, i) in Marks(fields, read) <==> i in read
  {
    forall j | j in read && j < |fields| && Tracked(fields, j) &&
        j != i ensures ReqIndex(fields, j) != ReqIndex(fields, i) {
      if j < i { IndexGrows(fields, j, i); } else { IndexGrows(fields, i, j); }
    }
  }

  /** pb_decode_noinit accepts exactly the inputs that its loop gets through, that bring a record of each of the first
      64 required fields and that leave no array without a count half full. */
  lemma AcceptedExactly(fields: seq<Field>, m: Message, s: bytes)
    requires |m| == |fields|
    ensures DecMessage(fields, m, s).Ok? <==>
            match DecLoop(fields, Initial(m), s)
            case Failed => false
            case Done(st, _, _) =>
              && (st.fixed.Some? && st.fixed.value < |fields| ==> st.got == fields[st.fixed.value].arraySize)
              && forall i :: 0 <= i < |fields| && Tracked(fields, i) ==> i in FieldsRead(fields, Initial(m), s)
  {
    hide DecLoop, Tracked, Marks;
    LoopMarks(fields, Initial(m), s);
    var r := DecLoop(fields, Initial(m), s);
    var read := FieldsRead(fields, Initial(m), s);
    if r.Done? {
      assert r.st.seen == Marks(fields, read);
      SeenExactly(fields, read);
    }
  }

  lemma SeenExactly(fields: seq<Field>, read: set<nat>)
    ensures (forall k :: 0 <= k < TrackedRequired(fields) ==> k in Marks(fields, read)) <==>
            (forall i :: 0 <= i < |fields| && Tracked(fields, i) ==> i in read)
  {
    hide Marks;
    if forall i :: 0 <= i < |fields| && Tracked(fields, i) ==> i in read {
      forall k | 0 <= k < TrackedRequired(fields) ensures k in Marks(fields, read) {
        var i := RequiredAt(fields, |fields|, k);
        CountRequired(fields, i);
        MarkedExactly(fields, read, i);
      }
    }
    if forall k :: 0 <= k < TrackedRequired(fields) ==> k in Marks(fields, read) {
      forall i | 0 <= i < |fields| && Tracked(fields, i) ensures i in read {
        CountRequired(fields, i);
        IndexGrows(fields, i, |fields|);
        MarkedExactly(fields, read, i);
      }
    }
  }

  // ---------------------------------------------------------------- fields that are left out

  lemma RecordKeeps(fields: seq<Field>, st: State, s: bytes, h: nat)
    requires |st.msg| == |fields| && h < |fields|
    requires NextField(fields, s).Some? ==> Home(fields, NextField(fields, s).value) != h
    ensures var r := DecRecord(fields, st, s); r.Next? ==> r.st.msg[h] == st.msg[h]
  {
    hide DecSlot, DecVarint32, Find, Home, MarkSeen;
  }

  /** A slot changes only through records of its own members. */
  lemma {:induction false} LoopKeeps(fields: seq<Field>, st: State, s: bytes, h: nat)
    requires |st.msg| == |fields| && h < |fields|
    requires forall i :: i in FieldsRead(fields, st, s) && i < |fields| ==> Home(fields, i) != h
    ensures var r := DecLoop(fields, st, s); r.Done? ==> r.st.msg[h] == st.msg[h]
    decreases |s|
  {
    hide DecRecord, Home, Find;
    if s != [] {
      var r := DecRecord(fields, st, s);
      if r.Next? {
        RecordKeeps(fields, st, s, h);
        LoopKeeps(fields, r.st, r.rest, h);
      }
    }
  }

  /** What a field holds of which nothing was received: its default value or zeros, in embedded structures too, and
      no trace of what the structure held before. */
  ghost predicate HoldsDefault(f: Field, s: Slot)
    decreases f, 0
  {
    match f.htype
    case Repeated => s.Many? && (!FixedCount(f) ==> s.count == 0)
    case Oneof => s.Union? && s.which == 0
    case _ =>
      && s.One? && !s.has
      && if f.ltype.LSubmessage? then s.data.Sub? && HoldDefaults(f.sub, s.data.slots)
         else if f.init.Some? then s.data == f.init.value
         else match f.ltype
           case LBytes => s.data.Blob? && s.data.size == 0
           case LString => s.data.Text? && CStr(s.data.buf) == []
           case LFixedBytes => s.data == Raw(seq(f.dataSize, _ => 0))
           case _ => s.data == Num(0)
  }

  ghost predicate HoldDefaults(fields: seq<Field>, m: Message)
    decreases fields
  {
    |m| == |fields| && forall i :: 0 <= i < |fields| ==> HoldsDefault(fields[i], m[Home(fields, i)])
  }

  /** In every accepted input the fields of which it brings no record hold their defaults, whatever the destination
      held before. */
  lemma LeftOut(fields: seq<Field>, dest: Message, s: bytes, i: nat)
    requires i < |fields| && Decode(fields, dest, s).Ok?
    requires forall j :: j in FieldsRead(fields, Initial(Default(fields, dest)), s) && j < |fields| ==>
               Home(fields, j) != Home(fields, i)
    ensures HoldsDefault(fields[i], Decode(fields, dest, s).value[Home(fields, i)])
  {
    hide DecLoop, FieldsRead, HoldsDefault, Default;
    LoopKeeps(fields, Initial(Default(fields, dest)), s, Home(fields, i));
    DefaultsHold(fields, dest);
  }

  lemma DefaultsHold(fields: seq<Field>, prev: Message)
    ensures HoldDefaults(fields, Default(fields, prev))
    decreases fields
  {
    hide DefaultSlot, HoldsDefault, ZeroSlot;
    forall i | 0 <= i < |fields| ensures HoldsDefault(fields[i], Default(fields, prev)[Home(fields, i)]) {
      var h := Home(fields, i);
      DefaultHolds(fields[i], fields[h], if h < |prev| then prev[h] else ZeroSlot(fields[h]));
    }
  }

  lemma DefaultHolds(f: Field, home: Field, prev: Slot)
    requires f.htype.Oneof? == home.htype.Oneof? && (!f.htype.Oneof? ==> f == home)
    ensures HoldsDefault(f, DefaultSlot(home, prev))
    decreases f
  {
    hide WipedItems, Default, ZeroMessage, HoldDefaults;
    if f.ltype.LString? { CStrZeros(f.dataSize); }
    if f.ltype.LSubmessage? && !f.htype.Oneof? && !f.htype.Repeated? {
      DefaultsHold(f.sub, SlotsOf(f, if prev.One? then prev.data else ZeroDatum(f)));
    }
  }

  /** The first n bytes are zero, the rest is as before. */
  predicate ClearedUpTo(before: bytes, after: bytes, n: int) {
    |after| == |before| && forall j :: 0 <= j < |before| ==> after[j] == if j < n then 0 else before[j]
  }

  /** A member of which the first `data` bytes, and of what lies from its companion on the first `size` bytes, were
      cleared: as before, when there are none; its has_ flag and a number that is covered are zero. */
  predicate ClearedMember(f: Field, before: Slot, after: Slot, data: int, size: int) {
    && (data <= 0 && size <= 0 ==> after == before)
    && (before.One? && HasFlag(f) && size > 0 ==> after.One? && !after.has)
    && (before.One? && before.data.Num? && 0 < f.dataSize <= data ==> after.One? && after.data == Num(0))
  }

  predicate ClearedFields(fields: seq<Field>, before: Message, after: Message, c: int)
    requires |before| == |after|
  {
    forall i :: 0 <= i < |before| && i < |fields| && !InsideUnion(fields, i) ==>
      ClearedMember(fields[i], before[i], after[i], c - DataOffset(fields, i), c - SizeOffset(fields, i))
  }

  lemma WipedFields(fields: seq<Field>, m: Message, c: int)
    ensures ClearedFields(fields, m, Wiped(fields, m, c), c)
  {
    hide DataOffset, SizeOffset, ClearedMember, WipedSlot;
    forall i | 0 <= i < |m| && i < |fields| && !InsideUnion(fields, i)
      ensures ClearedMember(fields[i], m[i], Wiped(fields, m, c)[i], c - DataOffset(fields, i),
              c - SizeOffset(fields, i))
    {
      WipedMember(fields[i], m[i], c - DataOffset(fields, i), c - SizeOffset(fields, i));
    }
  }

  lemma WipedMember(f: Field, s: Slot, data: int, size: int)
    ensures ClearedMember(f, s, WipedSlot(f, s, data, size), data, size)
  {
    if s.Many? && FixedCount(f) && data <= 0 {
      forall k | 0 <= k < |s.items| ensures WipedDatum(f, s.items[k], data - k * f.dataSize) == s.items[k] {
        EntryBegins(k, f.dataSize);
      }
      assert WipedItems(f, s.items, data) == s.items;
    }
  }

  /** An entry of an array after the first four bytes of the array were cleared; p is where the entry begins. */
  predicate ClearedEntry(f: Field, before: Datum, after: Datum, p: nat) {
    if p >= 4 then after == before
    else match before
      case Num(n) => after == Num(if f.dataSize == 8 then n / 0x1_0000_0000 * 0x1_0000_0000 else 0)
      case Blob(_, buf) => after == Blob(0, buf)
      case Text(buf) => after.Text? && ClearedUpTo(buf, after.buf, 4 - p)
      case Raw(buf) => after.Raw? && ClearedUpTo(buf, after.buf, 4 - p)
      case Sub(slots) => after.Sub? && |after.slots| == |slots| && ClearedFields(f.sub, slots, after.slots, 4 - p)
  }

  /** An array without a count loses its first four bytes when it is set to its default: a zero count is stored over
      them. Everything behind them stays. */
  lemma ZeroCountStored(f: Field, count: nat, items: seq<Datum>)
    requires WellFormedField(f) && FixedCount(f) && forall k :: 0 <= k < |items| ==> ShapedDatum(f, items[k])
    ensures var s := DefaultSlot(f, Many(count, items));
            && s.Many? && s.count == 0 && |s.items| == |items|
            && forall k :: 0 <= k < |items| ==> ClearedEntry(f, items[k], s.items[k], k * f.dataSize)
  {
    hide WellFormed, ShapedDatum, ClearedEntry, WipedDatum;
    var s := DefaultSlot(f, Many(count, items));
    forall k | 0 <= k < |items| ensures ClearedEntry(f, items[k], s.items[k], k * f.dataSize) {
      EntryBegins(k, f.dataSize);
      WipedEntry(f, items[k], k * f.dataSize);
      assert s.items[k] == WipedDatum(f, items[k], 4 - k * f.dataSize);
    }
  }

  lemma EntryBegins(k: nat, size: nat)
    ensures k * size >= 0
    ensures k == 0 || k * size >= size
    ensures size == 2 ==> k * size % 2 == 0
  {
    if k > 0 { assert (k - 1) * size >= 0; }
  }

  lemma WipedEntry(f: Field, d: Datum, p: nat)
    requires WellFormedField(f) && ShapedDatum(f, d)
    requires (p == 0 || p >= f.dataSize) && (f.dataSize == 2 ==> p % 2 == 0)
    ensures ClearedEntry(f, d, WipedDatum(f, d, 4 - p), p)
  {
    hide WellFormed, Wiped, ClearedFields;
    if d.Sub? && p < 4 { WipedFields(f.sub, d.slots, 4 - p); }
  }

  /** Default initialisation leaves the contents of other arrays, and of unions, as they are. */
  lemma ContentsKept(f: Field, size: nat, items: seq<Datum>, d: Datum)
    ensures f.htype.Repeated? && f.sizeOffset != 0 ==> DefaultSlot(f, Many(size, items)) == Many(0, items)
    ensures f.htype.Oneof? ==> DefaultSlot(f, Union(size, d)) == Union(0, d)
  {
  }
}
