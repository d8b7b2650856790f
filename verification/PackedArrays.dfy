/** Packed, element-wise and mixed encodings of one repeated field. */
module PackedArrays {
  import opened Wire
  import opened Descriptor
  import opened Options
  import opened EncodeSpec
  import opened DecodeSpec
  import opened RoundTrip

  /** One piece of an encoded array: a packed record or a single element record. */
  datatype Chunk = Packed(ns: seq<int>) | Single(n: int)

  function Numbers(c: Chunk): seq<int> {
    match c
    case Packed(ns) => ns
    case Single(n) => [n]
  }

  function AllNumbers(cs: seq<Chunk>): seq<int> {
    if cs == [] then [] else Numbers(cs[0]) + AllNumbers(cs[1..])
  }

  /** What the array entry holds after element n is decoded into it. */
  function Stored(f: Field, n: int): Datum {
    Num(if f.ltype.LBool? && n != 0 then 1 else n)
  }

  function EncNumbers(f: Field, ns: seq<int>): bytes {
    if ns == [] then []
    else (if EncNumber(f, ns[0]).Some? then EncNumber(f, ns[0]).value else []) + EncNumbers(f, ns[1..])
  }

  function ChunkBytes(f: Field, c: Chunk): bytes {
    match c
    case Packed(ns) => EncTag(f.tag, WT_STRING) + EncDelimited(EncNumbers(f, ns))
    case Single(n) => EncTag(f.tag, WireType(f)) + EncNumbers(f, [n])
  }

  function ChunksBytes(f: Field, cs: seq<Chunk>): bytes {
    if cs == [] then [] else ChunkBytes(f, cs[0]) + ChunksBytes(f, cs[1..])
  }

  ghost predicate AllInRange(f: Field, ns: seq<int>) {
    forall k :: 0 <= k < |ns| ==> InRange(f, ns[k])
  }

  ghost predicate GoodChunk(f: Field, c: Chunk) {
    AllInRange(f, Numbers(c)) && |EncNumbers(f, Numbers(c))| < TWO32
  }

  /** items with the elements ns stored from index k on. */
  function Put(f: Field, items: seq<Datum>, k: nat, ns: seq<int>): (r: seq<Datum>)
    requires k + |ns| <= |items|
    ensures |r| == |items|
    ensures forall x :: 0 <= x < |items| ==> r[x] == if k <= x < k + |ns| then Stored(f, ns[x - k]) else items[x]
    decreases |ns|
  {
    if ns == [] then items else Put(f, items[k := Stored(f, ns[0])], k + 1, ns[1..])
  }

  lemma PutTwice(f: Field, items: seq<Datum>, k: nat, a: seq<int>, b: seq<int>)
    requires k + |a| + |b| <= |items|
    ensures Put(f, Put(f, items, k, a), k + |a|, b) == Put(f, items, k, a + b)
  {
  }

  /** Decoding a packed body stores its elements, or fails when they do not all fit. */
  lemma {:induction false} PackedBody(f: Field, items: seq<Datum>, k: nat, ns: seq<int>)
    requires Packable(f) && SizesFit(f) && AllInRange(f, ns) && k <= f.arraySize == |items|
    ensures DecPacked(f, items, k, EncNumbers(f, ns)) ==
            if k + |ns| <= f.arraySize then Some((Put(f, items, k, ns), k + |ns|)) else None
    decreases |ns|
  {
    hide EncNumber, DecLeaf, Packable, SizesFit, InRange;
    if ns != [] {
      NumberRoundTrip(f, ns[0], if k < |items| then items[k] else Num(0), EncNumbers(f, ns[1..]));
      if k < f.arraySize { PackedBody(f, items[k := Stored(f, ns[0])], k + 1, ns[1..]); }
    }
  }

  /** The array field of index i, with a count of its own or without. */
  ghost predicate Array(fields: seq<Field>, st: State, i: nat) {
    && WellFormed(fields) && |st.msg| == |fields| && i < |fields|
    && fields[i].htype.Repeated? && Packable(fields[i])
    && st.msg[i].Many? && fields[i].arraySize == |st.msg[i].items|
    && (if !FixedCount(fields[i]) then st.msg[i].count <= fields[i].arraySize
        else st.fixed == Some(i) ==> st.got <= fields[i].arraySize)
  }

  /** The state after the numbers ns were received for field i: they are appended when they fit. A field
      without a count is counted by the loop, which may start it when the one before is complete. */
  function Received(fields: seq<Field>, st: State, i: nat, ns: seq<int>): Option<State>
    requires |st.msg| == |fields| && i < |fields| && st.msg[i].Many? && fields[i].arraySize == |st.msg[i].items|
  {
    match StartFixed(fields, st, i)
    case None => None
    case Some(d) =>
      var f, s := fields[i], st.msg[i];
      var n := if FixedCount(f) then d.got else s.count;
      if n + |ns| > f.arraySize then None
      else
        var items := Put(f, s.items, n, ns);
        if FixedCount(f) then Some(State(st.msg[i := Many(s.count, items)], st.seen, d.fixed, n + |ns|))
        else Some(st.(msg := st.msg[i := Many(n + |ns|, items)]))
  }

  function ChunkType(f: Field, c: Chunk): nat {
    if c.Packed? then WT_STRING else WireType(f)
  }

  function ChunkPayload(f: Field, c: Chunk): bytes {
    if c.Packed? then EncDelimited(EncNumbers(f, Numbers(c))) else EncNumbers(f, Numbers(c))
  }

  lemma ChunkSlot(fields: seq<Field>, f: Field, s: Slot, c: Chunk, got: nat, t: bytes)
    requires Packable(f) && SizesFit(f) && GoodChunk(f, c) && f.htype.Repeated?
    requires s.Many? && f.arraySize == |s.items| && (if FixedCount(f) then got else s.count) <= f.arraySize
    ensures var n, ns := if FixedCount(f) then got else s.count, Numbers(c);
            DecSlot(fields, f, ChunkType(f, c), s, got, ChunkPayload(f, c) + t) ==
            if n + |ns| <= f.arraySize then Ok(Counted(f, Put(f, s.items, n, ns), n + |ns|, s.count, got), t) else Err
  {
    hide EncVarint, DecVarint32, EncNumber, DecLeaf, DecPacked, Put, EncNumbers;
    var ns := Numbers(c);
    var n := if FixedCount(f) then got else s.count;
    match c
    case Packed(_) =>
      DelimitedPrefix(EncNumbers(f, ns), t);
      PackedBody(f, s.items, n, ns);
    case Single(x) =>
      assert InRange(f, ns[0]);
      SinglePayload(f, x, if n < f.arraySize then s.items[n] else Num(0), t);
      if n < f.arraySize { PutOne(f, s.items, n, x); }
  }

  lemma ChunkField(fields: seq<Field>, st: State, i: nat, c: Chunk, t: bytes)
    requires Array(fields, st, i) && GoodChunk(fields[i], c)
    ensures DecField(fields, st, i, ChunkType(fields[i], c), ChunkPayload(fields[i], c) + t) ==
            match Received(fields, st, i, Numbers(c)) case None => Fail case Some(st') => Next(st', t)
  {
    hide DecSlot, ChunkPayload, ChunkType, Put, GoodChunk;
    assert WellFormedField(fields[i]);
    match StartFixed(fields, st, i)
    case None =>
    case Some(d) => ChunkSlot(fields, fields[i], st.msg[i], c, d.got, t);
  }

  /** One chunk appends its elements, or is refused when they do not all fit. */
  lemma ChunkDecodes(fields: seq<Field>, st: State, i: nat, c: Chunk, t: bytes)
    requires Array(fields, st, i) && GoodChunk(fields[i], c)
    ensures match Received(fields, st, i, Numbers(c))
            case Some(st') => |st'.msg| == |fields| && Runs(fields, st, ChunkBytes(fields[i], c), st')
            case None => DecLoop(fields, st, ChunkBytes(fields[i], c) + t) == Failed
  {
    hide DecLoop, DecField, ChunkPayload, ChunkType, Put, GoodChunk, EncVarint, WellFormed, StartFixed;
    var f := fields[i];
    var p := ChunkPayload(f, c);
    ChunkShape(f, c);
    match Received(fields, st, i, Numbers(c))
    case Some(st') =>
      ChunkField(fields, st, i, c, []);
      assert p + [] == p;
      RecordRuns(fields, st, i, ChunkType(f, c), p, st');
    case None =>
      ChunkField(fields, st, i, c, t);
      RecordFails(fields, st, i, ChunkType(f, c), p + t);
      assert ChunkBytes(f, c) + t == EncTag(f.tag, ChunkType(f, c)) + (p + t);
  }

  lemma ChunkShape(f: Field, c: Chunk)
    ensures ChunkBytes(f, c) == EncTag(f.tag, ChunkType(f, c)) + ChunkPayload(f, c) && ChunkType(f, c) < 8
  {
  }

  lemma SinglePayload(f: Field, n: int, base: Datum, t: bytes)
    requires Packable(f) && SizesFit(f) && InRange(f, n)
    ensures DecLeaf(f, base, EncNumbers(f, [n]) + t) == Ok(Stored(f, n), t)
  {
    NumberRoundTrip(f, n, base, t);
    assert EncNumbers(f, [n]) == EncNumber(f, n).value;
  }

  lemma PutOne(f: Field, items: seq<Datum>, k: nat, n: int)
    requires k < |items|
    ensures Put(f, items, k, [n]) == items[k := Stored(f, n)]
  {
  }

  lemma RecordFails(fields: seq<Field>, st: State, i: nat, wireType: nat, p: bytes)
    requires WellFormed(fields) && |st.msg| == |fields| && i < |fields| && wireType < 8
    requires DecField(fields, st, i, wireType, p) == Fail
    ensures DecLoop(fields, st, EncTag(fields[i].tag, wireType) + p) == Failed
  {
    hide DecField, EncVarint, DecVarint32;
    assert WellFormedField(fields[i]);
    Varint32RoundTrip(8 * fields[i].tag + wireType, p);
    FindIsIndex(fields, i, 0);
    assert DecRecord(fields, st, EncTag(fields[i].tag, wireType) + p) == Fail;
  }

  /** Receiving numbers in two parts is receiving them together. */
  lemma ReceivedTwice(fields: seq<Field>, st: State, i: nat, a: seq<int>, b: seq<int>)
    requires Array(fields, st, i)
    ensures match Received(fields, st, i, a)
            case None => Received(fields, st, i, a + b).None?
            case Some(st1) => Array(fields, st1, i) && Received(fields, st1, i, b) == Received(fields, st, i, a + b)
  {
    hide WellFormed;
    match Received(fields, st, i, a)
    case None =>
    case Some(st1) =>
      var f, s := fields[i], st.msg[i];
      var n := if FixedCount(f) then StartFixed(fields, st, i).value.got else s.count;
      if n + |a| + |b| <= f.arraySize {
        PutTwice(f, s.items, n, a, b);
        var slot := Received(fields, st, i, a + b).value.msg[i];
        assert st1.msg[i := slot] == st.msg[i := slot];
      }
  }

  /** However a list of elements is split into packed and single records, decoding appends exactly the list,
      and it is refused exactly when the array cannot hold it. */
  lemma {:induction false} ChunksDecode(fields: seq<Field>, st: State, i: nat, cs: seq<Chunk>)
    requires Array(fields, st, i) && forall x :: 0 <= x < |cs| ==> GoodChunk(fields[i], cs[x])
    ensures DecLoop(fields, st, ChunksBytes(fields[i], cs)) ==
            if cs == [] then Done(st, [], false)
            else match Received(fields, st, i, AllNumbers(cs)) case Some(st') => Done(st', [],
                false) case None => Failed
    decreases |cs|
  {
    hide DecRecord, ChunkBytes, GoodChunk, DecLoop, WellFormed, Received;
    var f := fields[i];
    if cs == [] {
      LoopAtEnd(fields, st);
    } else {
      var a, b := ChunkBytes(f, cs[0]), ChunksBytes(f, cs[1..]);
      var ns := Numbers(cs[0]);
      ChunkDecodes(fields, st, i, cs[0], b);
      ReceivedTwice(fields, st, i, ns, AllNumbers(cs[1..]));
      match Received(fields, st, i, ns)
      case None =>
      case Some(st1) =>
        DecLoopResumes(fields, st, a, st1, b);
        ChunksDecode(fields, st1, i, cs[1..]);
        if cs[1..] == [] { assert ns + AllNumbers(cs[1..]) == ns; }
    }
  }

  lemma LoopAtEnd(fields: seq<Field>, st: State)
    requires |st.msg| == |fields|
    ensures DecLoop(fields, st, []) == Done(st, [], false)
  {
  }

  lemma ReceivedNothing(fields: seq<Field>, st: State, i: nat)
    requires Array(fields, st, i) && !FixedCount(fields[i])
    ensures Received(fields, st, i, []) == Some(st)
  {
    var s := st.msg[i];
    assert Put(fields[i], s.items, s.count, []) == s.items;
    assert st.msg[i := s] == st.msg;
  }

  function Outcomes(fields: seq<Field>, st: State, i: nat, ns: seq<int>): Outcome
    requires |st.msg| == |fields| && i < |fields| && st.msg[i].Many? && fields[i].arraySize == |st.msg[i].items|
  {
    match Received(fields, st, i, ns) case Some(st') => Done(st', [], false) case None => Failed
  }

  lemma CountedSplit(fields: seq<Field>, st: State, i: nat, cs: seq<Chunk>)
    requires Array(fields, st, i) && (FixedCount(fields[i]) ==> cs != [])
    requires forall x :: 0 <= x < |cs| ==> GoodChunk(fields[i], cs[x])
    ensures DecLoop(fields, st, ChunksBytes(fields[i], cs)) == Outcomes(fields, st, i, AllNumbers(cs))
  {
    hide GoodChunk, ChunksBytes, DecLoop, Received, WellFormed;
    ChunksDecode(fields, st, i, cs);
    if cs == [] { ReceivedNothing(fields, st, i); }
  }

  /** So all splits of the same element list agree. Only for a field without a count it matters whether there
      was a record at all: an empty packed one starts the array. */
  lemma SplitsAgree(fields: seq<Field>, st: State, i: nat, cs: seq<Chunk>, ds: seq<Chunk>)
    requires Array(fields, st, i) && AllNumbers(cs) == AllNumbers(ds)
    requires FixedCount(fields[i]) ==> (cs == [] <==> ds == [])
    requires forall x :: 0 <= x < |cs| ==> GoodChunk(fields[i], cs[x])
    requires forall x :: 0 <= x < |ds| ==> GoodChunk(fields[i], ds[x])
    ensures DecLoop(fields, st, ChunksBytes(fields[i], cs)) == DecLoop(fields, st, ChunksBytes(fields[i], ds))
  {
    hide GoodChunk, ChunksBytes, DecLoop, WellFormed, AllNumbers, Outcomes;
    if !FixedCount(fields[i]) || cs != [] {
      CountedSplit(fields, st, i, cs);
      CountedSplit(fields, st, i, ds);
    }
  }

  /** A fixed-count array that received records passes the final check exactly when it is full. */
  lemma CompleteWhenFull(fields: seq<Field>, st: State, i: nat, cs: seq<Chunk>)
    requires Array(fields, st, i) && FixedCount(fields[i]) && StartFixed(fields, st, i).Some? && cs != []
    requires forall x :: 0 <= x < |cs| ==> GoodChunk(fields[i], cs[x])
    ensures var r := DecLoop(fields, st, ChunksBytes(fields[i], cs));
            r.Done? && FixedComplete(fields, r.st) <==>
            StartFixed(fields, st, i).value.got + |AllNumbers(cs)| == fields[i].arraySize
  {
    hide WellFormed, GoodChunk, ChunksBytes, Put, DecLoop;
    ChunksDecode(fields, st, i, cs);
  }
}
