/** What pb_decode does to a structure, as a function of the descriptor, the structure and the unread bytes.
    Termination is by the number of unread bytes: every record consumes at least one, and every nested
    message is strictly shorter than the bytes it is read from. */
module DecodeSpec {
  import opened Wire
  import opened Descriptor
  import opened Options

  // ---------------------------------------------------------------- single entries

  function Overwrite(buf: bytes, b: bytes): (r: bytes)
    ensures |b| <= |buf| ==> |r| == |buf|
  {
    b + if |b| <= |buf| then buf[|b|..] else []
  }

  function Buffer(d: Datum): bytes {
    if d.Blob? || d.Text? || d.Raw? then d.buf else []
  }

  /** pb_dec_varint: narrower fields take the low 32 bits first, so that sign-extended and plain 32-bit
      encodings of negative values are both accepted. */
  function CheckedSigned(f: Field, v: nat): Option<int> {
    if !IntSize(f.dataSize) then None
    else
      var sv := ToSigned(v, if f.dataSize == 8 then TWO63 else TWO31);
      if ToSigned(sv, Half(f.dataSize)) != sv then None else Some(sv)
  }

  function CheckedUnsigned(f: Field, v: nat): Option<int> {
    if !IntSize(f.dataSize) || v % (2 * Half(f.dataSize)) != v then None else Some(v)
  }

  function CheckedZigZag(f: Field, v: nat): Option<int> {
    if !IntSize(f.dataSize) || ToSigned(UnZigZag(v), Half(f.dataSize)) != UnZigZag(v) then None else Some(UnZigZag(v))
  }

  function Checked(r: Res<nat>, check: nat -> Option<int>): (c: Res<Datum>)
    ensures c.Ok? ==> r.Ok? && c.rest == r.rest && check(r.value).Some? && c.value == Num(check(r.value).value)
  {
    match r
    case Err => Err
    case Ok(v, rest) => if check(v).Some? then Ok(Num(check(v).value), rest) else Err
  }

  /** The PB_DECODERS table without submessages. */
  function DecLeaf(f: Field, d: Datum, s: bytes): (r: Res<Datum>)
    ensures r.Ok? ==> |r.rest| < |s|
  {
    match f.ltype
    case LBool => Checked(DecVarint32(s), (v: nat) => Some(if v != 0 then 1 else 0))
    case LVarint => Checked(DecVarint(s), (v: nat) => CheckedSigned(f, v))
    case LUVarint => Checked(DecVarint(s), (v: nat) => CheckedUnsigned(f, v))
    case LSVarint => Checked(DecVarint(s), (v: nat) => CheckedZigZag(f, v))
    case LFixed32 => Checked(DecFixed(s, 4), (v: nat) => Some(v))
    case LFixed64 => Checked(DecFixed(s, 8), (v: nat) => Some(v))
    case LBytes =>
      (match DecVarint32(s)
       case Err => Err
       case Ok(size, t) =>
         if size + BYTES_OFFSET > f.dataSize then Err
         else match Take(t, size)
           case Err => Err
           case Ok(b, rest) => Ok(Blob(size, Overwrite(Buffer(d), b)), rest))
    case LString =>
      (match DecVarint32(s)
       case Err => Err
       case Ok(size, t) =>
         if size + 1 > f.dataSize then Err
         else match Take(t, size)
           case Err => Err
           case Ok(b, rest) => Ok(Text(Overwrite(Buffer(d), b + [0])), rest))
    case LFixedBytes =>
      (match DecVarint32(s)
       case Err => Err
       case Ok(size, t) =>
         if size == 0 then Ok(Raw(Zeros(f.dataSize)), t)
         else if size != f.dataSize then Err
         else match Take(t, size)
           case Err => Err
           case Ok(b, rest) => Ok(Raw(b), rest))
    case LSubmessage => Err
  }

  /** The elements of one packed record, stored from index `count` on. */
  function DecPacked(f: Field, items: seq<Datum>, count: nat, s: bytes): (r: Option<(seq<Datum>, nat)>)
    ensures r.Some? ==> |r.value.0| == |items| && r.value.1 >= count
    decreases |s|
  {
    if s == [] then Some((items, count))
    else if count >= f.arraySize || count >= |items| then None
    else match DecLeaf(f, items[count], s)
      case Err => None
      case Ok(d, rest) => DecPacked(f, items[count := d], count + 1, rest)
  }

  // ---------------------------------------------------------------- messages

  /** Local state of pb_decode_noinit: the structure, the required fields seen (by required index), and
      the fixed-count field being received with its element counter. */
  datatype State = State(msg: Message, seen: set<nat>, fixed: Option<nat>, got: nat)

  datatype Step = Next(st: State, rest: bytes) | Stop(rest: bytes) | Fail

  /** stopped: the loop was ended by a zero tag instead of the end of the bytes. */
  datatype Outcome = Done(st: State, rest: bytes, stopped: bool) | Failed

  /** pb_dec_submessage: array entries are set to their defaults first, and a pointer field starts each record with a
      new structure; anything else is merged into what is there. */
  function DecSub(f: Field, d: Datum, s: bytes): (r: Res<Datum>)
    ensures r.Ok? ==> |r.rest| < |s|
    decreases |s|, 0
  {
    match TakeDelimited(s)
    case Err => Err
    case Ok(body, rest) =>
      var entry := if f.atype.Pointer? then Default(f.sub, ZeroMessage(f.sub)) else SlotsOf(f, d);
      var start := if f.htype.Repeated? then Default(f.sub, entry) else entry;
      match DecMessage(f.sub, start, body)
      case Err => Err
      case Ok(m, _) => Ok(Sub(m), rest)
  }

  function DecDatum(f: Field, d: Datum, s: bytes): (r: Res<Datum>)
    ensures r.Ok? ==> |r.rest| < |s|
    decreases |s|, 1
  {
    if f.ltype.LSubmessage? then DecSub(f, d, s) else DecLeaf(f, d, s)
  }

  /** The union contents a member is decoded into. */
  function UnionStart(f: Field, which: nat, d: Datum): Datum {
    if which == f.tag then d
    else if f.ltype.LSubmessage? then Sub(Default(f.sub, ZeroMessage(f.sub)))
    else ZeroDatum(f)
  }

  /** decode_static_field. `got` stands in for the array count of a fixed-count field. */
  function DecSlot(fields: seq<Field>, f: Field, wireType: nat, slot: Slot, got: nat, s: bytes): (r: Res<(Slot, nat)>)
    ensures r.Ok? ==> |r.rest| < |s|
    decreases |s|, 2
  {
    match slot
    case One(has, d) =>
      if f.htype.Repeated? || f.htype.Oneof? then Err
      else
        (match DecDatum(f, d, s)
         case Err => Err
         case Ok(d', rest) => Ok((One(has || HasFlag(f), d'), got), rest))
    case Many(count, items) =>
      if !f.htype.Repeated? then Err
      else
        var n := if FixedCount(f) then got else count;
        if wireType == WT_STRING && Packable(f) then
          (match TakeDelimited(s)
           case Err => Err
           case Ok(body, rest) =>
             match DecPacked(f, items, n, body)
             case None => Err
             case Some((items', n')) => Ok(Counted(f, items', n', count, got), rest))
        else if n >= f.arraySize || n >= |items| then Err
        else
          (match DecDatum(f, items[n], s)
           case Err => Err
           case Ok(d', rest) => Ok(Counted(f, items[n := d'], n + 1, count, got), rest))
    case Union(which, d) =>
      if !f.htype.Oneof? || (which != 0 && which != f.tag && Find(fields, which).None?) then Err
      else
        (match DecDatum(f, UnionStart(f, which, d), s)
         case Err => Err
         case Ok(d', rest) => Ok((Union(f.tag, d'), got), rest))
  }

  /** Where the advanced element count is kept. */
  function Counted(f: Field, items: seq<Datum>, n: nat, count: nat, got: nat): (Slot, nat) {
    if FixedCount(f) then (Many(count, items), n) else (Many(n, items), got)
  }

  /** A fixed-count field may start only when the previous one has all its elements. */
  function StartFixed(fields: seq<Field>, st: State, i: nat): Option<State>
    requires i < |fields|
  {
    if !FixedCount(fields[i]) || st.fixed == Some(i) then Some(st)
    else if !FixedComplete(fields, st) then None
    else Some(st.(fixed := Some(i), got := 0))
  }

  predicate FixedComplete(fields: seq<Field>, st: State) {
    st.fixed.Some? && st.fixed.value < |fields| ==> st.got == fields[st.fixed.value].arraySize
  }

  function MarkSeen(fields: seq<Field>, seen: set<nat>, i: nat): set<nat>
    requires i < |fields|
  {
    if fields[i].htype.Required? && ReqIndex(fields, i) < PB_MAX_REQUIRED_FIELDS then seen + {ReqIndex(fields, i)}
        else seen
  }

  /** One record whose tag is that of field i. */
  function DecField(fields: seq<Field>, st: State, i: nat, wireType: nat, s: bytes): (r: Step)
    requires |st.msg| == |fields| && i < |fields|
    ensures r.Next? ==> |r.rest| < |s| && |r.st.msg| == |fields|
    ensures !r.Stop?
    decreases |s|, 3
  {
    match StartFixed(fields, st, i)
    case None => Fail
    case Some(st1) =>
      var h := Home(fields, i);
      match DecSlot(fields, fields[i], wireType, st1.msg[h], st1.got, s)
      case Err => Fail
      case Ok((slot, got), rest) =>
        Next(State(st1.msg[h := slot], MarkSeen(fields, st1.seen, i), st1.fixed, got), rest)
  }

  /** An unknown record is skipped by wire type. Against an empty message type field number 0 finds the
      terminating entry, which reads as a bool. */
  function SkipUnknown(fields: seq<Field>, tag: nat, wireType: nat, s: bytes): (r: Res<()>)
    ensures r.Ok? ==> |r.rest| < |s|
  {
    if fields == [] && tag == 0 then
      match DecVarint32(s)
      case Err => Err
      case Ok(_, rest) => Ok((), rest)
    else SkipPayload(s, wireType)
  }

  function DecRecord(fields: seq<Field>, st: State, s: bytes): (r: Step)
    requires |st.msg| == |fields|
    ensures r.Next? ==> |r.rest| < |s| && |r.st.msg| == |fields|
    decreases |s|, 4
  {
    match DecVarint32(s)
    case Err => Fail
    case Ok(key, rest) =>
      if key == 0 then Stop(rest)
      else
        match Find(fields, key / 8)
        case Some(i) => DecField(fields, st, i, key % 8, rest)
        case None =>
          match SkipUnknown(fields, key / 8, key % 8, rest)
          case Err => Fail
          case Ok(_, rest') => Next(st, rest')
  }

  function DecLoop(fields: seq<Field>, st: State, s: bytes): (r: Outcome)
    requires |st.msg| == |fields|
    ensures r.Done? ==> |r.st.msg| == |fields| && |r.rest| <= |s|
    decreases |s|, 5
  {
    if s == [] then Done(st, [], false)
    else match DecRecord(fields, st, s)
      case Fail => Failed
      case Stop(rest) => Done(st, rest, true)
      case Next(st', rest) => DecLoop(fields, st', rest)
  }

  function TrackedRequired(fields: seq<Field>): nat {
    if ReqIndex(fields, |fields|) > PB_MAX_REQUIRED_FIELDS then PB_MAX_REQUIRED_FIELDS else ReqIndex(fields, |fields|)
  }

  /** The checks after the last record: the fixed-count array is full, the tracked required fields were seen. */
  predicate Complete(fields: seq<Field>, st: State) {
    FixedComplete(fields, st) && forall k :: 0 <= k < TrackedRequired(fields) ==> k in st.seen
  }

  function Initial(m: Message): State {
    State(m, {}, None, 0)
  }

  /** pb_decode_noinit. */
  function DecMessage(fields: seq<Field>, m: Message, s: bytes): (r: Res<Message>)
    requires |m| == |fields|
    ensures r.Ok? ==> |r.value| == |fields| && |r.rest| <= |s|
    decreases |s|, 6
  {
    match DecLoop(fields, Initial(m), s)
    case Failed => Err
    case Done(st, rest, _) => if Complete(fields, st) then Ok(st.msg, rest) else Err
  }

  /** pb_decode: defaults first. */
  function Decode(fields: seq<Field>, dest: Message, s: bytes): Res<Message> {
    DecMessage(fields, Default(fields, dest), s)
  }

  // ---------------------------------------------------------------- locality

  lemma DecLeafLocal(f: Field, d: Datum, s: bytes, t: bytes)
    requires DecLeaf(f, d, s).Ok?
    ensures DecLeaf(f, d, s + t) == Extend(DecLeaf(f, d, s), t)
  {
    match f.ltype
    case LBool => DecVarint32Local(s, t);
    case LVarint => DecVarintLocal(s, t);
    case LUVarint => DecVarintLocal(s, t);
    case LSVarint => DecVarintLocal(s, t);
    case LFixed32 => TakeLocal(s, t, 4);
    case LFixed64 => TakeLocal(s, t, 8);
    case LBytes => PrefixedLocal(s, t);
    case LString => PrefixedLocal(s, t);
    case LFixedBytes => PrefixedLocal(s, t);
    case LSubmessage =>
  }

  lemma PrefixedLocal(s: bytes, t: bytes)
    requires DecVarint32(s).Ok?
    ensures DecVarint32(s + t) == Extend(DecVarint32(s), t)
    ensures var n, u := DecVarint32(s).value, DecVarint32(s).rest;
            n <= |u| ==> Take(u + t, n) == Extend(Take(u, n), t)
  {
    DecVarint32Local(s, t);
    var n, u := DecVarint32(s).value, DecVarint32(s).rest;
    if n <= |u| { TakeLocal(u, t, n); }
  }

  lemma DecDatumLocal(f: Field, d: Datum, s: bytes, t: bytes)
    requires DecDatum(f, d, s).Ok?
    ensures DecDatum(f, d, s + t) == Extend(DecDatum(f, d, s), t)
  {
    if f.ltype.LSubmessage? { TakeDelimitedLocal(s, t); } else { DecLeafLocal(f, d, s, t); }
  }

  lemma DecSlotLocal(fields: seq<Field>, f: Field, wireType: nat, slot: Slot, got: nat, s: bytes, t: bytes)
    requires DecSlot(fields, f, wireType, slot, got, s).Ok?
    ensures DecSlot(fields, f, wireType, slot, got, s + t) == Extend(DecSlot(fields, f, wireType, slot, got, s), t)
  {
    match slot
    case One(_, d) => DecDatumLocal(f, d, s, t);
    case Many(count, items) =>
      if wireType == WT_STRING && Packable(f) { TakeDelimitedLocal(s, t); }
      else { DecDatumLocal(f, items[if FixedCount(f) then got else count], s, t); }
    case Union(which, d) => DecDatumLocal(f, UnionStart(f, which, d), s, t);
  }

  function ExtendStep(r: Step, t: bytes): Step {
    match r
    case Next(st, rest) => Next(st, rest + t)
    case Stop(rest) => Stop(rest + t)
    case Fail => Fail
  }

  /** A record that was read without error is read the same way when more bytes follow. */
  lemma DecRecordLocal(fields: seq<Field>, st: State, s: bytes, t: bytes)
    requires |st.msg| == |fields| && !DecRecord(fields, st, s).Fail?
    ensures DecRecord(fields, st, s + t) == ExtendStep(DecRecord(fields, st, s), t)
  {
    DecVarint32Local(s, t);
    var key, rest := DecVarint32(s).value, DecVarint32(s).rest;
    if key != 0 {
      var i := Find(fields, key / 8);
      if i.Some? {
        var st1 := StartFixed(fields, st, i.value).value;
        DecSlotLocal(fields, fields[i.value], key % 8, st1.msg[Home(fields, i.value)], st1.got, rest, t);
      } else if fields == [] && key / 8 == 0 {
        DecVarint32Local(rest, t);
      } else {
        SkipPayloadLocal(rest, t, key % 8);
      }
    }
  }

  /** s is a run of complete records that leads from st to st'. */
  predicate Runs(fields: seq<Field>, st: State, s: bytes, st': State)
    requires |st.msg| == |fields|
  {
    DecLoop(fields, st, s) == Done(st', [], false)
  }

  /** Decoding resumes at any record boundary as if the loop had started there. */
  lemma {:induction false} DecLoopResumes(fields: seq<Field>, st: State, s: bytes, st': State, t: bytes)
    requires |st.msg| == |fields| && Runs(fields, st, s, st')
    ensures |st'.msg| == |fields|
    ensures DecLoop(fields, st, s + t) == DecLoop(fields, st', t)
    decreases |s|
  {
    if s == [] {
      assert s + t == t;
    } else {
      DecRecordLocal(fields, st, s, t);
      var r := DecRecord(fields, st, s);
      DecLoopResumes(fields, r.st, r.rest, st', t);
    }
  }
}
