/** The bytes themselves, in the numbers of the Protocol Buffers encoding: what each wire type looks like and how
    it is skipped, which wire type a field's records announce, what their payloads say, and which numbers a field
    takes. Any reader that knows the format, but not the message type, finds its way through what is written. */
module WireFormat {
  import opened Wire
  import opened Descriptor
  import opened Options
  import opened EncodeSpec
  import opened DecodeSpec
  import opened RoundTrip

  // ---------------------------------------------------------------- payloads by wire type

  /** The number that a list of seven-bit groups stands for. */
  function Groups(s: bytes): nat {
    if s == [] then 0 else s[0] % 128 + 128 * Groups(s[1..])
  }

  /** The high bit of every byte but the last is set. */
  predicate Chained(s: bytes) {
    s != [] && forall k :: 0 <= k < |s| ==> (s[k] >= 128 <==> k < |s| - 1)
  }

  /** The writer splits the value into groups, least significant first. */
  lemma {:induction false} VarintLayout(v: nat)
    ensures Chained(EncVarint(v)) && Groups(EncVarint(v)) == v
    decreases v
  {
    if v >= 128 {
      VarintLayout(v / 128);
      assert EncVarint(v)[1..] == EncVarint(v / 128);
    }
  }

  /** p is one payload of wire type w. */
  ghost predicate Payload(w: nat, p: bytes) {
    match w
    case 0 => Chained(p)
    case 1 => |p| == 8
    case 2 => exists b: bytes :: |b| < TWO32 && p == EncDelimited(b)
    case 5 => |p| == 4
    case _ => false
  }

  lemma {:induction false} SkipsVarint(s: bytes, t: bytes)
    requires Chained(s)
    ensures SkipVarint(s + t) == Ok((), t)
    decreases |s|
  {
    assert (s + t)[1..] == s[1..] + t;
    if |s| > 1 { SkipsVarint(s[1..], t); }
  }

  /** Skipping consumes exactly one payload, whatever follows it. */
  lemma SkipsPayload(w: nat, p: bytes, t: bytes)
    requires Payload(w, p)
    ensures SkipPayload(p + t, w) == Ok((), t)
  {
    if w == 0 {
      SkipsVarint(p, t);
    } else if w == 2 {
      var b: bytes :| |b| < TWO32 && p == EncDelimited(b);
      DelimitedPrefix(b, t);
    }
  }

  /** Shorter fixed payloads and all other wire types are refused. */
  lemma SkipRefuses(w: nat, s: bytes)
    requires w == 3 || w == 4 || w >= 6 || (w == 1 && |s| < 8) || (w == 5 && |s| < 4) ||
             (w == 0 && forall k :: 0 <= k < |s| ==> s[k] >= 128)
    ensures SkipPayload(s, w).Err?
  {
    if w == 0 { EndlessVarint(s); }
  }

  lemma {:induction false} EndlessVarint(s: bytes)
    requires forall k :: 0 <= k < |s| ==> s[k] >= 128
    ensures SkipVarint(s).Err?
  {
    if s != [] { EndlessVarint(s[1..]); }
  }

  // ---------------------------------------------------------------- records describe themselves

  /** The wire type of each kind of field, outside packed arrays. */
  predicate Announces(f: Field, w: nat) {
    match f.ltype
    case LBool => w == 0
    case LVarint => w == 0
    case LUVarint => w == 0
    case LSVarint => w == 0
    case LFixed64 => w == 1
    case LBytes => w == 2
    case LString => w == 2
    case LSubmessage => w == 2
    case LFixedBytes => w == 2
    case LFixed32 => w == 5
  }

  lemma NumberPayload(f: Field, n: int, w: nat, p: bytes)
    requires Announces(f, w) && EncNumber(f, n) == Some(p)
    ensures Payload(w, p)
  {
    hide EncVarint, EncFixed, ToUnsigned, ToSigned, ZigZag, Chained;
    if f.ltype.LBool? { VarintLayout(if n != 0 then 1 else 0); }
    if f.ltype.LSVarint? { VarintLayout(ZigZag(ToSigned(n, TWO63))); }
    if f.ltype.LVarint? || f.ltype.LUVarint? { VarintLayout(ToUnsigned(n, TWO64)); }
  }

  lemma DelimitedPayload(b: bytes)
    requires |EncDelimited(b)| < TWO32
    ensures Payload(2, EncDelimited(b))
  {
    hide EncDelimited;
  }

  lemma PayloadOf(f: Field, d: Datum, w: nat, p: bytes)
    requires Announces(f, w) && EncDatum(f, d) == Some(p) && |p| < TWO32
    ensures Payload(w, p)
  {
    hide EncNumber, EncDelimited, EncMessage, CStr, Payload;
    match d
    case Num(n) => NumberPayload(f, n, w, p);
    case Blob(size, buf) => DelimitedPayload(buf[..size]);
    case Text(buf) => DelimitedPayload(CStr(buf));
    case Raw(buf) => DelimitedPayload(buf);
    case Sub(slots) => DelimitedPayload(EncMessage(f.sub, slots).value);
  }

  /** One encoded entry starts with its field number and the wire type of its kind, and what follows is a payload of
      that wire type. */
  lemma RecordDescribesItself(f: Field, d: Datum, e: bytes, t: bytes) returns (w: nat, p: bytes)
    requires WellFormedField(f) && EncTagged(f, d) == Some(e) && |e| < TWO32
    ensures DecVarint32(e + t) == Ok(8 * f.tag + w, p + t)
    ensures Announces(f, w) && Payload(w, p) && EncDatum(f, d) == Some(p)
    ensures SkipPayload(p + t, w) == Ok((), t)
  {
    hide EncVarint, EncDatum, DecVarint32, Payload, WellFormed;
    w, p := WireType(f), EncDatum(f, d).value;
    Varint32RoundTrip(8 * f.tag + w, p + t);
    assert e + t == EncVarint(8 * f.tag + w) + (p + t);
    PayloadOf(f, d, w, p);
    SkipsPayload(w, p, t);
  }

  /** A non-empty array of numbers is one record with one length-delimited payload: the elements one after the other,
      without keys. */
  lemma PackedIsOneRecord(f: Field, s: Slot, e: bytes, t: bytes) returns (body: bytes, p: bytes)
    requires WellFormedField(f) && f.htype.Repeated? && Packable(f) && s.Many? && Present(f, s) > 0
    requires EncSlot(f, s) == Some(e) && |e| < TWO32
    ensures DecVarint32(e + t) == Ok(8 * f.tag + 2, p + t) && TakeDelimited(p + t) == Ok(body, t)
    ensures p == EncDelimited(body) && Present(f, s) <= |s.items| && EncItems(f, s.items[..Present(f, s)]) == Some(body)
  {
    hide EncVarint, DecVarint32, EncItems, WellFormed;
    body := EncItems(f, s.items[..Present(f, s)]).value;
    p := EncDelimited(body);
    Varint32RoundTrip(8 * f.tag + 2, p + t);
    assert e + t == EncVarint(8 * f.tag + 2) + (p + t);
    DelimitedPrefix(body, t);
  }

  /** The encodings of the first n fields, one after the other. */
  function Written(fields: seq<Field>, m: Message, n: nat): Option<bytes>
    requires |m| == |fields| && n <= |fields|
  {
    if n == 0 then Some([])
    else match Written(fields, m, n - 1)
      case None => None
      case Some(a) =>
        match EncSlot(fields[n - 1], m[Home(fields, n - 1)])
        case None => None
        case Some(b) => Some(a + b)
  }

  lemma {:induction false} WrittenThen(fields: seq<Field>, m: Message, n: nat)
    requires |m| == |fields| && n <= |fields|
    ensures EncFrom(fields, m, 0) == match Written(fields, m, n)
            case None => None
            case Some(a) => (match EncFrom(fields, m, n) case None => None case Some(b) => Some(a + b))
    decreases n
  {
    hide EncSlot, Home;
    if n == 0 {
      var r := EncFrom(fields, m, 0);
      if r.Some? { assert [] + r.value == r.value; }
    } else {
      WrittenThen(fields, m, n - 1);
      var a, b, c := Written(fields, m, n - 1), EncSlot(fields[n - 1], m[Home(fields, n - 1)]), EncFrom(fields, m, n);
      if a.Some? && b.Some? && c.Some? { assert a.value + (b.value + c.value) == (a.value + b.value) + c.value; }
    }
  }

  /** Fields are written in the order of the descriptor, each as it is written alone. */
  lemma WrittenInOrder(fields: seq<Field>, m: Message)
    requires |m| == |fields|
    ensures EncMessage(fields, m) == Written(fields, m, |fields|)
  {
    hide Written, EncSlot;
    WrittenThen(fields, m, |fields|);
    var a := Written(fields, m, |fields|);
    if a.Some? { assert a.value + [] == a.value; }
  }

  // ---------------------------------------------------------------- a receiver that lacks the field

  lemma SkipsRecord(gs: seq<Field>, st: State, tag: nat, w: nat, p: bytes, e: bytes)
    requires |st.msg| == |gs| && tag > 0 && Find(gs, tag).None? && w < 8
    requires DecVarint32(e) == Ok(8 * tag + w, p) && SkipPayload(p, w) == Ok((), [])
    ensures Runs(gs, st, e, st)
  {
    hide DecVarint32, SkipPayload, Find;
    assert DecRecord(gs, st, e) == Next(st, []);
    assert DecLoop(gs, st, []) == Done(st, [], false);
  }

  lemma SkipsEntry(gs: seq<Field>, st: State, f: Field, d: Datum, e: bytes)
    requires |st.msg| == |gs| && WellFormedField(f) && Find(gs, f.tag).None?
    requires EncTagged(f, d) == Some(e) && |e| < TWO32
    ensures Runs(gs, st, e, st)
  {
    hide EncTagged, DecVarint32, SkipPayload, Find, Runs, WellFormed, Payload;
    var w, p := RecordDescribesItself(f, d, e, []);
    assert e + [] == e && p + [] == p;
    SkipsRecord(gs, st, f.tag, w, p, e);
  }

  lemma {:induction false} SkipsItems(gs: seq<Field>, st: State, f: Field, ds: seq<Datum>, e: bytes)
    requires |st.msg| == |gs| && WellFormedField(f) && Find(gs, f.tag).None?
    requires EncTaggedItems(f, ds) == Some(e) && |e| < TWO32
    ensures Runs(gs, st, e, st)
    decreases |ds|
  {
    hide EncTagged, DecRecord, Find, WellFormed;
    if ds != [] {
      var a, b := EncTagged(f, ds[0]).value, EncTaggedItems(f, ds[1..]).value;
      SkipsEntry(gs, st, f, ds[0], a);
      SkipsItems(gs, st, f, ds[1..], b);
      DecLoopResumes(gs, st, a, st, b);
    }
  }

  /** Whatever the encoder writes for a field, a receiver whose message type has no such field passes over it and
      keeps its state. */
  lemma SkipsField(gs: seq<Field>, st: State, f: Field, s: Slot, e: bytes)
    requires |st.msg| == |gs| && WellFormedField(f) && Find(gs, f.tag).None?
    requires EncSlot(f, s) == Some(e) && |e| < TWO32
    ensures Runs(gs, st, e, st)
  {
    hide EncTagged, EncTaggedItems, EncItems, DecRecord, Find, WellFormed, IsDefault, DecVarint32, SkipPayload;
    if e == [] {
    } else if f.htype.Repeated? && Packable(f) {
      var body, p := PackedIsOneRecord(f, s, e, []);
      assert e + [] == e && p + [] == p;
      SkipsPayload(2, p, []);
      SkipsRecord(gs, st, f.tag, 2, p, e);
    } else if f.htype.Repeated? {
      SkipsItems(gs, st, f, s.items[..Present(f, s)], e);
    } else {
      SkipsEntry(gs, st, f, s.data, e);
    }
  }

  lemma {:induction false} SkipsFrom(gs: seq<Field>, st: State, fields: seq<Field>, m: Message, i: nat, e: bytes)
    requires |st.msg| == |gs| && |m| == |fields| && i <= |fields| && WellFormed(fields)
    requires forall j :: 0 <= j < |fields| ==> Find(gs, fields[j].tag).None?
    requires EncFrom(fields, m, i) == Some(e) && |e| < TWO32
    ensures Runs(gs, st, e, st)
    decreases |fields| - i
  {
    hide EncSlot, DecRecord, Find, Home, WellFormed;
    if i < |fields| {
      var a, b := EncSlot(fields[i], m[Home(fields, i)]).value, EncFrom(fields, m, i + 1).value;
      assert WellFormedField(fields[i]) by { FieldOf(fields, i); }
      SkipsField(gs, st, fields[i], m[Home(fields, i)], a);
      SkipsFrom(gs, st, fields, m, i + 1, b);
      DecLoopResumes(gs, st, a, st, b);
    }
  }

  /** Nothing of a message reaches a receiver that knows none of its fields: it reads to the end and finds
      nothing. */
  lemma SkipsMessage(gs: seq<Field>, m': Message, fields: seq<Field>, m: Message, e: bytes)
    requires |m'| == |gs| && WellFormed(fields) && EncMessage(fields, m) == Some(e) && |e| < TWO32
    requires forall j :: 0 <= j < |fields| ==> Find(gs, fields[j].tag).None?
    ensures DecLoop(gs, Initial(m'), e) == Done(Initial(m'), [], false)
  {
    hide EncFrom, DecLoop, Find, WellFormed;
    SkipsFrom(gs, Initial(m'), fields, m, 0, e);
  }

  // ---------------------------------------------------------------- numbers

  lemma Parity(acc: nat, g: nat)
    requires acc < TWO63
    ensures (acc + g * TWO63) % TWO64 == acc + g % 2 * TWO63
  {
    var q := g / 2;
    assert g == 2 * q + g % 2;
    Quotient(acc + g * TWO63, TWO64, q);
  }

  lemma TopBit(acc: nat, g: nat)
    requires acc < TWO63
    ensures BitOr(acc, Shl(g, 63) % TWO64) == acc + g % 2 * TWO63
  {
    hide Shl, BitOr;
    Pow2Values();
    ShlTop(g);
    ShlTop(g % 2);
    Parity(0, g);
    BitOrDisjoint(acc, g % 2, 63);
  }

  lemma ShlTop(g: nat)
    ensures Shl(g, 63) == g * TWO63
  {
    hide Shl;
    Pow2Values();
    ShlScale(g, 63);
  }

  lemma {:induction false} ShlScale(g: nat, k: nat)
    ensures Shl(g, k) == g * Pow2(k)
  {
    if k > 0 { ShlScale(g, k - 1); }
  }

  lemma {:induction false} ReadsGroups(s: bytes, t: bytes, j: nat, acc: nat)
    requires Chained(s) && j + |s| <= 10 && acc < Pow2(7 * j)
    ensures DecVarintFrom(s + t, 7 * j, acc) == Ok((acc + Shl(Groups(s), 7 * j)) % TWO64, t)
    decreases |s|
  {
    hide Shl, BitOr;
    var g := s[0] % 128;
    assert (s + t)[1..] == s[1..] + t;
    assert Groups(s) == g + 128 * Groups(s[1..]);
    if j == 9 {
      assert s[1..] == [];
      LastBit(acc, g);
    } else {
      InsideWord(j);
      GroupStep(acc, g, 7 * j);
      if |s| > 1 {
        assert 7 * (j + 1) == 7 * j + 7;
        ReadsGroups(s[1..], t, j + 1, acc + Shl(g, 7 * j));
        ShlSeven(Groups(s[1..]), 7 * j);
        ShlSum(g, 128 * Groups(s[1..]), 7 * j);
      } else {
        assert Groups(s[1..]) == 0;
        ModSmall(acc + Shl(g, 7 * j), TWO64);
      }
    }
  }

  lemma InsideWord(j: nat)
    requires j <= 8
    ensures Pow2(7 * j + 7) <= TWO63
  {
    Pow2Values();
    Pow2Mono(7 * j + 7, 63);
  }

  lemma LastBit(acc: nat, g: nat)
    requires acc < Pow2(63)
    ensures BitOr(acc, Shl(g, 63) % TWO64) == (acc + Shl(g, 63)) % TWO64
  {
    hide Shl, BitOr;
    Pow2Values();
    TopBit(acc, g);
    ShlTop(g);
    Parity(acc, g);
  }

  lemma GroupStep(acc: nat, g: nat, k: nat)
    requires g < 128 && acc < Pow2(k) && Pow2(k + 7) <= TWO63
    ensures BitOr(acc, Shl(g, k) % TWO64) == acc + Shl(g, k) < Pow2(k + 7)
  {
    hide Shl, BitOr;
    ShlSeven(1, k);
    ShlSum(g, 1, k);
    ShlMono(g + 1, 128, k);
    assert Shl(128, k) == Pow2(k + 7) by { ShlSeven(1, k); }
    BitOrDisjoint(acc, g, k);
  }

  /** The reader takes any chain of up to ten bytes, minimal or not, and keeps the low 64 bits of its value; longer
      chains are refused. */
  lemma VarintReads(s: bytes, t: bytes)
    requires Chained(s)
    ensures DecVarint(s + t) == if |s| <= 10 then Ok(Groups(s) % TWO64, t) else Err
  {
    if |s| <= 10 { ReadsGroups(s, t, 0, 0); } else { LongChain(s + t, 0, 0); }
  }

  lemma {:induction false} LongChain(s: bytes, j: nat, acc: nat)
    requires j <= 10 && 10 - j <= |s| && forall k :: 0 <= k < 10 - j ==> s[k] >= 128
    ensures DecVarintFrom(s, 7 * j, acc) == Err
    decreases |s|
  {
    if j < 10 {
      assert 7 * (j + 1) == 7 * j + 7;
      LongChain(s[1..], j + 1, BitOr(acc, Shl(s[0] % 128, 7 * j) % TWO64));
    }
  }

  lemma {:induction false} ZeroTail(s: bytes, t: bytes, bitpos: nat, acc: nat)
    requires Chained(s) && Groups(s) == 0
    ensures DecVarint32From(s + t, bitpos, acc) == Ok(acc, t)
    decreases |s|
  {
    assert (s + t)[1..] == s[1..] + t;
    assert s[0] % 128 == 0;
    ShlZero(bitpos);
    BitOrZero(acc);
    assert Group32(s[0], bitpos, acc) == acc;
    if |s| > 1 { ZeroTail(s[1..], t, (bitpos + 7) % 256, acc); }
  }

  lemma GroupsSplit(s: bytes)
    requires s != []
    ensures Groups(s) % 128 == s[0] % 128 && Groups(s) / 128 == Groups(s[1..])
    ensures |s| == 1 ==> Groups(s) == s[0] % 128
  {
  }

  lemma {:induction false} ReadsGroups32(s: bytes, t: bytes, k: nat, acc: nat)
    requires Chained(s) && 1 <= k <= 4 && acc < Pow2(7 * k) && acc + Shl(Groups(s), 7 * k) < TWO32
    ensures DecVarint32From(s + t, 7 * k, acc) == Ok(acc + Shl(Groups(s), 7 * k), t)
    decreases |s|
  {
    hide Shl, BitOr, Pow2, DecVarint32From, Groups;
    var v := Groups(s);
    var bitpos := 7 * k;
    assert (s + t)[1..] == s[1..] + t;
    GroupsSplit(s);
    if k == 4 { LastGroup(v); }
    LowGroup(v, bitpos, acc, TWO32);
    DecVarint32Group(s + t, bitpos, acc, Shl(v % 128, bitpos));
    if |s| == 1 {
      ShlZero(bitpos + 7);
    } else if k == 4 {
      ZeroTail(s[1..], t, 35, acc + Shl(v % 128, bitpos));
      ShlZero(35);
    } else {
      assert 7 * (k + 1) == bitpos + 7;
      ReadsGroups32(s[1..], t, k + 1, acc + Shl(v % 128, bitpos));
    }
  }

  /** The 32-bit reader takes any chain, however long, whose value fits into 32 bits. */
  lemma Varint32Reads(s: bytes, t: bytes)
    requires Chained(s) && Groups(s) < TWO32
    ensures DecVarint32(s + t) == Ok(Groups(s), t)
  {
    hide DecVarint32From, BitOr;
    assert (s + t)[1..] == s[1..] + t;
    if |s| > 1 {
      LowGroup(Groups(s), 0, 0, TWO32);
      GroupsSplit(s);
      ReadsGroups32(s[1..], t, 1, s[0] % 128);
    }
  }

  /** Byte k of a little-endian number is its k-th digit to the base 256. */
  predicate LittleEndian(b: bytes, n: nat) {
    n < Pow2(8 * |b|) && forall k :: 0 <= k < |b| ==> b[k] == n / Pow2(8 * k) % 256
  }

  lemma {:induction false} DigitsOf(b: bytes)
    ensures LittleEndian(b, FromFixed(b))
  {
    hide Shl, Pow2;
    FromFixedBound(b);
    if b != [] {
      var n, m := FromFixed(b), FromFixed(b[1..]);
      DigitsOf(b[1..]);
      forall k | 0 <= k < |b| ensures b[k] == n / Pow2(8 * k) % 256 {
        if k == 0 { LowDigit(n, m, b[0]); } else {
          assert b[k] == b[1..][k - 1];
          NextDigit(n, m, b[0], k - 1);
        }
      }
    }
  }

  lemma LowDigit(n: nat, m: nat, low: byte)
    requires n == low + 256 * m
    ensures n / Pow2(8 * 0) % 256 == low
  {
    assert Pow2(0) == 1;
  }

  lemma NextDigit(n: nat, m: nat, low: byte, k: nat)
    requires n == low + 256 * m
    ensures n / Pow2(8 * (k + 1)) == m / Pow2(8 * k)
  {
    hide Shl, Pow2;
    ByteScale(k);
    DivTwice(n, Pow2(8 * k));
  }

  lemma DivTwice(n: nat, p: nat)
    requires p > 0
    ensures n / (256 * p) == n / 256 / p
  {
    var q := n / 256 / p;
    var r := n / 256 - q * p;
    assert n / 256 == q * p + r && 0 <= r < p;
    assert n == 256 * (q * p + r) + n % 256;
    assert q * (256 * p) <= n < (q + 1) * (256 * p);
    assert n / (256 * p) == q by { Quotient(n, 256 * p, q); }
  }

  lemma Quotient(n: int, d: nat, q: int)
    requires d > 0 && q * d <= n < (q + 1) * d
    ensures n / d == q
  {
    var r := n / d;
    assert r * d <= n < (r + 1) * d;
    if r < q { TimesGrows(r + 1, q, d); }
    if r > q { TimesGrows(q + 1, r, d); }
  }

  lemma TimesGrows(a: int, b: int, d: nat)
    requires a <= b
    ensures a * d <= b * d
  {
    assert (b - a) * d >= 0;
  }

  lemma FixedLayout(n: nat, width: nat)
    requires n < Pow2(8 * width)
    ensures LittleEndian(EncFixed(n, width), n)
  {
    FixedRoundTrip(n, width);
    DigitsOf(EncFixed(n, width));
  }

  /** What is written for a number of each kind. A negative int32 or int64 takes ten bytes. */
  lemma NumberOnTheWire(f: Field, n: int, t: bytes)
    requires WellFormedField(f) && Packable(f) && InRange(f, n)
    ensures EncDatum(f, Num(n)).Some?
    ensures var p := EncDatum(f, Num(n)).value;
            match f.ltype
            case LBool => p == if n == 0 then [0] else [1]
            case LVarint => DecVarint(p + t) == Ok(if n < 0 then 0x1_0000_0000_0000_0000 + n else n, t) &&
                (n < 0 ==> |p| == 10)
            case LUVarint => DecVarint(p + t) == Ok(n, t)
            case LSVarint => DecVarint(p + t) == Ok(if n < 0 then -2 * n - 1 else 2 * n, t)
            case LFixed32 => |p| == 4 && LittleEndian(p, n)
            case LFixed64 => |p| == 8 && LittleEndian(p, n)
            case _ => true
  {
    hide DecVarint, EncVarint, EncFixed, LittleEndian, ToUnsigned, ToSigned, ZigZag, Shl, WellFormed;
    match f.ltype
    case LBool => SmallVarint(0); SmallVarint(1);
    case LVarint =>
      var u := if n < 0 then TWO64 + n else n;
      InWord(n);
      VarintRoundTrip(u, t);
      if n < 0 { TopHalfIsLong(u); }
    case LUVarint => InWord(n); VarintRoundTrip(n, t);
    case LSVarint =>
      InWord(n);
      ZigZagRoundTrip(n);
      VarintRoundTrip(ZigZag(n), t);
    case LFixed32 => InWord(n); Pow2Values(); FixedLayout(n, 4);
    case LFixed64 => InWord(n); Pow2Values(); FixedLayout(n, 8);
    case _ =>
  }

  lemma SmallVarint(v: nat)
    requires v < 128
    ensures EncVarint(v) == [v]
  {
  }

  /** The conversions of a number that is in range anyhow. */
  lemma InWord(n: int)
    ensures -TWO63 <= n < TWO64 ==> ToUnsigned(n, TWO64) == if n < 0 then TWO64 + n else n
    ensures -TWO63 <= n < TWO63 ==> ToSigned(n, TWO63) == n
    ensures 0 <= n < TWO32 ==> ToUnsigned(n, TWO32) == n
  {
  }

  lemma TopHalfIsLong(u: nat)
    requires TWO63 <= u < TWO64
    ensures |EncVarint(u)| == 10
  {
    VarintIsMinimal(u, 10);
    Pow2Values();
    Pow2Mono(64, 70);
  }

  /** Which numbers a field takes: a value that does not fit is refused and not wrapped, except that int32 looks at
      the low 32 bits only. */
  lemma NumberAccepted(f: Field, d: Datum, v: nat, t: bytes)
    requires WellFormedField(f) && v < TWO64
    ensures f.ltype.LUVarint? ==>
              DecLeaf(f, d, EncVarint(v) + t) ==
              if f.dataSize == 8 || v < (if f.dataSize == 4 then 0x1_0000_0000 else if f.dataSize == 2 then 0x1_0000
                                         else 0x100)
              then Ok(Num(v), t) else Err
    ensures f.ltype.LVarint? && f.dataSize == 8 ==>
              DecLeaf(f, d, EncVarint(v) + t) ==
              Ok(Num(if v < 0x8000_0000_0000_0000 then v else v - 0x1_0000_0000_0000_0000), t)
    ensures f.ltype.LVarint? && f.dataSize != 8 ==>
              var low := v % 0x1_0000_0000;
              var n := if low < 0x8000_0000 then low else low - 0x1_0000_0000;
              DecLeaf(f, d, EncVarint(v) + t) ==
              if f.dataSize == 4 || (if f.dataSize == 2 then -0x8000 <= n < 0x8000 else -0x80 <= n < 0x80)
              then Ok(Num(n), t) else Err
    ensures f.ltype.LSVarint? ==>
              var n := if v % 2 == 0 then v / 2 else -(v / 2) - 1;
              DecLeaf(f, d, EncVarint(v) + t) ==
              if f.dataSize == 8 || (if f.dataSize == 4 then -0x8000_0000 <= n < 0x8000_0000
                                     else if f.dataSize == 2 then -0x8000 <= n < 0x8000 else -0x80 <= n < 0x80)
              then Ok(Num(n), t) else Err
    ensures f.ltype.LBool? && v < TWO32 ==> DecLeaf(f, d, EncVarint(v) + t) == Ok(Num(if v == 0 then 0 else 1), t)
  {
    hide DecVarint, DecVarint32, EncVarint, WellFormed, ShapedDatum, ValidDatum, CheckedUnsigned, CheckedSigned,
        CheckedZigZag;
    VarintRoundTrip(v, t);
    match f.ltype
    case LUVarint => UnsignedCheck(f, v);
    case LVarint => SignedCheck(f, v);
    case LSVarint => ZigZagCheck(f, v);
    case LBool => if v < TWO32 { Varint32RoundTrip(v, t); }
    case _ =>
  }

  lemma UnsignedCheck(f: Field, v: nat)
    requires IntSize(f.dataSize) && v < TWO64
    ensures CheckedUnsigned(f, v) ==
            if f.dataSize == 8 || v < (if f.dataSize == 4 then 0x1_0000_0000 else if f.dataSize == 2 then 0x1_0000
                                       else 0x100)
            then Some(v) else None
  {
  }

  lemma SignedCheck(f: Field, v: nat)
    requires IntSize(f.dataSize) && v < TWO64
    ensures f.dataSize == 8 ==>
              CheckedSigned(f, v) == Some(if v < 0x8000_0000_0000_0000 then v else v - 0x1_0000_0000_0000_0000)
    ensures f.dataSize != 8 ==>
              var low := v % 0x1_0000_0000;
              var n := if low < 0x8000_0000 then low else low - 0x1_0000_0000;
              CheckedSigned(f, v) ==
              if f.dataSize == 4 || (if f.dataSize == 2 then -0x8000 <= n < 0x8000 else -0x80 <= n < 0x80)
              then Some(n) else None
  {
    var low := if f.dataSize == 8 then v else v % TWO32;
    var half := if f.dataSize == 8 then TWO63 else TWO31;
    LowSigned(v, low, half);
    hide ToSigned;
    SignedFits(ToSigned(v, half), f.dataSize);
  }

  lemma LowSigned(v: nat, low: nat, half: int)
    requires half > 0 && low == v % (2 * half)
    ensures ToSigned(v, half) == if low < half then low else low - 2 * half
  {
    var m := 2 * half;
    var q := v / m;
    if low < half { Quotient(v + half, m, q); } else { Quotient(v + half, m, q + 1); }
  }

  lemma ZigZagCheck(f: Field, v: nat)
    requires IntSize(f.dataSize) && v < TWO64
    ensures var n := if v % 2 == 0 then v / 2 else -(v / 2) - 1;
            CheckedZigZag(f, v) ==
            if f.dataSize == 8 || (if f.dataSize == 4 then -0x8000_0000 <= n < 0x8000_0000
                                   else if f.dataSize == 2 then -0x8000 <= n < 0x8000 else -0x80 <= n < 0x80)
            then Some(n) else None
  {
    var n := if v % 2 == 0 then v / 2 else -(v / 2) - 1;
    assert UnZigZag(v) == n;
    hide UnZigZag;
    SignedFits(n, f.dataSize);
  }

  lemma SignedFits(n: int, size: nat)
    requires IntSize(size) && -TWO63 <= n < TWO63
    ensures ToSigned(n, Half(size)) == n <==> -Half(size) <= n < Half(size)
  {
  }

  /** Fixed-width fields take any bytes and read them little-endian. */
  lemma FixedAccepted(f: Field, d: Datum, b: bytes, t: bytes)
    requires (f.ltype.LFixed32? && |b| == 4) || (f.ltype.LFixed64? && |b| == 8)
    ensures var r := DecLeaf(f, d, b + t);
            r.Ok? && r.rest == t && r.value.Num? && r.value.n >= 0 && LittleEndian(b, r.value.n)
  {
    hide LittleEndian;
    DigitsOf(b);
    assert (b + t)[..|b|] == b && (b + t)[|b|..] == t;
  }

  /** Which byte strings a field in place takes. A byte array has a four-byte header, a string a terminator, and an
      empty record clears a byte array of fixed length. */
  lemma BytesAccepted(f: Field, d: Datum, b: bytes, t: bytes)
    requires |b| < TWO32
    ensures var r := DecLeaf(f, d, EncDelimited(b) + t);
            match f.ltype
            case LBytes => if |b| + 4 <= f.dataSize then r.Ok? && r.rest == t && ViewDatum(f, r.value) == VBytes(b)
                               else r.Err?
            case LString =>
              if |b| + 1 <= f.dataSize
              then r.Ok? && r.rest == t && (0 !in b ==> ViewDatum(f, r.value) == VBytes(b))
              else r.Err?
            case LFixedBytes =>
              if |b| == f.dataSize then r == Ok(Raw(b), t)
              else if b == [] then r == Ok(Raw(seq(f.dataSize, _ => 0)), t)
              else r.Err?
            case _ => true
  {
    hide DecVarint32, EncVarint, CStr;
    DelimitedPrefix(b, t);
    if f.ltype.LString? && |b| + 1 <= f.dataSize && 0 !in b {
      var tail := if |b + [0]| <= |Buffer(d)| then Buffer(d)[|b + [0]|..] else [];
      CStrIs(b, tail);
    }
  }

  /** What reading a string or byte array stores: the bytes, a terminator behind a string, and nothing else. */
  lemma BytesStored(f: Field, d: Datum, b: bytes, t: bytes)
    requires (f.ltype.LString? || f.ltype.LBytes?) && ShapedDatum(f, d) && |b| < TWO32
    requires |b| + (if f.ltype.LString? then 1 else 4) <= f.dataSize
    ensures var r := DecLeaf(f, d, EncDelimited(b) + t);
            && r.Ok? && r.value == (if f.ltype.LString? then Text(r.value.buf) else Blob(|b|, r.value.buf))
            && |r.value.buf| == |d.buf|
            && forall k :: 0 <= k < |d.buf| ==>
                 r.value.buf[k] == if k < |b| then b[k] else if k == |b| && f.ltype.LString? then 0 else d.buf[k]
  {
    hide DecVarint32, EncVarint;
    DelimitedPrefix(b, t);
  }
}
