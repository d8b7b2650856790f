/** The Protocol Buffers wire format as nanopb reads and writes it: bit arithmetic, base-128 varints
    (64-bit and the stricter 32-bit reader), zigzag, fixed-width integers, tags and payload skipping.
    Decoders are functions on the unread bytes; they return the value and what is left unread. */
module Wire {
  type byte = x: int | 0 <= x < 256
  type bytes = seq<byte>

  const TWO31: int := 0x8000_0000
  const TWO32: int := 0x1_0000_0000
  const TWO63: int := 0x8000_0000_0000_0000
  const TWO64: int := 0x1_0000_0000_0000_0000

  datatype Res<+T> = Ok(value: T, rest: bytes) | Err

  // ---------------------------------------------------------------- bits

  /** The C operator `<<` without a width limit. */
  function Shl(v: nat, k: nat): (r: nat)
    ensures v > 0 ==> r > 0
  {
    if k == 0 then v else 2 * Shl(v, k - 1)
  }

  function Pow2(k: nat): (r: nat)
    ensures r > 0
  {
    Shl(1, k)
  }

  /** The C operator `|` on non-negative values. */
  function BitOr(a: nat, b: nat): nat
    decreases a + b
  {
    if a == 0 && b == 0 then 0
    else (if a % 2 == 1 || b % 2 == 1 then 1 else 0) + 2 * BitOr(a / 2, b / 2)
  }

  lemma ShlAdd(v: nat, j: nat, k: nat)
    ensures Shl(v, j + k) == Shl(Shl(v, j), k)
  {
    if k > 0 {
      ShlAdd(v, j, k - 1);
      assert Shl(v, j + k) == 2 * Shl(v, j + k - 1);
    }
  }

  lemma ShlSum(a: nat, b: nat, k: nat)
    ensures Shl(a + b, k) == Shl(a, k) + Shl(b, k)
  {
    if k > 0 { ShlSum(a, b, k - 1); }
  }

  lemma {:induction false} ShlZero(k: nat)
    ensures Shl(0, k) == 0
  {
    if k > 0 { ShlZero(k - 1); }
  }

  lemma ShlMono(a: nat, b: nat, k: nat)
    requires a <= b
    ensures Shl(a, k) <= Shl(b, k)
  {
    ShlSum(a, b - a, k);
  }

  lemma ShlSeven(v: nat, k: nat)
    ensures Shl(v, k + 7) == 128 * Shl(v, k) == Shl(128 * v, k)
  {
    assert Shl(v, k + 7) == 4 * Shl(v, k + 5) == 16 * Shl(v, k + 3) == 64 * Shl(v, k + 1);
    ShlAdd(v, 7, k);
    assert Shl(v, 7) == 4 * Shl(v, 5) == 16 * Shl(v, 3);
    assert Shl(v, 3) == 4 * Shl(v, 1);
    assert Shl(v, 7 + k) == Shl(v, k + 7);
  }

  lemma Pow2Mono(j: nat, k: nat)
    requires j <= k
    ensures Pow2(j) <= Pow2(k)
    decreases k - j
  {
    if j < k { Pow2Mono(j, k - 1); }
  }

  /** The powers the codec uses as shift amounts and limits. */
  lemma Pow2Values()
    ensures Pow2(7) == 128 && Pow2(8) == 256 && Pow2(14) == 0x4000 && Pow2(21) == 0x20_0000 && Pow2(28) == 0x1000_0000
    ensures Pow2(31) == TWO31 && Pow2(32) == TWO32 && Pow2(63) == TWO63 && Pow2(64) == TWO64
  {
    var z := 0;
    ShlSeven(1, z);
    ShlSeven(1, z + 7);
    ShlSeven(1, z + 14);
    ShlSeven(1, z + 21);
    PowerStep(z + 28, TWO31 / 8);
    ShlSeven(1, z + 28);
    ShlSeven(1, z + 35);
    ShlSeven(1, z + 42);
    ShlSeven(1, z + 49);
    ShlSeven(1, z + 56);
  }

  lemma PowerStep(k: nat, p: nat)
    requires Pow2(k) == p
    ensures Pow2(k + 3) == 8 * p && Pow2(k + 4) == 16 * p
  {
    assert Pow2(k + 2) == 2 * Pow2(k + 1);
    assert Pow2(k + 4) == 2 * Pow2(k + 3);
  }

  /** Or-ing in bits that lie above every set bit is addition. */
  lemma {:induction false} BitOrDisjoint(a: nat, c: nat, k: nat)
    requires a < Pow2(k)
    ensures BitOr(a, Shl(c, k)) == a + Shl(c, k)
    decreases k, c
  {
    if k == 0 {
      BitOrZero(c);
    } else {
      BitOrDisjoint(a / 2, c, k - 1);
    }
  }

  lemma {:induction false} BitOrZero(c: nat)
    ensures BitOr(0, c) == c && BitOr(c, 0) == c
  {
    if c > 0 { BitOrZero(c / 2); }
  }

  lemma {:induction false} BitOrBound(a: nat, b: nat, k: nat)
    requires a < Pow2(k) && b < Pow2(k)
    ensures BitOr(a, b) < Pow2(k)
  {
    if k > 0 { BitOrBound(a / 2, b / 2, k - 1); }
  }

  // ---------------------------------------------------------------- varints

  /** Minimal base-128 form, least significant group first. */
  function EncVarint(v: nat): (e: bytes)
    ensures |e| >= 1
  {
    if v < 128 then [v] else [v % 128 + 128] + EncVarint(v / 128)
  }

  function DecVarintFrom(s: bytes, bitpos: nat, acc: nat): (r: Res<nat>)
    ensures r.Ok? ==> |r.rest| < |s|
    decreases |s|
  {
    if bitpos >= 64 || s == [] then Err
    else
      var acc' := BitOr(acc, Shl(s[0] % 128, bitpos) % TWO64);
      if s[0] >= 128 then DecVarintFrom(s[1..], bitpos + 7, acc') else Ok(acc', s[1..])
  }

  /** pb_decode_varint: at most ten bytes, bits beyond the 64th are shifted out. */
  function DecVarint(s: bytes): (r: Res<nat>)
    ensures r.Ok? ==> |r.rest| < |s|
  {
    DecVarintFrom(s, 0, 0)
  }

  function DecVarint32From(s: bytes, bitpos: nat, acc: nat): (r: Res<nat>)
    ensures r.Ok? ==> |r.rest| < |s|
    decreases |s|
  {
    if s == [] then Err
    else
      var b := s[0];
      if Overflows32(b, bitpos, acc) then Err
      else
        var next := (bitpos + 7) % 256;   // bitpos is an 8-bit counter
        if b >= 128 then DecVarint32From(s[1..], next, Group32(b, bitpos, acc))
        else if next == 35 && b / 16 % 8 != 0 then Err
        else Ok(Group32(b, bitpos, acc), s[1..])
  }

  /** A group past bit 31 must be a zero group or a sign extension. */
  predicate Overflows32(b: byte, bitpos: nat, acc: nat) {
    bitpos >= 32 && b % 128 != 0 && (acc / TWO31 == 0 || b != if bitpos < 63 then 0xFF else 0x01)
  }

  /** The accumulated value after one more group. */
  function Group32(b: byte, bitpos: nat, acc: nat): nat {
    if bitpos >= 32 then acc else BitOr(acc, Shl(b % 128, bitpos) % TWO32)
  }

  /** pb_decode_varint32. */
  function DecVarint32(s: bytes): (r: Res<nat>)
    ensures r.Ok? ==> |r.rest| < |s|
  {
    if s == [] then Err
    else if s[0] < 128 then Ok(s[0], s[1..])
    else DecVarint32From(s[1..], 7, s[0] % 128)
  }

  function SkipVarint(s: bytes): (r: Res<()>)
    ensures r.Ok? ==> |r.rest| < |s|
    decreases |s|
  {
    if s == [] then Err
    else if s[0] >= 128 then SkipVarint(s[1..])
    else Ok((), s[1..])
  }

  function Skip(s: bytes, n: nat): (r: Res<()>)
    ensures r.Ok? ==> |r.rest| + n == |s|
  {
    if |s| < n then Err else Ok((), s[n..])
  }

  function Take(s: bytes, n: nat): (r: Res<bytes>)
    ensures r.Ok? ==> |r.rest| + n == |s| && |r.value| == n && s == r.value + r.rest
  {
    if |s| < n then Err else Ok(s[..n], s[n..])
  }

  /** A length prefix and that many bytes. */
  function TakeDelimited(s: bytes): (r: Res<bytes>)
    ensures r.Ok? ==> |r.rest| + |r.value| < |s|
  {
    match DecVarint32(s)
    case Err => Err
    case Ok(n, rest) => Take(rest, n)
  }

  const WT_VARINT := 0
  const WT_64BIT := 1
  const WT_STRING := 2
  const WT_32BIT := 5

  /** pb_skip_field: consume one payload of the given wire type. */
  function SkipPayload(s: bytes, wireType: nat): (r: Res<()>)
    ensures r.Ok? ==> |r.rest| < |s|
  {
    if wireType == WT_VARINT then SkipVarint(s)
    else if wireType == WT_64BIT then Skip(s, 8)
    else if wireType == WT_STRING then
      match TakeDelimited(s)
      case Err => Err
      case Ok(_, rest) => Ok((), rest)
    else if wireType == WT_32BIT then Skip(s, 4)
    else Err
  }

  // ---------------------------------------------------------------- integers

  function ToUnsigned(v: int, modulus: nat): nat
    requires modulus > 0
  {
    v % modulus
  }

  /** Conversion to a two's complement type whose range is [-half, half). */
  function ToSigned(v: int, half: int): (r: int)
    requires half > 0
    ensures -half <= r < half
  {
    (v + half) % (2 * half) - half
  }

  /** pb_encode_svarint's mapping of an int64_t to the uint64_t it writes. */
  function ZigZag(v: int): nat
    requires -TWO63 <= v < TWO63
  {
    if v < 0 then TWO64 - 1 - 2 * v % TWO64 else 2 * v
  }

  /** pb_decode_svarint's inverse mapping. */
  function UnZigZag(u: nat): int {
    ToSigned(if u % 2 == 1 then TWO64 - 1 - u / 2 else u / 2, TWO63)
  }

  function EncFixed(v: nat, width: nat): (e: bytes)
    ensures |e| == width
  {
    if width == 0 then [] else [v % 256] + EncFixed(v / 256, width - 1)
  }

  function FromFixed(s: bytes): nat
  {
    if s == [] then 0 else s[0] + 256 * FromFixed(s[1..])
  }

  function DecFixed(s: bytes, width: nat): (r: Res<nat>)
    ensures r.Ok? ==> |r.rest| + width == |s|
  {
    match Take(s, width)
    case Err => Err
    case Ok(b, rest) => Ok(FromFixed(b), rest)
  }

  // ---------------------------------------------------------------- what the readers undo

  /** Splitting off the low seven bits of a shifted value. */
  lemma LowGroup(v: nat, k: nat, acc: nat, limit: nat)
    requires acc < Pow2(k) && acc + Shl(v, k) < limit
    ensures Shl(v, k) == Shl(v % 128, k) + Shl(v / 128, k + 7)
    ensures Shl(v % 128, k) % limit == Shl(v % 128, k)
    ensures acc + Shl(v % 128, k) < Pow2(k + 7)
    ensures BitOr(acc, Shl(v % 128, k)) == acc + Shl(v % 128, k)
    ensures v >= 128 ==> Pow2(k + 7) <= Shl(v, k)
  {
    ShlSum(v % 128, 128 * (v / 128), k);
    ShlSeven(v / 128, k);
    ShlSeven(1, k);
    ShlSum(v % 128, 1, k);
    ShlMono(v % 128 + 1, 128, k);
    if v >= 128 { ShlMono(128, v, k); }
    ModSmall(Shl(v % 128, k), limit);
    BitOrDisjoint(acc, v % 128, k);
  }

  lemma ModSmall(x: nat, m: nat)
    requires x < m
    ensures x % m == x
  {
  }

  lemma EncVarintSplit(v: nat, t: bytes)
    ensures var s := EncVarint(v) + t;
            && s[0] % 128 == v % 128
            && (s[0] >= 128 <==> v >= 128)
            && s[1..] == if v >= 128 then EncVarint(v / 128) + t else t
  {
    if v >= 128 { assert (EncVarint(v) + t)[1..] == EncVarint(v / 128) + t; }
  }

  lemma {:induction false} DecVarintFromEnc(v: nat, t: bytes, bitpos: nat, acc: nat)
    requires bitpos < 64 && acc < Pow2(bitpos) && acc + Shl(v, bitpos) < TWO64
    ensures DecVarintFrom(EncVarint(v) + t, bitpos, acc) == Ok(acc + Shl(v, bitpos), t)
    decreases v
  {
    hide Shl, BitOr, EncVarint;
    EncVarintSplit(v, t);
    LowGroup(v, bitpos, acc, TWO64);
    if v < 128 {
      ShlZero(bitpos + 7);
    } else {
      assert bitpos + 7 < 64 by {
        if bitpos + 7 >= 64 { Pow2Mono(64, bitpos + 7); Pow2Values(); }
      }
      DecVarintFromEnc(v / 128, t, bitpos + 7, acc + Shl(v % 128, bitpos));
    }
  }

  /** Reading back a varint gives the value and leaves the following bytes. */
  lemma VarintRoundTrip(v: nat, t: bytes)
    requires v < TWO64
    ensures DecVarint(EncVarint(v) + t) == Ok(v, t)
  {
    DecVarintFromEnc(v, t, 0, 0);
  }

  lemma {:induction false} VarintLength(v: nat, n: nat)
    requires n >= 1
    ensures |EncVarint(v)| <= n <==> v < Pow2(7 * n)
    decreases n
  {
    Pow2Values();
    if n > 1 {
      ShlSeven(1, 7 * (n - 1));
      Pow2Mono(7, 7 * n);
      if v >= 128 { VarintLength(v / 128, n - 1); }
    }
  }

  /** The writer is minimal: a value takes n bytes exactly when it needs n groups of seven bits;
      so a uint64_t never takes more than the ten bytes of pb_encode_varint's buffer. */
  lemma VarintIsMinimal(v: nat, n: nat)
    requires n >= 1
    ensures |EncVarint(v)| == n <==> ((n == 1 || Pow2(7 * (n - 1)) <= v) && v < Pow2(7 * n))
    ensures v < TWO64 ==> |EncVarint(v)| <= 10
  {
    VarintLength(v, n);
    if n > 1 { VarintLength(v, n - 1); }
    VarintLength(v, 10);
    Pow2Values();
    Pow2Mono(64, 70);
  }

  /** One step of the 32-bit reader while its counter is still inside the word. */
  lemma DecVarint32Group(s: bytes, bitpos: nat, acc: nat, group: nat)
    requires s != [] && bitpos < 32 && Shl(s[0] % 128, bitpos) % TWO32 == group
    requires bitpos == 28 && s[0] < 128 ==> s[0] / 16 % 8 == 0
    ensures DecVarint32From(s, bitpos, acc) ==
            if s[0] >= 128 then DecVarint32From(s[1..], bitpos + 7, BitOr(acc, group))
                else Ok(BitOr(acc, group), s[1..])
  {
  }

  /** A 32-bit value leaves only four bits for the group at bit 28. */
  lemma LastGroup(v: nat)
    requires Shl(v, 28) < TWO32
    ensures v < 16 && v / 16 % 8 == 0
  {
    Pow2Values();
    ShlAdd(1, 4, 28);
    assert Shl(1, 4) == 16;
    if v >= 16 { ShlMono(16, v, 28); }
  }

  lemma {:induction false} DecVarint32FromEnc(v: nat, t: bytes, k: nat, acc: nat)
    requires 1 <= k <= 4 && acc < Pow2(7 * k) && acc + Shl(v, 7 * k) < TWO32
    ensures DecVarint32From(EncVarint(v) + t, 7 * k, acc) == Ok(acc + Shl(v, 7 * k), t)
    decreases v
  {
    hide Shl, BitOr, Pow2, EncVarint, DecVarint32From;
    var s := EncVarint(v) + t;
    var bitpos := 7 * k;
    if k == 4 { LastGroup(v); }
    LowGroup(v, bitpos, acc, TWO32);
    EncVarintSplit(v, t);
    DecVarint32Group(s, bitpos, acc, Shl(v % 128, bitpos));
    if v < 128 {
      ShlZero(bitpos + 7);
    } else {
      assert 7 * (k + 1) == bitpos + 7;
      DecVarint32FromEnc(v / 128, t, k + 1, acc + Shl(v % 128, bitpos));
    }
  }

  lemma Varint32RoundTrip(v: nat, t: bytes)
    requires v < TWO32
    ensures DecVarint32(EncVarint(v) + t) == Ok(v, t)
  {
    EncVarintSplit(v, t);
    if v >= 128 {
      LowGroup(v, 0, 0, TWO32);
      DecVarint32FromEnc(v / 128, t, 1, v % 128);
    }
  }

  lemma ZigZagRoundTrip(v: int)
    requires -TWO63 <= v < TWO63
    ensures ZigZag(v) < TWO64
    ensures ZigZag(v) == if v < 0 then -2 * v - 1 else 2 * v
    ensures UnZigZag(ZigZag(v)) == v
  {
  }

  /** A signed value written by pb_encode_svarint is read back by pb_decode_svarint. */
  lemma SVarintRoundTrip(v: int, t: bytes)
    requires -TWO63 <= v < TWO63
    ensures ZigZag(v) < TWO64
    ensures var r := DecVarint(EncVarint(ZigZag(v)) + t);
            r.Ok? && r.rest == t && r.value < TWO64 && UnZigZag(r.value) == v
  {
    ZigZagRoundTrip(v);
    VarintRoundTrip(ZigZag(v), t);
  }

  lemma ByteScale(n: nat)
    ensures Pow2(8 * (n + 1)) == 256 * Pow2(8 * n)
  {
    ShlSeven(1, 8 * n + 1);
  }

  lemma {:induction false} FixedRoundTrip(v: nat, width: nat)
    requires v < Pow2(8 * width)
    ensures FromFixed(EncFixed(v, width)) == v
  {
    if width > 0 {
      ByteScale(width - 1);
      assert v / 256 < Pow2(8 * (width - 1));
      FixedRoundTrip(v / 256, width - 1);
      assert EncFixed(v, width)[1..] == EncFixed(v / 256, width - 1);
    }
  }

  lemma {:induction false} FromFixedBound(s: bytes)
    ensures FromFixed(s) < Pow2(8 * |s|)
  {
    if s != [] {
      FromFixedBound(s[1..]);
      ByteScale(|s[1..]|);
    }
  }

  lemma {:induction false} DecVarintFromBound(s: bytes, bitpos: nat, acc: nat)
    requires acc < TWO64
    ensures DecVarintFrom(s, bitpos, acc).Ok? ==> DecVarintFrom(s, bitpos, acc).value < TWO64
    decreases |s|
  {
    if bitpos < 64 && s != [] {
      Pow2Values();
      BitOrBound(acc, Shl(s[0] % 128, bitpos) % TWO64, 64);
      if s[0] >= 128 {
        DecVarintFromBound(s[1..], bitpos + 7, BitOr(acc, Shl(s[0] % 128, bitpos) % TWO64));
      }
    }
  }

  lemma DecVarintBound(s: bytes)
    ensures DecVarint(s).Ok? ==> DecVarint(s).value < TWO64
  {
    DecVarintFromBound(s, 0, 0);
  }

  lemma {:induction false} DecVarint32FromBound(s: bytes, bitpos: nat, acc: nat)
    requires acc < TWO32
    ensures DecVarint32From(s, bitpos, acc).Ok? ==> DecVarint32From(s, bitpos, acc).value < TWO32
    decreases |s|
  {
    if s != [] {
      Pow2Values();
      BitOrBound(acc, Shl(s[0] % 128, bitpos) % TWO32, 32);
      if s[0] >= 128 { DecVarint32FromBound(s[1..], (bitpos + 7) % 256, Group32(s[0], bitpos, acc)); }
    }
  }

  lemma DecVarint32Bound(s: bytes)
    ensures DecVarint32(s).Ok? ==> DecVarint32(s).value < TWO32
  {
    if s != [] && s[0] >= 128 { DecVarint32FromBound(s[1..], 7, s[0] % 128); }
  }

  // ---------------------------------------------------------------- locality: later bytes do not matter

  function Extend<T>(r: Res<T>, t: bytes): Res<T> {
    if r.Ok? then Ok(r.value, r.rest + t) else Err
  }

  lemma {:induction false} DecVarintFromLocal(s: bytes, t: bytes, bitpos: nat, acc: nat)
    requires DecVarintFrom(s, bitpos, acc).Ok?
    ensures DecVarintFrom(s + t, bitpos, acc) == Extend(DecVarintFrom(s, bitpos, acc), t)
    decreases |s|
  {
    assert (s + t)[1..] == s[1..] + t;
    if s[0] >= 128 {
      DecVarintFromLocal(s[1..], t, bitpos + 7, BitOr(acc, Shl(s[0] % 128, bitpos) % TWO64));
    }
  }

  lemma DecVarintLocal(s: bytes, t: bytes)
    requires DecVarint(s).Ok?
    ensures DecVarint(s + t) == Extend(DecVarint(s), t)
  {
    DecVarintFromLocal(s, t, 0, 0);
  }

  lemma {:induction false} DecVarint32FromLocal(s: bytes, t: bytes, bitpos: nat, acc: nat)
    requires DecVarint32From(s, bitpos, acc).Ok?
    ensures DecVarint32From(s + t, bitpos, acc) == Extend(DecVarint32From(s, bitpos, acc), t)
    decreases |s|
  {
    assert (s + t)[1..] == s[1..] + t;
    if s[0] >= 128 {
      DecVarint32FromLocal(s[1..], t, (bitpos + 7) % 256, Group32(s[0], bitpos, acc));
    }
  }

  lemma DecVarint32Local(s: bytes, t: bytes)
    requires DecVarint32(s).Ok?
    ensures DecVarint32(s + t) == Extend(DecVarint32(s), t)
  {
    assert (s + t)[1..] == s[1..] + t;
    if s[0] >= 128 { DecVarint32FromLocal(s[1..], t, 7, s[0] % 128); }
  }

  lemma {:induction false} SkipVarintLocal(s: bytes, t: bytes)
    requires SkipVarint(s).Ok?
    ensures SkipVarint(s + t) == Extend(SkipVarint(s), t)
    decreases |s|
  {
    assert (s + t)[1..] == s[1..] + t;
    if s[0] >= 128 { SkipVarintLocal(s[1..], t); }
  }

  lemma TakeLocal(s: bytes, t: bytes, n: nat)
    requires n <= |s|
    ensures Take(s + t, n) == Extend(Take(s, n), t)
    ensures Skip(s + t, n) == Extend(Skip(s, n), t)
  {
    assert (s + t)[..n] == s[..n] && (s + t)[n..] == s[n..] + t;
  }

  lemma TakeDelimitedLocal(s: bytes, t: bytes)
    requires TakeDelimited(s).Ok?
    ensures TakeDelimited(s + t) == Extend(TakeDelimited(s), t)
  {
    DecVarint32Local(s, t);
    var r := DecVarint32(s);
    TakeLocal(r.rest, t, r.value);
  }

  lemma SkipPayloadLocal(s: bytes, t: bytes, wireType: nat)
    requires SkipPayload(s, wireType).Ok?
    ensures SkipPayload(s + t, wireType) == Extend(SkipPayload(s, wireType), t)
  {
    if wireType == WT_VARINT { SkipVarintLocal(s, t); }
    else if wireType == WT_STRING { TakeDelimitedLocal(s, t); }
    else { TakeLocal(s, t, if wireType == WT_64BIT then 8 else 4); }
  }

  lemma TakeWhole(b: bytes, t: bytes)
    ensures Take(b + t, |b|) == Ok(b, t)
  {
    assert (b + t)[..|b|] == b && (b + t)[|b|..] == t;
  }

  lemma PrefixThenBody(s: bytes, u: bytes, b: bytes, t: bytes)
    requires DecVarint32(s) == Ok(|b|, u) && Take(u, |b|) == Ok(b, t)
    ensures TakeDelimited(s) == Ok(b, t)
  {
    hide DecVarint32, Take;
  }

  lemma Regroup(a: bytes, b: bytes, c: bytes)
    ensures a + b + c == a + (b + c)
  {
  }

  lemma DelimitedRoundTrip(b: bytes, t: bytes)
    requires |b| < TWO32
    ensures TakeDelimited(EncVarint(|b|) + b + t) == Ok(b, t)
  {
    hide *;
    var e, u := EncVarint(|b|), b + t;
    Regroup(e, b, t);
    Varint32RoundTrip(|b|, u);
    TakeWhole(b, t);
    PrefixThenBody(e + u, u, b, t);
  }
}
