/** The two varint readers compared: pb_decode_varint32 is a faster, stricter form of pb_decode_varint. */
module VarintAgreement {
  import opened Wire

  /** The low n bits, and the rest shifted down. */
  function Low(x: nat, n: nat): nat {
    if n == 0 then 0 else x % 2 + 2 * Low(x / 2, n - 1)
  }

  function High(x: nat, n: nat): nat {
    if n == 0 then x else High(x / 2, n - 1)
  }

  lemma {:induction false} LowHigh(x: nat, n: nat)
    ensures Low(x, n) + Shl(High(x, n), n) == x && Low(x, n) < Pow2(n)
    ensures x < Pow2(n) ==> Low(x, n) == x
  {
    if n > 0 { LowHigh(x / 2, n - 1); }
  }

  lemma ShlWord(h: nat)
    ensures Shl(h, 32) == TWO32 * h && Shl(h, 64) == TWO64 * h
  {
    var z := 0;
    ShlSeven(h, z);
    ShlSeven(h, z + 7);
    ShlSeven(h, z + 14);
    ShlSeven(h, z + 21);
    ShlSeven(h, z + 28);
    ShlSeven(h, z + 35);
    ShlSeven(h, z + 42);
    ShlSeven(h, z + 49);
    ShlSeven(h, z + 56);
    ShlAdd(h, 28, 4);
    assert Shl(Shl(h, 28), 4) == 2 * Shl(Shl(h, 28), 3) == 4 * Shl(Shl(h, 28), 2) == 8 * Shl(Shl(h, 28), 1);
    assert Shl(h, 64) == 2 * Shl(h, 63);
  }

  lemma LowIsMod32(x: nat)
    ensures Low(x, 32) == x % TWO32
  {
    hide Low, High, Shl;
    LowHigh(x, 32);
    ShlWord(High(x, 32));
    Pow2Values();
  }

  lemma LowIsMod64(x: nat)
    ensures Low(x, 64) == x % TWO64
  {
    hide Low, High, Shl;
    LowHigh(x, 64);
    ShlWord(High(x, 64));
    Pow2Values();
  }

  lemma LowIsMod(x: nat)
    ensures Low(x, 32) == x % TWO32 && Low(x, 64) == x % TWO64
  {
    LowIsMod32(x);
    LowIsMod64(x);
  }

  /** Bits below the shift stay, shifted bits are cut at the word boundary. */
  lemma {:induction false} LowOfSum(a: nat, g: nat, k: nat, n: nat)
    requires k <= n && a < Pow2(k)
    ensures Low(a + Shl(g, k), n) == a + Shl(Low(g, n - k), k)
  {
    if k > 0 { LowOfSum(a / 2, g, k - 1, n - 1); }
  }

  lemma {:induction false} LowIgnoresHigh(a: nat, g: nat, n: nat)
    ensures Low(a + Shl(g, n), n) == Low(a, n)
  {
    if n > 0 {
      var x := Shl(g, n - 1);
      assert (a + 2 * x) % 2 == a % 2 && (a + 2 * x) / 2 == a / 2 + x;
      LowIgnoresHigh(a / 2, g, n - 1);
    }
  }

  lemma SumBound(acc: nat, g: nat, k: nat)
    requires acc < Pow2(k) && g < 128
    ensures acc + Shl(g, k) < Pow2(k + 7)
  {
    ShlSeven(1, k);
    ShlSum(g, 1, k);
    ShlMono(g + 1, 128, k);
  }

  /** A group that fits below bit 64 is added as it is. */
  lemma WideInside(acc: nat, g: nat, k: nat)
    requires k <= 57 && acc < Pow2(k) && g < 128
    ensures BitOr(acc, Low(Shl(g, k), 64)) == acc + Shl(g, k)
  {
    LowOfSum(0, g, k, 64);
    Pow2Mono(7, 64 - k);
    LowHigh(g, 64 - k);
    BitOrDisjoint(acc, g, k);
  }

  /** The 32-bit reader keeps the low word of that sum. */
  lemma NarrowInside(acc: nat, g: nat, k: nat)
    requires k <= 28 && acc < Pow2(k)
    ensures Low(acc, 32) == acc
    ensures BitOr(acc, Low(Shl(g, k), 32)) == Low(acc + Shl(g, k), 32)
  {
    Pow2Mono(k, 32);
    LowHigh(acc, 32);
    LowOfSum(0, g, k, 32);
    LowOfSum(acc, g, k, 32);
    BitOrDisjoint(acc, Low(g, 32 - k), k);
  }

  /** A group beyond the word leaves the low word alone. */
  lemma WideBeyond(acc: nat, g: nat, k: nat)
    requires 32 <= k < 64 && acc < Pow2(k) && g < 128
    ensures BitOr(acc, Low(Shl(g, k), 64)) < Pow2(k + 7)
    ensures Low(BitOr(acc, Low(Shl(g, k), 64)), 32) == Low(acc, 32)
  {
    hide Low, Shl, BitOr;
    var h := Low(g, 64 - k);
    LowOfSum(0, g, k, 64);
    BitOrDisjoint(acc, h, k);
    ShlAdd(h, k - 32, 32);
    LowIgnoresHigh(acc, Shl(h, k - 32), 32);
    LowHigh(g, 64 - k);
    SumBound(acc, h, k);
  }

  /** One step of both readers keeps them in agreement. */
  lemma GroupAgree(b: byte, k: nat, acc: nat)
    requires acc < Pow2(k) && (k <= 28 || 32 <= k < 64)
    ensures var acc' := BitOr(acc, Low(Shl(b % 128, k), 64));
            acc' < Pow2(k + 7) && Group32(b, k, Low(acc, 32)) == Low(acc', 32)
  {
    if k <= 28 {
      WideInside(acc, b % 128, k);
      NarrowInside(acc, b % 128, k);
      SumBound(acc, b % 128, k);
      LowIsMod(Shl(b % 128, k));
    } else {
      WideBeyond(acc, b % 128, k);
    }
  }

  lemma WideStep(s: bytes, k: nat, acc: nat)
    requires DecVarintFrom(s, k, acc).Ok?
    ensures s != [] && k < 64
    ensures var acc' := BitOr(acc, Low(Shl(s[0] % 128, k), 64));
            DecVarintFrom(s, k, acc) == if s[0] >= 128 then DecVarintFrom(s[1..], k + 7, acc') else Ok(acc', s[1..])
  {
    LowIsMod(Shl(s[0] % 128, k));
  }

  lemma NarrowStep(s: bytes, k: nat, acc: nat)
    requires k < 64 && DecVarint32From(s, k, acc).Ok?
    ensures s != []
    ensures var acc' := Group32(s[0], k, acc);
            DecVarint32From(s, k, acc) == if s[0] >= 128 then DecVarint32From(s[1..], k + 7, acc') else Ok(acc', s[1..])
  {
  }

  lemma {:induction false} ReadersAgreeFrom(s: bytes, j: nat, acc: nat)
    requires j <= 10 && acc < Pow2(7 * j)
    requires DecVarint32From(s, 7 * j, Low(acc, 32)).Ok? && DecVarintFrom(s, 7 * j, acc).Ok?
    ensures DecVarint32From(s, 7 * j, Low(acc, 32)).rest == DecVarintFrom(s, 7 * j, acc).rest
    ensures DecVarint32From(s, 7 * j, Low(acc, 32)).value == Low(DecVarintFrom(s, 7 * j, acc).value, 32)
    decreases |s|
  {
    hide DecVarint32From, DecVarintFrom, Group32, BitOr, Low, Shl;
    WideStep(s, 7 * j, acc);
    NarrowStep(s, 7 * j, Low(acc, 32));
    GroupAgree(s[0], 7 * j, acc);
    var acc' := BitOr(acc, Low(Shl(s[0] % 128, 7 * j), 64));
    if s[0] >= 128 {
      assert 7 * (j + 1) == 7 * j + 7;
      ReadersAgreeFrom(s[1..], j + 1, acc');
    }
  }

  /** On any input that both readers accept, they consume the same bytes and the 32-bit result
      is the 64-bit result modulo 2^32. */
  lemma ReadersAgree(s: bytes)
    requires DecVarint32(s).Ok? && DecVarint(s).Ok?
    ensures DecVarint32(s).rest == DecVarint(s).rest
    ensures DecVarint32(s).value == DecVarint(s).value % TWO32
  {
    hide DecVarint32From, DecVarintFrom, Low, BitOr;
    FirstGroup(s);
    var g := s[0] % 128;
    if s[0] >= 128 {
      ReadersAgreeFrom(s[1..], 1, g);
      LowIsMod(DecVarint(s).value);
    }
  }

  lemma FirstGroup(s: bytes)
    requires DecVarint(s).Ok?
    ensures s != []
    ensures var g := s[0] % 128;
            && g < Pow2(7) && Low(g, 32) == g
            && DecVarint(s) == if s[0] >= 128 then DecVarintFrom(s[1..], 7, g) else Ok(g, s[1..])
  {
    hide DecVarintFrom, BitOr, Low;
    WideStep(s, 0, 0);
    var g := s[0] % 128;
    Pow2Values();
    BitOrZero(g);
    LowHigh(g, 64);
    LowHigh(g, 32);
    assert Shl(g, 0) == g;
  }

  /** The groups past bit 35 of a ten-byte encoding all look like padding: u is the value shifted right
      by bitpos. Bits 32 to 34 are dropped unchecked, so they do not matter. */
  predicate PaddedTail(u: nat, bitpos: nat)
    decreases u
  {
    if u < 128 then bitpos == 63 && u == 1
    else (u % 128 == 0 || u % 128 == 127) && PaddedTail(u / 128, bitpos + 7)
  }

  lemma TailStep(u: nat, t: bytes, bitpos: nat, acc: nat)
    requires 32 <= bitpos <= 63 && 0 < u
    ensures DecVarint32From(EncVarint(u) + t, bitpos, acc).Ok? <==>
            && !Overflows32((EncVarint(u) + t)[0], bitpos, acc)
            && (u >= 128 ==> DecVarint32From(EncVarint(u / 128) + t, bitpos + 7, acc).Ok?)
  {
    EncVarintSplit(u, t);
  }

  lemma TailGroup(u: nat, t: bytes, bitpos: nat, acc: nat)
    requires 32 <= bitpos <= 63 && 0 < u && acc < TWO32
    ensures !Overflows32((EncVarint(u) + t)[0], bitpos, acc) <==>
            u % 128 == 0 || (acc >= TWO31 && if bitpos < 63 then u >= 128 && u % 128 == 127 else u == 1)
  {
    EncVarintSplit(u, t);
  }

  lemma {:induction false} TailAccepted(u: nat, t: bytes, k: nat, acc: nat)
    requires 5 <= k <= 9 && 0 < u && Shl(u, 7 * k) < TWO64
    requires acc < TWO32
    ensures DecVarint32From(EncVarint(u) + t, 7 * k, acc).Ok? <==> acc >= TWO31 && PaddedTail(u, 7 * k)
    decreases u
  {
    hide Shl, EncVarint, DecVarint32From;
    TailStep(u, t, 7 * k, acc);
    TailGroup(u, t, 7 * k, acc);
    LowGroup(u, 7 * k, 0, TWO64);
    if k == 9 {
      TopGroup(u);
    } else if u >= 128 {
      assert 7 * (k + 1) == 7 * k + 7;
      TailAccepted(u / 128, t, k + 1, acc);
    }
  }

  /** Only one bit is left for the tenth byte. */
  lemma TopGroup(u: nat)
    requires Shl(u, 63) < TWO64
    ensures u < 2
  {
    Pow2Values();
    ShlSum(1, 1, 63);
    if u >= 2 { ShlMono(2, u, 63); }
  }

  /** u without its n lowest seven-bit groups. */
  function DropGroups(u: nat, n: nat): nat {
    if n == 0 then u else DropGroups(u / 128, n - 1)
  }

  lemma DropFive(v: nat)
    ensures DropGroups(v, 5) == v / (8 * TWO32)
  {
    var a := v / 128;
    var b := a / 128;
    var c := b / 128;
    assert DropGroups(v, 5) == DropGroups(a, 4);
    assert DropGroups(a, 4) == DropGroups(b, 3);
    assert DropGroups(b, 3) == DropGroups(c, 2);
    assert DropGroups(c, 2) == DropGroups(c / 128, 1);
    assert DropGroups(c / 128, 1) == DropGroups(c / 128 / 128, 0);
    assert b == v / 0x4000;
    assert c == v / 0x20_0000;
    assert c / 128 == v / 0x1000_0000;
  }

  lemma Shl35(u: nat)
    ensures Shl(u, 35) == 8 * TWO32 * u
  {
    ShlWord(u);
    assert Shl(u, 35) == 2 * Shl(u, 34) == 4 * Shl(u, 33) == 8 * Shl(u, 32);
  }

  /** The reader's state after the group at bit 7k of a longer encoding. */
  lemma HeadStep(u: nat, t: bytes, k: nat, acc: nat)
    requires 1 <= k <= 4 && acc < Pow2(7 * k) && u >= 128
    ensures DecVarint32From(EncVarint(u) + t, 7 * k, acc)
            == DecVarint32From(EncVarint(u / 128) + t, 7 * k + 7, Low(acc + Shl(u % 128, 7 * k), 32))
  {
    hide EncVarint, BitOr, Low, Shl;
    EncVarintSplit(u, t);
    LowIsMod(Shl(u % 128, 7 * k));
    NarrowInside(acc, u % 128, 7 * k);
    DecVarint32Group(EncVarint(u) + t, 7 * k, acc, Low(Shl(u % 128, 7 * k), 32));
  }

  /** After five groups the accumulator holds the low 32 bits. */
  lemma {:induction false} HeadGroups(u: nat, t: bytes, k: nat, acc: nat)
    requires 1 <= k <= 4 && acc < Pow2(7 * k) && u >= Pow2(7 * (5 - k))
    ensures DecVarint32From(EncVarint(u) + t, 7 * k, acc)
            == DecVarint32From(EncVarint(DropGroups(u, 5 - k)) + t, 35, Low(acc + Shl(u, 7 * k), 32))
    decreases 5 - k
  {
    hide DecVarint32From, EncVarint, Shl, Low;
    var g, h := u % 128, u / 128;
    Pow2Mono(7, 7 * (5 - k));
    Pow2Values();
    HeadStep(u, t, k, acc);
    LowGroup(u, 7 * k, acc, acc + Shl(u, 7 * k) + 1);
    var acc' := acc + Shl(g, 7 * k);
    if k == 4 {
      ShlAdd(h, 3, 32);
      LowIgnoresHigh(acc', Shl(h, 3), 32);
      assert DropGroups(u, 1) == DropGroups(h, 0) == h;
    } else {
      assert 7 * (k + 1) == 7 * k + 7;
      Pow2Mono(7 * k + 7, 32);
      LowHigh(acc', 32);
      ShlSeven(1, 7 * (4 - k));
      HeadGroups(h, t, k + 1, acc');
    }
  }

  /** Five-byte encodings of values past 32 bits are refused. */
  lemma {:induction false} HeadRefuses(u: nat, t: bytes, k: nat, acc: nat)
    requires 1 <= k <= 4 && acc < Pow2(7 * k)
    requires TWO32 <= acc + Shl(u, 7 * k) < 8 * TWO32
    ensures DecVarint32From(EncVarint(u) + t, 7 * k, acc) == Err
    decreases 5 - k
  {
    hide EncVarint, Low, Shl, DecVarint32From;
    if k == 4 {
      FifthGroup(u, t, acc);
    } else {
      assert u >= 128 by {
        Pow2Mono(7 * k + 7, 28);
        Pow2Values();
        if u < 128 { SumBound(acc, u, 7 * k); }
      }
      LowGroup(u, 7 * k, acc, 8 * TWO32);
      HeadStep(u, t, k, acc);
      Pow2Mono(7 * k + 7, 32);
      LowHigh(acc + Shl(u % 128, 7 * k), 32);
      assert 7 * (k + 1) == 7 * k + 7;
      HeadRefuses(u / 128, t, k + 1, acc + Shl(u % 128, 7 * k));
    }
  }

  lemma FifthGroup(u: nat, t: bytes, acc: nat)
    requires acc < Pow2(28) && TWO32 <= acc + Shl(u, 28) < 8 * TWO32
    ensures DecVarint32From(EncVarint(u) + t, 28, acc) == Err
  {
    FifthRange(u, acc);
    EncVarintSplit(u, t);
    assert (EncVarint(u) + t)[0] == u;
  }

  lemma FifthRange(u: nat, acc: nat)
    requires acc < Pow2(28) && TWO32 <= acc + Shl(u, 28) < 8 * TWO32
    ensures 16 <= u < 128 && u / 16 % 8 != 0
  {
    Pow2Values();
    ShlAdd(1, 4, 28);
    assert Shl(1, 4) == 16;
    ShlAdd(1, 7, 28);
    ShlSeven(1, 28);
    assert Shl(16, 28) == TWO32 && Shl(128, 28) == 8 * TWO32;
    if u < 16 { ShlMono(u + 1, 16, 28); ShlSum(u, 1, 28); }
    if u >= 128 { ShlMono(128, u, 28); }
  }

  /** Which minimal encodings the 32-bit reader accepts: those of 32-bit values, and ten-byte ones whose
      bit 31 is set and whose groups from bit 35 up are padding, among them every negative int32_t. */
  predicate Fits32(v: nat) {
    v < TWO32 || (v % TWO32 >= TWO31 && v >= 8 * TWO32 && PaddedTail(DropGroups(v, 5), 35))
  }

  lemma Varint32Accepts(v: nat, t: bytes)
    requires v < TWO64
    ensures DecVarint32(EncVarint(v) + t).Ok? <==> Fits32(v)
    ensures Fits32(v) ==> DecVarint32(EncVarint(v) + t) == Ok(v % TWO32, t)
  {
    hide EncVarint, DecVarint32From, PaddedTail, Low, Shl, DecVarintFrom;
    VarintRoundTrip(v, t);
    var s := EncVarint(v) + t;
    if v < TWO32 {
      Varint32RoundTrip(v, t);
    } else {
      EncVarintSplit(v, t);
      Pow2Values();
      SplitFirst(v);
      assert DecVarint32(s) == DecVarint32From(EncVarint(v / 128) + t, 7, v % 128);
      if v < 8 * TWO32 {
        HeadRefuses(v / 128, t, 1, v % 128);
      } else {
        ShlSeven(1, 28);
        HeadGroups(v / 128, t, 1, v % 128);
        LowIsMod(v);
        TailRoom(v);
        TailAccepted(DropGroups(v, 5), t, 5, v % TWO32);
      }
    }
    if DecVarint32(s).Ok? { ReadersAgree(s); }
  }

  lemma SplitFirst(v: nat)
    ensures v % 128 + Shl(v / 128, 7) == v
  {
    ShlSeven(v / 128, 0);
  }

  lemma TailRoom(v: nat)
    requires 8 * TWO32 <= v < TWO64
    ensures DropGroups(v, 5) > 0 && Shl(DropGroups(v, 5), 35) < TWO64
  {
    DropFive(v);
    Shl35(DropGroups(v, 5));
  }

  /** Sign-extended negative int32_t values are accepted; nothing from 2^32 up to 2^63 is. */
  lemma Varint32Consequences(v: nat, t: bytes)
    requires v < TWO64
    ensures TWO64 - TWO31 <= v ==> DecVarint32(EncVarint(v) + t) == Ok(v % TWO32, t)
    ensures TWO32 <= v < TWO63 ==> DecVarint32(EncVarint(v) + t) == Err
  {
    hide DecVarint32, EncVarint, PaddedTail, DropGroups, Shl;
    Varint32Accepts(v, t);
    if TWO64 - TWO31 <= v { SignExtended(v); }
    if TWO32 <= v < TWO63 && Fits32(v) {
      PaddedIsLong(DropGroups(v, 5), 5);
      DropFive(v);
      Shl35(DropGroups(v, 5));
    }
  }

  lemma SignExtended(v: nat)
    requires TWO64 - TWO31 <= v < TWO64
    ensures Fits32(v)
  {
    DropFive(v);
    assert v / (8 * TWO32) == 0x1FFF_FFFF;
    var u4, u3, u2 := 1, 255, 0x7FFF;
    assert PaddedTail(u4, 63);
    assert PaddedTail(u3, 56);
    assert PaddedTail(u2, 49);
    assert PaddedTail(0x3F_FFFF, 42);
  }

  lemma {:induction false} PaddedIsLong(u: nat, k: nat)
    requires 5 <= k <= 9 && PaddedTail(u, 7 * k)
    ensures Shl(u, 7 * k) >= TWO63
    decreases u
  {
    Pow2Values();
    if k < 9 {
      assert u >= 128 && 7 * (k + 1) == 7 * k + 7;
      PaddedIsLong(u / 128, k + 1);
      ShlSeven(u / 128, 7 * k);
      ShlMono(128 * (u / 128), u, 7 * k);
    } else if u == 1 {
    } else {
      ShlMono(1, u, 63);
    }
  }
}
