/** The bitset of required fields: two 32-bit words written with shifts and compared against masks. */
module RequiredFields {
  import opened Wire
  import opened Descriptor

  predicate Bit(w: nat, k: nat) {
    if k == 0 then w % 2 == 1 else Bit(w / 2, k - 1)
  }

  /** The C operator `>>`. */
  function Shr(w: nat, k: nat): nat {
    if k == 0 then w else Shr(w / 2, k - 1)
  }

  lemma {:induction false} BitOfOr(a: nat, b: nat, k: nat)
    ensures Bit(BitOr(a, b), k) <==> Bit(a, k) || Bit(b, k)
    decreases k
  {
    var r := BitOr(a / 2, b / 2);
    if a != 0 || b != 0 { assert BitOr(a, b) / 2 == r; }
    if k > 0 { BitOfOr(a / 2, b / 2, k - 1); }
  }

  lemma {:induction false} NoBits(k: nat)
    ensures !Bit(0, k)
  {
    if k > 0 { NoBits(k - 1); }
  }

  lemma {:induction false} BitOfPower(j: nat, k: nat)
    ensures Bit(Shl(1, j), k) <==> j == k
    decreases j, k
  {
    if k > 0 {
      if j > 0 { BitOfPower(j - 1, k - 1); } else { NoBits(k - 1); }
    }
  }

  lemma {:induction false} BitOfMask(r: nat, k: nat)
    ensures Bit(Pow2(r) - 1, k) <==> k < r
    decreases r, k
  {
    if r == 0 { NoBits(k); }
    else if k > 0 { BitOfMask(r - 1, k - 1); }
  }

  lemma {:induction false} SameBits(a: nat, b: nat, n: nat)
    requires a < Pow2(n) && b < Pow2(n) && forall k :: 0 <= k < n ==> (Bit(a, k) <==> Bit(b, k))
    ensures a == b
    decreases n
  {
    if n > 0 {
      assert Bit(a, 0) <==> Bit(b, 0);
      forall k | 0 <= k < n - 1 ensures Bit(a / 2, k) <==> Bit(b / 2, k) {
        assert Bit(a, k + 1) <==> Bit(b, k + 1);
      }
      SameBits(a / 2, b / 2, n - 1);
    }
  }

  lemma {:induction false} ShrOfMask(n: nat, k: nat)
    requires k <= n
    ensures Shr(Pow2(n) - 1, k) == Pow2(n - k) - 1
    decreases k
  {
    if k > 0 { ShrOfMask(n - 1, k - 1); }
  }

  const ALLBITS: int := 0xFFFF_FFFF

  /** fields_seen, and the set of required indices it stands for. */
  ghost predicate Represents(words: seq<nat>, seen: set<nat>) {
    && |words| == 2 && words[0] < TWO32 && words[1] < TWO32
    && (forall k :: 0 <= k < 32 ==> (Bit(words[0], k) <==> k in seen))
    && (forall k :: 32 <= k < 64 ==> (Bit(words[1], k - 32) <==> k in seen))
    && (forall k :: k in seen ==> k < 64)
  }

  lemma NothingSeen()
    ensures Represents([0, 0], {})
  {
    forall k | 0 <= k < 32 ensures !Bit(0, k) { NoBits(k); }
  }

  /** fields_seen[index >> 5] |= 1 << (index & 31). */
  method Mark(words: seq<nat>, index: nat, ghost seen: set<nat>) returns (words': seq<nat>)
    requires Represents(words, seen) && index < 64
    ensures Represents(words', seen + {index})
  {
    var tmp := Shl(1, index % 32);
    words' := words[index / 32 := BitOr(words[index / 32], tmp)];
    Pow2Values();
    Pow2Mono(index % 32 + 1, 32);
    BitOrBound(words[index / 32], tmp, 32);
    forall k | 0 <= k < 32
      ensures Bit(words'[index / 32], k) <==> Bit(words[index / 32], k) || k == index % 32
    {
      BitOfOr(words[index / 32], tmp, k);
      BitOfPower(index % 32, k);
    }
  }

  ghost predicate LowOnes(w: nat, r: nat) {
    forall k :: 0 <= k < 32 ==> (Bit(w, k) <==> k < r)
  }

  lemma WordIsMask(w: nat, r: nat)
    requires w < TWO32 && r <= 32
    ensures w == Shr(ALLBITS, 32 - r) <==> LowOnes(w, r)
  {
    var mask: nat := Pow2(r) - 1;
    Pow2Values();
    ShrOfMask(32, 32 - r);
    Pow2Mono(r, 32);
    forall k | 0 <= k < 32 ensures Bit(mask, k) <==> k < r { BitOfMask(r, k); }
    if LowOnes(w, r) {
      forall k | 0 <= k < 32 ensures Bit(w, k) <==> Bit(mask, k) { }
      SameBits(w, mask, 32);
    }
  }

  /** Word i equals the mask of r ones exactly when the r required fields it starts with were all seen. */
  lemma WordCheck(words: seq<nat>, seen: set<nat>, i: nat, r: nat)
    requires Represents(words, seen) && i < 2 && r <= 32 && (r == 32 || forall k :: k in seen ==> k < 32 * i + r)
    ensures words[i] == Shr(ALLBITS, 32 - r) <==> forall x :: 32 * i <= x < 32 * i + r ==> x in seen
  {
    hide Bit, Shr;
    WordIsMask(words[i], r);
    assert forall x :: 32 * i <= x < 32 * i + 32 ==> (Bit(words[i], x - 32 * i) <==> x in seen);
    if forall x :: 32 * i <= x < 32 * i + r ==> x in seen {
      forall k | 0 <= k < 32 ensures Bit(words[i], k) <==> k < r {
        var x := 32 * i + k;
        assert Bit(words[i], x - 32 * i) <==> x in seen;
      }
    }
    if words[i] == Shr(ALLBITS, 32 - r) {
      forall x | 32 * i <= x < 32 * i + r ensures x in seen {
        var k := x - 32 * i;
        assert Bit(words[i], k) <==> k < r;
        assert Bit(words[i], x - 32 * i) <==> x in seen;
      }
    }
  }

  /** The test after the last record: whole words against all ones, the rest against a shifted mask. It passes
      exactly when each of the first `count` required fields was seen, in whatever order they arrived. */
  method CheckRequired(words: seq<nat>, count: nat, ghost seen: set<nat>) returns (ok: bool)
    requires Represents(words, seen) && count <= PB_MAX_REQUIRED_FIELDS && forall k :: k in seen ==> k < count
    ensures ok <==> forall k :: 0 <= k < count ==> k in seen
  {
    hide Bit, Shr;
    var i := 0;
    while i < count / 32
      invariant 0 <= i <= count / 32 <= 2
      invariant forall k :: 0 <= k < 32 * i ==> k in seen
    {
      WordCheck(words, seen, i, 32);
      assert Shr(ALLBITS, 0) == ALLBITS by { ShrZero(); }
      if words[i] != ALLBITS {
        return false;
      }
      i := i + 1;
    }
    if count % 32 != 0 {
      WordCheck(words, seen, count / 32, count % 32);
      if words[count / 32] != Shr(ALLBITS, 32 - count % 32) {
        return false;
      }
    }
    return true;
  }

  lemma ShrZero()
    ensures Shr(ALLBITS, 0) == ALLBITS
  {
  }
}
