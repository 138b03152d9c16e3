/**
 Machine words of 64 bits held as natural numbers, with the bitwise operators the
 slab allocator applies to its bitmaps.  `And`, `Or` and `AndNot` work bit by bit from
 the low end; `Bit(w, i)` is the test `w & (1 << i)`.
 */
module Words {

  const WORD_BITS: nat := 64

  function Pow2(n: nat): (r: nat)
    ensures r >= 1
  {
    if n == 0 then 1 else 2 * Pow2(n - 1)
  }

  predicate Bit(w: nat, i: nat) {
    if i == 0 then w % 2 == 1 else Bit(w / 2, i - 1)
  }

  function And(a: nat, b: nat): nat {
    if a == 0 then 0 else 2 * And(a / 2, b / 2) + (a % 2) * (b % 2)
  }

  function Or(a: nat, b: nat): nat
    decreases a + b
  {
    if a + b == 0 then 0
    else 2 * Or(a / 2, b / 2) + (if a % 2 == 1 || b % 2 == 1 then 1 else 0)
  }

  /** a & ~b */
  function AndNot(a: nat, b: nat): nat {
    if a == 0 then 0 else 2 * AndNot(a / 2, b / 2) + (if a % 2 == 1 && b % 2 == 0 then 1 else 0)
  }

  lemma {:induction false} AndBit(a: nat, b: nat, i: nat)
    ensures Bit(And(a, b), i) <==> Bit(a, i) && Bit(b, i)
    decreases i
  {
    if a == 0 {
      ZeroBit(i);
    } else {
      assert (a % 2) * (b % 2) == if a % 2 == 1 && b % 2 == 1 then 1 else 0;
      if i > 0 { AndBit(a / 2, b / 2, i - 1); }
    }
  }

  lemma {:induction false} OrBit(a: nat, b: nat, i: nat)
    ensures Bit(Or(a, b), i) <==> Bit(a, i) || Bit(b, i)
    decreases i
  {
    if a + b == 0 {
    } else if i > 0 {
      OrBit(a / 2, b / 2, i - 1);
    }
  }

  lemma {:induction false} AndNotBit(a: nat, b: nat, i: nat)
    ensures Bit(AndNot(a, b), i) <==> Bit(a, i) && !Bit(b, i)
    decreases i
  {
    if a == 0 {
      ZeroBit(i);
    } else if i > 0 {
      AndNotBit(a / 2, b / 2, i - 1);
    }
  }

  lemma {:induction false} ZeroBit(i: nat)
    ensures !Bit(0, i)
  {
    if i > 0 { ZeroBit(i - 1); }
  }

  lemma {:induction false} Pow2Bit(k: nat, i: nat)
    ensures Bit(Pow2(k), i) <==> i == k
    decreases k
  {
    if k == 0 {
      if i > 0 { ZeroBit(i - 1); }
    } else if i > 0 {
      Pow2Bit(k - 1, i - 1);
    }
  }

  /** Two words that agree on every bit are equal. */
  lemma {:induction false} SameBits(a: nat, b: nat)
    requires forall i: nat :: Bit(a, i) == Bit(b, i)
    ensures a == b
    decreases a + b
  {
    if a + b > 0 {
      assert Bit(a, 0) == Bit(b, 0);
      forall i: nat ensures Bit(a / 2, i) == Bit(b / 2, i) {
        assert Bit(a, i + 1) == Bit(b, i + 1);
      }
      if a / 2 + b / 2 == a + b {
      } else {
        SameBits(a / 2, b / 2);
      }
    }
  }

  /** A word below 2^n has no bit at n or above. */
  lemma {:induction false} HighBitsClear(w: nat, n: nat, i: nat)
    requires w < Pow2(n) && n <= i
    ensures !Bit(w, i)
    decreases n
  {
    if n == 0 { ZeroBit(i); } else { HighBitsClear(w / 2, n - 1, i - 1); }
  }

  /** The bits of a word, as a set. */
  ghost predicate Encodes(w: nat, bits: set<nat>) {
    forall i: nat :: Bit(w, i) <==> i in bits
  }

  lemma TestBit(w: nat, i: nat)
    ensures And(w, Pow2(i)) != 0 <==> Bit(w, i)
  {
    forall j: nat ensures Bit(And(w, Pow2(i)), j) <==> Bit(w, j) && i == j {
      AndBit(w, Pow2(i), j);
      Pow2Bit(i, j);
    }
    if And(w, Pow2(i)) == 0 {
      ZeroBit(i);
    } else if !Bit(w, i) {
      forall j: nat ensures Bit(And(w, Pow2(i)), j) == Bit(0, j) { ZeroBit(j); }
      SameBits(And(w, Pow2(i)), 0);
    }
  }

  lemma SetBit(w: nat, i: nat, bits: set<nat>)
    requires Encodes(w, bits)
    ensures Encodes(Or(w, Pow2(i)), bits + {i})
  {
    forall j: nat ensures Bit(Or(w, Pow2(i)), j) <==> j in bits + {i} {
      OrBit(w, Pow2(i), j);
      Pow2Bit(i, j);
    }
  }

  lemma ClearBit(w: nat, i: nat, bits: set<nat>)
    requires Encodes(w, bits)
    ensures Encodes(AndNot(w, Pow2(i)), bits - {i})
  {
    forall j: nat ensures Bit(AndNot(w, Pow2(i)), j) <==> j in bits - {i} {
      AndNotBit(w, Pow2(i), j);
      Pow2Bit(i, j);
    }
  }

  ghost predicate Under(i: nat, n: nat) {
    i < n
  }

  ghost function Below(n: nat): (s: set<nat>)
    ensures forall i: nat :: i in s <==> i < n
  {
    set i: nat | 0 <= i < n && Under(i, n)
  }

  lemma {:induction false} BelowSize(n: nat)
    ensures |Below(n)| == n
  {
    if n == 0 {
      assert Below(0) == {};
    } else {
      BelowSize(n - 1);
      assert Below(n) == Below(n - 1) + {n - 1};
    }
  }

  /** The word 2^n - 1 has exactly the bits below n. */
  lemma {:induction false} Ones(n: nat)
    ensures Encodes(Pow2(n) - 1, Below(n))
  {
    if n == 0 {
      forall i: nat ensures Bit(0, i) <==> i in Below(0) { ZeroBit(i); }
    } else {
      Ones(n - 1);
      forall i: nat ensures Bit(Pow2(n) - 1, i) <==> i in Below(n) {
        assert (Pow2(n) - 1) / 2 == Pow2(n - 1) - 1;
        if i > 0 { assert i in Below(n) <==> i - 1 in Below(n - 1); }
      }
    }
  }

  lemma EncodesInjective(a: nat, b: nat, bits: set<nat>)
    requires Encodes(a, bits) && Encodes(b, bits)
    ensures a == b
  {
    SameBits(a, b);
  }

  lemma EncodesZero(w: nat, bits: set<nat>)
    requires Encodes(w, bits)
    ensures w == 0 <==> bits == {}
  {
    forall i: nat ensures !Bit(0, i) { ZeroBit(i); }
    if bits == {} { EncodesInjective(w, 0, {}); }
    if w == 0 { assert forall i: nat :: i !in bits; }
  }

  lemma EncodesFull(w: nat, bits: set<nat>, n: nat)
    requires Encodes(w, bits)
    ensures w == Pow2(n) - 1 <==> bits == Below(n)
  {
    Ones(n);
    if bits == Below(n) { EncodesInjective(w, Pow2(n) - 1, bits); }
    if w == Pow2(n) - 1 {
      assert forall i: nat :: i in bits <==> Bit(w, i);
      assert forall i: nat :: i in bits <==> i in Below(n);
    }
  }

  lemma Pow2Values()
    ensures Pow2(32) == 0x1_0000_0000
    ensures Pow2(63) == 0x8000_0000_0000_0000
    ensures Pow2(64) == 0x1_0000_0000_0000_0000
  {
    assert Pow2(8) == 256;
    assert Pow2(16) == 65536;
    assert Pow2(24) == 0x100_0000;
    assert Pow2(32) == 0x1_0000_0000;
    assert Pow2(40) == 0x100_0000_0000;
    assert Pow2(48) == 0x1_0000_0000_0000;
    assert Pow2(56) == 0x100_0000_0000_0000;
  }

  // ---------------------------------------------------------------- shifts

  /** a << k */
  function Shl(a: nat, k: nat): nat {
    if k == 0 then a else 2 * Shl(a, k - 1)
  }

  /** w >> k */
  function Shr(w: nat, k: nat): nat {
    if k == 0 then w else Shr(w / 2, k - 1)
  }

  lemma {:induction false} ShlBit(a: nat, k: nat, j: nat)
    ensures Bit(Shl(a, k), j) <==> j >= k && Bit(a, j - k)
    decreases k
  {
    if k > 0 && j > 0 { ShlBit(a, k - 1, j - 1); }
  }

  lemma {:induction false} ShrBit(w: nat, k: nat, i: nat)
    ensures Bit(Shr(w, k), i) <==> Bit(w, k + i)
    decreases k
  {
    if k > 0 { ShrBit(w / 2, k - 1, i); }
  }

  /** Setting or clearing bit k + i works on the part above bit k alone. */
  lemma HighUpdate(w: nat, k: nat, i: nat, bits: set<nat>)
    requires Encodes(Shr(w, k), bits)
    ensures Encodes(Shr(Or(w, Pow2(k + i)), k), bits + {i})
    ensures Encodes(Shr(AndNot(w, Pow2(k + i)), k), bits - {i})
    ensures And(w, Pow2(k + i)) != 0 <==> i in bits
  {
    var o, c := Or(w, Pow2(k + i)), AndNot(w, Pow2(k + i));
    TestBit(w, k + i);
    ShrBit(w, k, i);
    forall j: nat
      ensures Bit(Shr(o, k), j) <==> j in bits + {i}
      ensures Bit(Shr(c, k), j) <==> j in bits - {i}
    {
      ShrBit(o, k, j); ShrBit(c, k, j); ShrBit(w, k, j);
      OrBit(w, Pow2(k + i), k + j); AndNotBit(w, Pow2(k + i), k + j); Pow2Bit(k + i, k + j);
    }
  }

  /** ... and leaves a mask of bits below k alone. */
  lemma LowUntouched(w: nat, k: nat, i: nat, n: nat)
    requires n <= k
    ensures And(Or(w, Pow2(k + i)), Pow2(n) - 1) == And(w, Pow2(n) - 1)
    ensures And(AndNot(w, Pow2(k + i)), Pow2(n) - 1) == And(w, Pow2(n) - 1)
  {
    Ones(n);
    var o, c, mask := Or(w, Pow2(k + i)), AndNot(w, Pow2(k + i)), Pow2(n) - 1;
    forall j: nat
      ensures Bit(And(o, mask), j) <==> Bit(And(w, mask), j)
      ensures Bit(And(c, mask), j) <==> Bit(And(w, mask), j)
    {
      AndBit(o, mask, j); AndBit(c, mask, j); AndBit(w, mask, j);
      OrBit(w, Pow2(k + i), j); AndNotBit(w, Pow2(k + i), j); Pow2Bit(k + i, j);
    }
    SameBits(And(o, mask), And(w, mask));
    SameBits(And(c, mask), And(w, mask));
  }

  /** `w & mask` for a mask of all the bits k .. k + n - 1, when there are none above. */
  lemma MaskedHigh(w: nat, k: nat, n: nat, bits: set<nat>)
    requires Encodes(Shr(w, k), bits) && bits <= Below(n)
    ensures And(w, Shl(Pow2(n) - 1, k)) == Shl(Shr(w, k), k)
  {
    var mask := Shl(Pow2(n) - 1, k);
    Ones(n);
    forall j: nat ensures Bit(And(w, mask), j) <==> Bit(Shl(Shr(w, k), k), j) {
      AndBit(w, mask, j);
      ShlBit(Pow2(n) - 1, k, j);
      ShlBit(Shr(w, k), k, j);
      if j >= k { ShrBit(w, k, j - k); }
    }
    SameBits(And(w, mask), Shl(Shr(w, k), k));
  }

  lemma {:induction false} ShlInjective(a: nat, b: nat, k: nat)
    ensures Shl(a, k) == Shl(b, k) <==> a == b
  {
    if k > 0 { ShlInjective(a, b, k - 1); }
  }

  /** A word with bit k set above a number below 2^n. */
  lemma FreshHigh(k: nat, low: nat, n: nat)
    requires low < Pow2(n) && n <= k
    ensures Encodes(Shr(Or(Pow2(k), low), k), {0})
    ensures And(Or(Pow2(k), low), Pow2(n) - 1) == low
  {
    var w, mask := Or(Pow2(k), low), Pow2(n) - 1;
    Ones(n);
    forall j: nat ensures Bit(Shr(w, k), j) <==> j in {0} {
      ShrBit(w, k, j); OrBit(Pow2(k), low, k + j); Pow2Bit(k, k + j); HighBitsClear(low, n, k + j);
    }
    forall j: nat ensures Bit(And(w, mask), j) <==> Bit(low, j) {
      AndBit(w, mask, j); OrBit(Pow2(k), low, j); Pow2Bit(k, j);
      if j >= n { HighBitsClear(low, n, j); }
    }
    SameBits(And(w, mask), low);
  }

  /** A number below 2^n is its own remainder under the mask 2^n - 1. */
  lemma MaskedSmall(low: nat, n: nat)
    requires low < Pow2(n)
    ensures And(low, Pow2(n) - 1) == low
  {
    Ones(n);
    forall j: nat ensures Bit(And(low, Pow2(n) - 1), j) <==> Bit(low, j) {
      AndBit(low, Pow2(n) - 1, j);
      if j >= n { HighBitsClear(low, n, j); }
    }
    SameBits(And(low, Pow2(n) - 1), low);
  }

  /** `w & ~(2^n - 1)` is zero exactly when no bit at n or above is set. */
  lemma AboveMask(w: nat, n: nat, bits: set<nat>)
    requires Encodes(w, bits)
    ensures AndNot(w, Pow2(n) - 1) == 0 <==> bits <= Below(n)
  {
    Ones(n);
    var r := AndNot(w, Pow2(n) - 1);
    assert Encodes(r, bits - Below(n)) by {
      forall j: nat ensures Bit(r, j) <==> j in bits - Below(n) { AndNotBit(w, Pow2(n) - 1, j); }
    }
    EncodesZero(r, bits - Below(n));
    forall x | x in bits && x !in Below(n) ensures x in bits - Below(n) {
    }
  }

  lemma {:induction false} ShrShl(c: nat, k: nat)
    ensures Shr(Shl(c, k), k) == c
  {
    if k > 0 { ShrShl(c, k - 1); }
  }

  lemma {:induction false} ShlMono(c: nat, d: nat, k: nat)
    requires c < d
    ensures Shl(c, k) + Pow2(k) <= Shl(d, k)
  {
    if k > 0 { ShlMono(c, d, k - 1); }
  }

  lemma {:induction false} ShlPow2(m: nat, k: nat)
    ensures Shl(Pow2(m), k) == Pow2(m + k)
  {
    if k > 0 { ShlPow2(m, k - 1); }
  }

  /** The low k bits of r are zero exactly when r is its upper part shifted back. */
  lemma {:induction false} Aligned(r: nat, k: nat)
    ensures And(r, Pow2(k) - 1) == 0 <==> r == Shl(Shr(r, k), k)
    decreases k
  {
    if k == 0 {
      And0(r);
    } else {
      Aligned(r / 2, k - 1);
      assert (Pow2(k) - 1) / 2 == Pow2(k - 1) - 1 && (Pow2(k) - 1) % 2 == 1;
    }
  }

  lemma {:induction false} And0(r: nat)
    ensures And(r, 0) == 0
  {
    if r > 0 { And0(r / 2); }
  }

  lemma {:induction false} ShrStep(w: nat, k: nat)
    ensures Shr(w, k + 1) == Shr(w, k) / 2
  {
    if k > 0 { ShrStep(w / 2, k - 1); }
  }

  lemma {:induction false} ShrZero(w: nat, k: nat)
    ensures Shr(w, k) == 0 <==> w < Pow2(k)
    decreases k
  {
    if k > 0 { ShrZero(w / 2, k - 1); }
  }

  lemma {:induction false} Pow2Mono(a: nat, b: nat)
    requires a <= b
    ensures Pow2(a) <= Pow2(b)
    decreases b
  {
    if a < b { Pow2Mono(a, b - 1); }
  }

  lemma {:induction false} ShrBound(r: nat, k: nat, m: nat)
    requires r < Pow2(m + k)
    ensures Shr(r, k) < Pow2(m)
    decreases k
  {
    if k > 0 { ShrBound(r / 2, k - 1, m); }
  }
}
