/** Bits of machine words, by halving. */
module Bits {
  import opened Basics

  function Pow2(n: nat): (p: nat)
    ensures p >= 1
  {
    if n == 0 then 1 else 2 * Pow2(n - 1)
  }

  predicate Bit(w: nat, b: nat) {
    if b == 0 then w % 2 == 1 else Bit(w / 2, b - 1)
  }

  /** `w | 1 << b`. */
  function SetBit(w: nat, b: nat): nat {
    if b == 0 then (if w % 2 == 1 then w else w + 1) else 2 * SetBit(w / 2, b - 1) + w % 2
  }

  /** Setting a bit sets that bit and no other. */
  lemma {:induction false} SetBitBits(w: nat, b: nat, c: nat)
    ensures Bit(SetBit(w, b), c) <==> c == b || Bit(w, c)
  {
    if b > 0 && c > 0 {
      SetBitBits(w / 2, b - 1, c - 1);
    }
  }

  /** A word of `n` bits keeps its width. */
  lemma {:induction false} SetBitFits(w: nat, b: nat, n: nat)
    requires b < n && w < Pow2(n)
    ensures SetBit(w, b) < Pow2(n)
  {
    assert Pow2(n) == 2 * Pow2(n - 1);
    if b > 0 {
      SetBitFits(w / 2, b - 1, n - 1);
    }
  }

  lemma {:induction false} ZeroHasNoBits(b: nat)
    ensures !Bit(0, b)
  {
    if b > 0 {
      ZeroHasNoBits(b - 1);
    }
  }

  lemma {:induction false} Pow2Adds(a: nat, b: nat)
    ensures Pow2(a + b) == Pow2(a) * Pow2(b)
  {
    if a > 0 {
      Pow2Adds(a - 1, b);
      assert 2 * (Pow2(a - 1) * Pow2(b)) == 2 * Pow2(a - 1) * Pow2(b);
    }
  }

  lemma WordWidth()
    ensures Pow2(64) == U64_MAX + 1
  {
    assert Pow2(4) == 16;
    Pow2Adds(4, 4);
    assert Pow2(8) == 256;
    Pow2Adds(8, 8);
    assert Pow2(16) == 0x1_0000;
    Pow2Adds(16, 16);
    assert Pow2(32) == 0x1_0000_0000;
    Pow2Adds(32, 32);
  }

  /** Bit `b` says whether a word is odd after it has been halved `b` times. */
  lemma {:induction false} BitIsDigit(w: nat, b: nat)
    ensures Bit(w, b) <==> w / Pow2(b) % 2 == 1
    decreases b
  {
    if b > 0 {
      BitIsDigit(w / 2, b - 1);
      HalvedAgain(w, Pow2(b - 1));
    }
  }

  lemma HalvedAgain(w: nat, p: nat)
    requires p > 0
    ensures w / 2 / p == w / (2 * p)
  {
    var q := w / 2 / p;
    var r := w / 2 - q * p;
    assert w / 2 == p * q + r && 0 <= r < p;
    var s := w - 2 * p * q;
    assert w == 2 * p * q + s && 0 <= s < 2 * p;
    QuotientIs(w, 2 * p, q, s);
  }

  lemma QuotientIs(w: nat, d: nat, q: nat, r: nat)
    requires d > 0 && w == d * q + r && r < d
    ensures w / d == q
  {
    var q' := w / d;
    if q' < q {
      TimesGrows(q' + 1, q, d);
    } else if q' > q {
      TimesGrows(q + 1, q', d);
    }
  }

  /** `u64::next_power_of_two`. */
  function NextPowerOfTwo(n: nat): (p: nat)
    ensures p >= n && p >= 1
  {
    if n <= 1 then 1 else 2 * NextPowerOfTwo((n + 1) / 2)
  }

  /** It is a power of two, and no smaller one is large enough. */
  lemma {:induction false} NextPowerIsLeast(n: nat) returns (k: nat)
    ensures NextPowerOfTwo(n) == Pow2(k) && (k > 0 ==> Pow2(k - 1) < n)
  {
    if n <= 1 {
      k := 0;
    } else {
      k := NextPowerIsLeast((n + 1) / 2);
      k := k + 1;
    }
  }

  /** Exclusive or, bit by bit. */
  function Xor(a: nat, b: nat): nat {
    if a == 0 && b == 0 then 0 else (a + b) % 2 + 2 * Xor(a / 2, b / 2)
  }
}
