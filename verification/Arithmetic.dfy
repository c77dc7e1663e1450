/** Powers of two, bit lengths and the few division facts the codecs and hash
    tables rest on. Machine words are natural numbers: a shift is a
    multiplication or division by a power of two. */
module Arithmetic {
  type byte = x: int | 0 <= x < 256

  function Pow2(n: nat): (p: nat)
    ensures p >= 1
  {
    if n == 0 then 1 else 2 * Pow2(n - 1)
  }

  /** bits.Len64: the number of bits needed to write n. */
  function BitLen(n: nat): nat {
    if n == 0 then 0 else 1 + BitLen(n / 2)
  }

  lemma {:induction false} Pow2Add(a: nat, b: nat)
    ensures Pow2(a + b) == Pow2(a) * Pow2(b)
  {
    if b == 0 {
    } else {
      Pow2Add(a, b - 1);
      assert Pow2(a + b) == 2 * Pow2(a + (b - 1));
      assert Pow2(a) * (2 * Pow2(b - 1)) == 2 * (Pow2(a) * Pow2(b - 1));
    }
  }

  lemma {:induction false} Pow2Monotone(a: nat, b: nat)
    requires a <= b
    ensures Pow2(a) <= Pow2(b)
    decreases b - a
  {
    if a < b {
      Pow2Monotone(a, b - 1);
    }
  }

  lemma Pow2Strict(a: nat, b: nat)
    requires a < b
    ensures 2 * Pow2(a) <= Pow2(b)
  {
    Pow2Monotone(a + 1, b);
  }

  lemma {:induction false} BitLenBounds(n: nat)
    requires n > 0
    ensures BitLen(n) >= 1
    ensures Pow2(BitLen(n) - 1) <= n < Pow2(BitLen(n))
  {
    if n == 1 {
      assert BitLen(1 / 2) == 0;
    } else {
      BitLenBounds(n / 2);
    }
  }

  lemma BitLenUnique(n: nat, k: nat)
    requires k >= 1 && Pow2(k - 1) <= n < Pow2(k)
    ensures BitLen(n) == k
  {
    BitLenBounds(n);
    if BitLen(n) < k {
      Pow2Monotone(BitLen(n), k - 1);
    } else if BitLen(n) > k {
      Pow2Monotone(k, BitLen(n) - 1);
    }
  }

  lemma {:induction false} BitLenMonotone(a: nat, b: nat)
    requires a <= b
    ensures BitLen(a) <= BitLen(b)
  {
    if a > 0 {
      BitLenMonotone(a / 2, b / 2);
    }
  }

  lemma MulAtLeast(d: int, t: int)
    requires d > 0 && t >= 1
    ensures d * t >= d
  {
  }

  lemma MulAtMost(d: int, t: int)
    requires d > 0 && t <= -1
    ensures d * t <= -d
  {
  }

  lemma MulSign(d: int, t: int)
    requires d > 0 && d * t >= 0
    ensures t >= 0
  {
  }

  lemma EqualRemainders(x: int, y: int, m: int) returns (d: int)
    requires m > 0 && x % m == y % m
    ensures y - x == m * d
  {
    d := y / m - x / m;
    assert x == m * (x / m) + x % m;
    assert y == m * (y / m) + y % m;
  }

  /** Quotient and remainder are determined by the division equation. */
  lemma DivModUnique(x: int, d: int, q: int, r: int)
    requires d > 0 && 0 <= r < d && x == d * q + r
    ensures x / d == q && x % d == r
  {
    var q' := x / d;
    var r' := x % d;
    assert x == d * q' + r';
    var t := q - q';
    assert d * t == d * q - d * q';
    if t >= 1 {
      MulAtLeast(d, t);
    } else if t <= -1 {
      MulAtMost(d, t);
    }
  }

  // ---- Masks and shifts ----

  /** s & (1 << w - 1) */
  function LowBits(s: nat, w: nat): (r: nat) {
    if w == 0 then 0 else s % 2 + 2 * LowBits(s / 2, w - 1)
  }

  /** s >> w */
  function ShiftRight(s: nat, w: nat): (r: nat) {
    if w == 0 then s else ShiftRight(s / 2, w - 1)
  }

  /** s << w */
  function ShiftLeft(s: nat, w: nat): (r: nat) {
    if w == 0 then s else 2 * ShiftLeft(s, w - 1)
  }

  lemma {:induction false} ShiftLeftIs(s: nat, w: nat)
    ensures ShiftLeft(s, w) == Pow2(w) * s
  {
    if w > 0 {
      ShiftLeftIs(s, w - 1);
      assert Pow2(w) * s == 2 * (Pow2(w - 1) * s);
    }
  }

  lemma {:induction false} ShiftLeftTwice(s: nat, a: nat, b: nat)
    ensures ShiftLeft(ShiftLeft(s, a), b) == ShiftLeft(s, a + b)
  {
    if b > 0 {
      ShiftLeftTwice(s, a, b - 1);
    }
  }

  lemma {:induction false} ShiftLeftAdd(x: nat, y: nat, w: nat)
    ensures ShiftLeft(x + y, w) == ShiftLeft(x, w) + ShiftLeft(y, w)
  {
    if w > 0 {
      ShiftLeftAdd(x, y, w - 1);
    }
  }

  lemma {:induction false} ShiftRightTwice(s: nat, a: nat, b: nat)
    ensures ShiftRight(ShiftRight(s, a), b) == ShiftRight(s, a + b)
  {
    if a > 0 {
      ShiftRightTwice(s / 2, a - 1, b);
    }
  }

  /** Mask and shift split a number. */
  lemma {:induction false} SplitBits(s: nat, w: nat)
    ensures s == LowBits(s, w) + ShiftLeft(ShiftRight(s, w), w)
    ensures LowBits(s, w) < Pow2(w)
  {
    if w > 0 {
      SplitBits(s / 2, w - 1);
      ShiftLeftTwice(ShiftRight(s, w), w - 1, 1);
    }
  }

  /** And the split is the only one. */
  lemma {:induction false} JoinBits(low: nat, high: nat, w: nat)
    requires low < Pow2(w)
    ensures LowBits(low + ShiftLeft(high, w), w) == low
    ensures ShiftRight(low + ShiftLeft(high, w), w) == high
  {
    if w > 0 {
      JoinBits(low / 2, high, w - 1);
    }
  }

  /** A number below 2^b placed above one below 2^a stays below 2^(a + b). */
  lemma {:induction false} JoinBound(low: nat, high: nat, a: nat, b: nat)
    requires low < Pow2(a) && high < Pow2(b)
    ensures low + ShiftLeft(high, a) < Pow2(a + b)
  {
    if a > 0 {
      JoinBound(low / 2, high, a - 1, b);
    }
  }

  lemma {:induction false} ShiftRightBound(x: nat, a: nat, b: nat)
    requires x < Pow2(a + b)
    ensures ShiftRight(x, a) < Pow2(b)
  {
    if a > 0 {
      ShiftRightBound(x / 2, a - 1, b);
    }
  }
}
