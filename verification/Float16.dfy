/** Unsigned 16-bit floating-point numbers with an 11-bit significand, whose smallest value above zero is one. */
module Float16 {
  import opened Arithmetic

  const SIGNIFICAND_BITS: nat := 11
  const SIGNIFICAND_MASK: nat := 0x7FF
  const SIGNIFICAND_LEADING_BIT: nat := 0x800
  const EXPONENT_MAX: nat := 31

  datatype Rounded = Rounded(value: nat) | TooLarge

  function Exponent(v: nat): (e: nat)
    requires v > SIGNIFICAND_MASK
  {
    LongEnough(v);
    BitLen(v) - SIGNIFICAND_BITS - 1
  }

  lemma LongEnough(v: nat)
    requires v > SIGNIFICAND_MASK
    ensures BitLen(v) > SIGNIFICAND_BITS
  {
    assert Pow2(11) == 0x800;
    BitLenBounds(v);
    if BitLen(v) <= 11 {
      Pow2Monotone(BitLen(v), 11);
    }
  }

  function FromUint64RoundUp(v: nat): (r: Rounded) {
    if v <= SIGNIFICAND_MASK then Rounded(v)
    else if v > ShiftLeft(SIGNIFICAND_LEADING_BIT + SIGNIFICAND_MASK, EXPONENT_MAX - 1) then TooLarge
    else Rounded(Encoded(v + (Pow2(Exponent(v)) - 1)))
  }

  /** Exponent and significand, without its leading bit. */
  function Encoded(up: nat): (f: nat)
    requires up > SIGNIFICAND_MASK
  {
    var shift := Exponent(up);
    (shift + 1) * SIGNIFICAND_LEADING_BIT + ShiftRight(up, shift) % SIGNIFICAND_LEADING_BIT
  }

  function ToUint64(f: nat): (v: nat) {
    var exponent := f / SIGNIFICAND_LEADING_BIT;
    if exponent == 0 then f
    else ShiftLeft(f % SIGNIFICAND_LEADING_BIT + SIGNIFICAND_LEADING_BIT, exponent - 1)
  }

  // ---- Normal values ----

  /** The value with the given significand and exponent. */
  lemma NormalValue(e: nat, s: nat)
    requires 0x800 <= s < 0x1000
    ensures ToUint64((e + 1) * 0x800 + (s - 0x800)) == Pow2(e) * s
  {
    var f := (e + 1) * 0x800 + (s - 0x800);
    DivModUnique(f, 0x800, e + 1, s - 0x800);
    ShiftLeftIs(s, e);
  }

  lemma TwelveBits(e: nat)
    ensures Pow2(e + 11) == Pow2(e) * 0x800 && Pow2(e + 12) == Pow2(e) * 0x1000
  {
    Pow2Add(e, 11);
    Pow2Add(e, 12);
    assert Pow2(11) == 0x800 && Pow2(12) == 0x1000;
  }

  lemma ExponentBounds(v: nat)
    requires v > SIGNIFICAND_MASK
    ensures Pow2(Exponent(v)) * 0x800 <= v < Pow2(Exponent(v)) * 0x1000
  {
    BitLenBounds(v);
    TwelveBits(Exponent(v));
  }

  lemma ExponentIs(v: nat, e: nat)
    requires Pow2(e) * 0x800 <= v < Pow2(e) * 0x1000 && v > SIGNIFICAND_MASK
    ensures Exponent(v) == e
  {
    TwelveBits(e);
    BitLenUnique(v, e + 12);
  }

  lemma Times(p: nat, a: int, b: int)
    requires p > 0
    ensures p * a < p * b <==> a < b
    ensures p * a <= p * b <==> a <= b
  {
    if a < b {
      MulAtLeast(p, b - a);
      assert p * (b - a) == p * b - p * a;
    } else if b < a {
      MulAtLeast(p, a - b);
      assert p * (a - b) == p * a - p * b;
    }
  }

  /** The quotient, rounded up, of a value between two powers of two. */
  lemma Quotient(v: nat, e: nat) returns (q: nat, low: nat)
    requires Pow2(e) * 0x800 <= v < Pow2(e) * 0x1000
    ensures 0x800 <= q <= 0x1000 && Pow2(e) * (q - 1) < v <= Pow2(e) * q
    ensures low < Pow2(e) && v + (Pow2(e) - 1) == low + Pow2(e) * q
  {
    var p := Pow2(e);
    var up := v + (p - 1);
    q, low := ShiftRight(up, e), LowBits(up, e);
    SplitBits(up, e);
    ShiftLeftIs(q, e);
    assert p * (q - 1) == p * q - p;
    Times(p, 0x7FF, q);
    Times(p, q - 1, 0x1000);
    assert p * 0x7FF == p * 0x800 - p;
  }

  lemma NoCarry(up: nat, e: nat, q: nat, low: nat)
    requires low < Pow2(e) && up == low + Pow2(e) * q && up > SIGNIFICAND_MASK && 0x800 <= q < 0x1000
    ensures ToUint64(Encoded(up)) == Pow2(e) * q
  {
    var p := Pow2(e);
    Times(p, 0x800, q);
    assert p * (q + 1) == p * q + p;
    Times(p, q + 1, 0x1000);
    ExponentIs(up, e);
    ShiftLeftIs(q, e);
    JoinBits(low, q, e);
    NormalValue(e, q);
  }

  lemma Carry(up: nat, e: nat, low: nat)
    requires low < Pow2(e) && up == low + Pow2(e) * 0x1000 && up > SIGNIFICAND_MASK
    ensures ToUint64(Encoded(up)) == Pow2(e) * 0x1000
  {
    assert Pow2(e + 1) == 2 * Pow2(e);
    NoCarry(up, e + 1, 0x800, low);
  }

  /** Rounding up gives the quotient as significand, or carries into the exponent. */
  lemma RoundedValue(v: nat, e: nat, q: nat, low: nat)
    requires SIGNIFICAND_MASK < v <= ShiftLeft(0xFFF, 30) && e == Exponent(v)
    requires 0x800 <= q <= 0x1000 && low < Pow2(e) && v + (Pow2(e) - 1) == low + Pow2(e) * q
    ensures FromUint64RoundUp(v).Rounded? && ToUint64(FromUint64RoundUp(v).value) == Pow2(e) * q
  {
    if q < 0x1000 {
      NoCarry(v + (Pow2(e) - 1), e, q, low);
    } else {
      Carry(v + (Pow2(e) - 1), e, low);
    }
  }

  lemma SmallValue(f: nat, e: nat)
    requires f / 0x800 <= e
    ensures ToUint64(f) < Pow2(e) * 0x800
  {
    var exponent, s := f / 0x800, f % 0x800 + 0x800;
    if exponent > 0 {
      ShiftLeftIs(s, exponent - 1);
      Pow2Strict(exponent - 1, e);
      Times(Pow2(exponent - 1), s, 0x1000);
    }
  }

  /** A representable value that is not below 2^(e + 11) is a multiple of 2^e. */
  lemma Multiple(f: nat, e: nat) returns (k: nat)
    requires Pow2(e) * 0x800 <= ToUint64(f)
    ensures ToUint64(f) == Pow2(e) * k
  {
    var exponent, s := f / 0x800, f % 0x800 + 0x800;
    assert exponent > e by {
      if exponent <= e {
        SmallValue(f, e);
      }
    }
    var d := exponent - 1 - e;
    ShiftLeftTwice(s, d, e);
    k := ShiftLeft(s, d);
    ShiftLeftIs(k, e);
  }

  // ---- The conversions ----

  lemma Largest()
    ensures ToUint64(0xFFFF) == ShiftLeft(0xFFF, 30) >= 0xFFF
  {
    assert 0xFFFF / 0x800 == 31 && 0xFFFF % 0x800 + 0x800 == 0xFFF;
    ShiftLeftIs(0xFFF, 30);
  }

  /** x is the least representable value not below v. */
  ghost predicate LeastAbove(v: nat, x: nat) {
    v <= x && forall f: nat :: v <= ToUint64(f) ==> x <= ToUint64(f)
  }

  lemma QuotientIsLeast(v: nat, e: nat, q: nat)
    requires Pow2(e) * 0x800 <= v && q > 0 && Pow2(e) * (q - 1) < v <= Pow2(e) * q
    ensures LeastAbove(v, Pow2(e) * q)
  {
    forall f: nat | v <= ToUint64(f) ensures Pow2(e) * q <= ToUint64(f) {
      var k := Multiple(f, e);
      Times(Pow2(e), q - 1, k);
      Times(Pow2(e), q, k);
    }
  }

  /** Rounding up gives the least representable value not below the input, and fails exactly when there is none. */
  lemma RoundsUp(v: nat)
    ensures FromUint64RoundUp(v).TooLarge? <==> v > ToUint64(0xFFFF)
    ensures var r := FromUint64RoundUp(v); r.Rounded? ==> r.value < 0x1_0000 && LeastAbove(v, ToUint64(r.value))
  {
    Largest();
    var r := FromUint64RoundUp(v);
    if r.Rounded? && v > SIGNIFICAND_MASK {
      var e := Exponent(v);
      ExponentBounds(v);
      var q, low := Quotient(v, e);
      RoundedValue(v, e, q, low);
      QuotientIsLeast(v, e, q);
      FitsWord(r.value);
    }
  }

  lemma FitsWord(f: nat)
    requires ToUint64(f) <= ToUint64(0xFFFF)
    ensures f <= 0xFFFF
  {
    if f > 0xFFFF {
      Increasing(0xFFFF, f);
    }
  }

  /** Larger encodings stand for larger values. */
  lemma Increasing(f: nat, g: nat)
    requires f < g
    ensures ToUint64(f) < ToUint64(g)
  {
    var a, b := f / 0x800, g / 0x800;
    var s, t := f % 0x800 + 0x800, g % 0x800 + 0x800;
    if a > 0 {
      ShiftLeftIs(s, a - 1);
      ShiftLeftIs(t, b - 1);
      if a == b {
        Times(Pow2(a - 1), s, t);
      } else {
        Pow2Strict(a - 1, b - 1);
        Times(Pow2(a - 1), s, 0x1000);
        Times(Pow2(b - 1), 0x800, t);
      }
    } else if b > 0 {
      ShiftLeftIs(t, b - 1);
      Times(Pow2(b - 1), 0x800, t);
      MulAtLeast(0x800, Pow2(b - 1));
    }
  }

  /** Rounding up undoes ToUint64. */
  lemma RoundTrip(f: nat)
    requires f < 0x1_0000
    ensures FromUint64RoundUp(ToUint64(f)) == Rounded(f)
  {
    var v := ToUint64(f);
    if f < 0xFFFF {
      Increasing(f, 0xFFFF);
    }
    RoundsUp(v);
    var r := FromUint64RoundUp(v);
    if r.value < f {
      Increasing(r.value, f);
    } else if f < r.value {
      Increasing(f, r.value);
    }
  }
}
