/** Variable-length integers whose first byte's leading zero bits give the
    number of bytes that follow, written forward or backward. */
module Varint {
  import opened Arithmetic

  /** A Go integer type: signedness and width. */
  datatype IntType = IntType(signed: bool, bits: nat) {
    predicate Valid() {
      bits == 8 || bits == 16 || bits == 32 || bits == 64
    }

    predicate Holds(v: int) {
      if signed then 0 <= 2 * v + Pow2(bits) < 2 * Pow2(bits) else 0 <= v < Pow2(bits)
    }
  }

  datatype Consumed = Consumed(value: int, length: nat) | Malformed

  const MIN64: int := -0x8000_0000_0000_0000
  const LIMIT64: int := 0x1_0000_0000_0000_0000

  // ---- Fixed-width integers as bytes ----

  function BigEndian(x: int, n: nat): (b: seq<byte>)
    ensures |b| == n
    decreases n, x
  {
    if n == 0 then [] else BigEndian(x / 256, n - 1) + [x % 256]
  }

  function LittleEndian(x: int, n: nat): (b: seq<byte>)
    ensures |b| == n
    decreases n, x
  {
    if n == 0 then [] else [x % 256] + LittleEndian(x / 256, n - 1)
  }

  function FromLittleEndian(b: seq<byte>): (x: nat) {
    if b == [] then 0 else b[0] + 256 * FromLittleEndian(b[1..])
  }

  function Reversed<T>(s: seq<T>): (r: seq<T>)
    ensures |r| == |s|
  {
    if s == [] then [] else Reversed(s[1..]) + [s[0]]
  }

  // ---- The encoder ----

  /** Bits are combined with `|` only where they cannot overlap and masked with
      `&` only by 2^k - 1, so both are written as arithmetic. A right shift of a
      negative number rounds down, as Dafny's division does. */
  function AppendForward(v: int): (b: seq<byte>)
    requires MIN64 <= v < LIMIT64
  {
    if v < 0 then ForwardNegative(v) else ForwardNonNegative(v)
  }

  function ForwardNegative(v: int): (b: seq<byte>)
    requires MIN64 <= v < 0
  {
    if v >= -0x40 then [v % 256]
    else if v >= -0x2000 then BigEndian(v % 0x8000, 2)
    else if v >= -0x10_0000 then [v / 0x1_0000 % 0x40] + BigEndian(v, 2)
    else if v >= -0x800_0000 then BigEndian(v % 0x2000_0000, 4)
    else if v >= -0x4_0000_0000 then [v / 0x1_0000_0000 % 0x10] + BigEndian(v, 4)
    else if v >= -0x200_0000_0000 then BigEndian(v / 0x1_0000_0000 % 0x800, 2) + BigEndian(v, 4)
    else if v >= -0x1_0000_0000_0000 then [0x03] + BigEndian(v / 0x1_0000_0000, 2) + BigEndian(v, 4)
    else if v >= -0x80_0000_0000_0000 then BigEndian(v % 0x200_0000_0000_0000, 8)
    else if v >= -0x4000_0000_0000_0000 then [0x00] + BigEndian(v, 8)
    else [0x00, 0x7f] + BigEndian(v, 8)
  }

  function ForwardNonNegative(v: int): (b: seq<byte>)
    requires 0 <= v < LIMIT64
  {
    if v < 0x40 then [v + 0x80]
    else if v < 0x2000 then BigEndian(v + 0x4000, 2)
    else if v < 0x10_0000 then [v / 0x1_0000 + 0x20] + BigEndian(v, 2)
    else if v < 0x800_0000 then BigEndian(v + 0x1000_0000, 4)
    else if v < 0x4_0000_0000 then [v / 0x1_0000_0000 + 0x08] + BigEndian(v, 4)
    else if v < 0x200_0000_0000 then BigEndian(v / 0x1_0000_0000 + 0x0400, 2) + BigEndian(v, 4)
    else if v < 0x1_0000_0000_0000 then [0x02] + BigEndian(v / 0x1_0000_0000, 2) + BigEndian(v, 4)
    else if v < 0x80_0000_0000_0000 then BigEndian(v + 0x100_0000_0000_0000, 8)
    else if v < 0x4000_0000_0000_0000 then [0x00] + BigEndian(v + 0x8000_0000_0000_0000, 8)
    else [0x00, 0x40] + BigEndian(v, 8)
  }

  function AppendBackward(v: int): (b: seq<byte>)
    requires MIN64 <= v < LIMIT64
  {
    if v < 0 then BackwardNegative(v) else BackwardNonNegative(v)
  }

  function BackwardNegative(v: int): (b: seq<byte>)
    requires MIN64 <= v < 0
  {
    if v >= -0x40 then [v % 256]
    else if v >= -0x2000 then LittleEndian(v % 0x8000, 2)
    else if v >= -0x10_0000 then LittleEndian(v, 2) + [v / 0x1_0000 % 0x40]
    else if v >= -0x800_0000 then LittleEndian(v % 0x2000_0000, 4)
    else if v >= -0x4_0000_0000 then LittleEndian(v, 4) + [v / 0x1_0000_0000 % 0x10]
    else if v >= -0x200_0000_0000 then LittleEndian(v, 4) + LittleEndian(v / 0x1_0000_0000 % 0x800, 2)
    else if v >= -0x1_0000_0000_0000 then LittleEndian(v, 4) + LittleEndian(v / 0x1_0000_0000, 2) + [0x03]
    else if v >= -0x80_0000_0000_0000 then LittleEndian(v % 0x200_0000_0000_0000, 8)
    else if v >= -0x4000_0000_0000_0000 then LittleEndian(v, 8) + [0x00]
    else LittleEndian(v, 8) + [0x7f, 0x00]
  }

  function BackwardNonNegative(v: int): (b: seq<byte>)
    requires 0 <= v < LIMIT64
  {
    if v < 0x40 then [v + 0x80]
    else if v < 0x2000 then LittleEndian(v + 0x4000, 2)
    else if v < 0x10_0000 then LittleEndian(v, 2) + [v / 0x1_0000 + 0x20]
    else if v < 0x800_0000 then LittleEndian(v + 0x1000_0000, 4)
    else if v < 0x4_0000_0000 then LittleEndian(v, 4) + [v / 0x1_0000_0000 + 0x08]
    else if v < 0x200_0000_0000 then LittleEndian(v, 4) + LittleEndian(v / 0x1_0000_0000 + 0x0400, 2)
    else if v < 0x1_0000_0000_0000 then LittleEndian(v, 4) + LittleEndian(v / 0x1_0000_0000, 2) + [0x02]
    else if v < 0x80_0000_0000_0000 then LittleEndian(v + 0x100_0000_0000_0000, 8)
    else if v < 0x4000_0000_0000_0000 then LittleEndian(v + 0x8000_0000_0000_0000, 8) + [0x00]
    else LittleEndian(v, 8) + [0x40, 0x00]
  }

  function SizeBytes(v: int): (n: nat)
    requires MIN64 <= v < LIMIT64
  {
    BitLen(if v < 0 then -v - 1 else v) / 7 + 1
  }

  // ---- The decoder ----

  function LeadingZeros8(b: byte): (n: nat)
    ensures n <= 8
  {
    if b >= 0x80 then 0
    else if b >= 0x40 then 1
    else if b >= 0x20 then 2
    else if b >= 0x10 then 3
    else if b >= 0x08 then 4
    else if b >= 0x04 then 5
    else if b >= 0x02 then 6
    else if b >= 0x01 then 7
    else 8
  }

  /** x << (64 - n) >> (64 - n) on a signed word, for modulus 2^n: the low n bits, sign extended. */
  function SignExtend(x: nat, modulus: nat): (v: int)
    requires modulus >= 2
  {
    if x >= modulus then SignExtend(x - modulus, modulus)
    else if 2 * x >= modulus then x - modulus
    else x
  }

  /** The big-endian integer in the n bytes from `from` on. */
  function Unsigned(src: seq<byte>, from: nat, n: nat): (x: nat)
    requires from + n <= |src|
    decreases n, src
  {
    if n == 0 then 0 else Unsigned(src, from, n - 1) * 256 + src[from + n - 1]
  }

  /** T(v), rejected when the conversion would change the value. */
  function Converted(t: IntType, v: int, length: nat): (c: Consumed) {
    if t.Holds(v) then Consumed(v, length) else Malformed
  }

  /** A full 64-bit word x behind the marker byte; `top` is the word's highest byte. */
  function ConvertedWord(t: IntType, marker: byte, top: byte, x: nat, length: nat): (c: Consumed) {
    if !t.signed && marker == 0x40 then Converted(t, x, length)
    else if (t.signed && marker == 0x40 && top < 0x80) || (marker == 0x7f && top >= 0x80) then
      Converted(t, SignExtend(x, 0x1_0000_0000_0000_0000), length)
    else Malformed
  }

  /** The two longest forms, whose first byte in reading order is zero. */
  function ConsumeForwardLong(t: IntType, src: seq<byte>): (c: Consumed)
    requires |src| >= 9
  {
    var more := LeadingZeros8(src[1]);
    if |src| < 9 + more then Malformed
    else if more == 0 then Converted(t, SignExtend(Unsigned(src, 1, 8), 0x8000_0000_0000_0000), 9)
    else ConvertedWord(t, src[1], src[2], Unsigned(src, 2, 8), 9 + more)
  }

  function ConsumeForward(t: IntType, src: seq<byte>): (c: Consumed) {
    if |src| < 1 then Malformed
    else
      var zeros := LeadingZeros8(src[0]);
      if |src| < 1 + zeros then Malformed
      else if zeros == 0 then Converted(t, SignExtend(src[0], 0x80), 1)
      else if zeros == 1 then Converted(t, SignExtend(Unsigned(src, 0, 2), 0x4000), 2)
      else if zeros == 2 then Converted(t, SignExtend(src[0], 0x20) * 0x1_0000 + Unsigned(src, 1, 2), 3)
      else if zeros == 3 then Converted(t, SignExtend(Unsigned(src, 0, 4), 0x1000_0000), 4)
      else if zeros == 4 then Converted(t, SignExtend(src[0], 0x08) * 0x1_0000_0000 + Unsigned(src, 1, 4), 5)
      else if zeros == 5 then
        Converted(t, SignExtend(Unsigned(src, 0, 2), 0x400) * 0x1_0000_0000 + Unsigned(src, 2, 4), 6)
      else if zeros == 6 then
        Converted(t, SignExtend(src[0], 0x02) * 0x1_0000_0000_0000
                  + Unsigned(src, 1, 2) * 0x1_0000_0000 + Unsigned(src, 3, 4), 7)
      else if zeros == 7 then Converted(t, SignExtend(Unsigned(src, 0, 8), 0x100_0000_0000_0000), 8)
      else ConsumeForwardLong(t, src)
  }

  /** The little-endian integer of n bytes that ends `skip` bytes before the end. */
  function UnsignedBack(src: seq<byte>, skip: nat, n: nat): (x: nat)
    requires skip + n <= |src|
    decreases n, src
  {
    if n == 0 then 0 else src[|src| - skip - n] + 256 * UnsignedBack(src, skip, n - 1)
  }

  /** The two longest forms, whose first byte in reading order is zero. */
  function ConsumeBackwardLong(t: IntType, src: seq<byte>): (c: Consumed)
    requires |src| >= 9
  {
    var last := |src| - 1;
    var more := LeadingZeros8(src[last - 1]);
    if |src| < 9 + more then Malformed
    else if more == 0 then Converted(t, SignExtend(UnsignedBack(src, 1, 8), 0x8000_0000_0000_0000), 9)
    else ConvertedWord(t, src[last - 1], src[last - 2], UnsignedBack(src, 2, 8), 9 + more)
  }

  function ConsumeBackward(t: IntType, src: seq<byte>): (c: Consumed) {
    if |src| < 1 then Malformed
    else
      var last := |src| - 1;
      var zeros := LeadingZeros8(src[last]);
      if |src| < 1 + zeros then Malformed
      else if zeros == 0 then Converted(t, SignExtend(src[last], 0x80), 1)
      else if zeros == 1 then Converted(t, SignExtend(UnsignedBack(src, 0, 2), 0x4000), 2)
      else if zeros == 2 then Converted(t, SignExtend(src[last], 0x20) * 0x1_0000 + UnsignedBack(src, 1, 2), 3)
      else if zeros == 3 then Converted(t, SignExtend(UnsignedBack(src, 0, 4), 0x1000_0000), 4)
      else if zeros == 4 then Converted(t, SignExtend(src[last], 0x08) * 0x1_0000_0000 + UnsignedBack(src, 1, 4), 5)
      else if zeros == 5 then
        Converted(t, SignExtend(UnsignedBack(src, 0, 2), 0x400) * 0x1_0000_0000 + UnsignedBack(src, 2, 4), 6)
      else if zeros == 6 then
        Converted(t, SignExtend(src[last], 0x02) * 0x1_0000_0000_0000
                  + UnsignedBack(src, 1, 2) * 0x1_0000_0000 + UnsignedBack(src, 3, 4), 7)
      else if zeros == 7 then Converted(t, SignExtend(UnsignedBack(src, 0, 8), 0x100_0000_0000_0000), 8)
      else ConsumeBackwardLong(t, src)
  }

  // ---- Reading and writing words ----

  lemma RemainderStep(x: int, p: nat)
    requires p > 0
    ensures (x / 256 % p) * 256 + x % 256 == x % (256 * p)
  {
    var high, low := x / 256, x % 256;
    var q, r := high / p, high % p;
    assert high == p * q + r;
    assert x == (256 * p) * q + (r * 256 + low);
    DivModUnique(x, 256 * p, q, r * 256 + low);
  }

  lemma {:induction false} UnsignedOf(pre: seq<byte>, x: int, n: nat, post: seq<byte>)
    ensures Unsigned(pre + BigEndian(x, n) + post, |pre|, n) == x % Pow2(8 * n)
    decreases n
  {
    if n > 0 {
      var last: seq<byte> := [x % 256];
      assert pre + BigEndian(x, n) + post == pre + BigEndian(x / 256, n - 1) + (last + post);
      UnsignedOf(pre, x / 256, n - 1, last + post);
      Pow256(8 * (n - 1));
      RemainderStep(x, Pow2(8 * (n - 1)));
    }
  }

  lemma Literals()
    ensures Pow2(8) == 0x100 && Pow2(16) == 0x1_0000 && Pow2(32) == 0x1_0000_0000
  {
    Pow2Add(8, 8);
    Pow2Add(16, 16);
  }

  lemma WideLiterals()
    ensures Pow2(56) == 0x100_0000_0000_0000 && Pow2(57) == 0x200_0000_0000_0000
    ensures Pow2(63) == 0x8000_0000_0000_0000 && Pow2(64) == 0x1_0000_0000_0000_0000
  {
    Literals();
    Pow2Add(32, 16);
    Pow2Add(48, 8);
    Pow2Add(56, 1);
    Pow2Add(32, 32);
  }

  lemma Pow256(n: nat)
    ensures Pow2(n + 8) == 256 * Pow2(n)
  {
    Pow2Add(n, 8);
    assert Pow2(8) == 256;
  }

  /** Bytes depend only on the value modulo their capacity. */
  lemma {:induction false} SameBytes(x: int, y: int, n: nat, q: int)
    requires y == x + Pow2(8 * n) * q
    ensures BigEndian(x, n) == BigEndian(y, n)
    decreases n
  {
    if n > 0 {
      Pow256(8 * (n - 1));
      var p := Pow2(8 * (n - 1)) * q;
      assert Pow2(8 * n) * q == 256 * p;
      assert y / 256 == x / 256 + p && y % 256 == x % 256;
      SameBytes(x / 256, y / 256, n - 1, q);
    }
  }

  lemma {:induction false} BigEndianSplit(x: int, a: nat, b: nat)
    ensures BigEndian(x, a + b) == BigEndian(x / Pow2(8 * b), a) + BigEndian(x, b)
    decreases b
  {
    if b > 0 {
      BigEndianSplit(x / 256, a, b - 1);
      Pow256(8 * (b - 1));
      DividedTwice(x, Pow2(8 * (b - 1)));
      assert a + b - 1 == a + (b - 1);
      assert BigEndian(x, a + b) == BigEndian(x / 256, a + b - 1) + [x % 256];
    }
  }

  lemma DividedTwice(x: int, p: nat)
    requires p > 0
    ensures x / 256 / p == x / (256 * p)
  {
    var high, low := x / 256, x % 256;
    var q, r := high / p, high % p;
    assert high == p * q + r;
    assert x == (256 * p) * q + (r * 256 + low);
    DivModUnique(x, 256 * p, q, r * 256 + low);
  }

  lemma {:induction false} UnsignedSplit(src: seq<byte>, from: nat, a: nat, b: nat)
    requires from + a + b <= |src|
    ensures Unsigned(src, from, a + b) == Pow2(8 * b) * Unsigned(src, from, a) + Unsigned(src, from + a, b)
    decreases b
  {
    if b > 0 {
      UnsignedSplit(src, from, a, b - 1);
      Pow256(8 * (b - 1));
      assert Unsigned(src, from, a + b) == Unsigned(src, from, a + (b - 1)) * 256 + src[from + a + b - 1];
      Regroup(Pow2(8 * (b - 1)), Unsigned(src, from, a), Unsigned(src, from + a, b - 1));
    }
  }

  lemma Regroup(p: nat, high: nat, low: nat)
    ensures (p * high + low) * 256 == (256 * p) * high + low * 256
  {
  }

  lemma {:induction false} UnsignedBound(src: seq<byte>, from: nat, n: nat)
    requires from + n <= |src|
    ensures Unsigned(src, from, n) < Pow2(8 * n)
    decreases n
  {
    if n > 0 {
      UnsignedBound(src, from, n - 1);
      Pow256(8 * (n - 1));
    }
  }

  /** The bytes are those of the number that is read from them. */
  lemma {:induction false} BigEndianOf(src: seq<byte>, n: nat)
    requires n <= |src|
    ensures BigEndian(Unsigned(src, 0, n), n) == src[..n]
    decreases n
  {
    if n > 0 {
      BigEndianOf(src, n - 1);
      assert src[..n] == src[..n - 1] + [src[n - 1]];
    }
  }

  lemma ReadsWritten(x: nat, n: nat, rest: seq<byte>)
    requires x < Pow2(8 * n)
    ensures Unsigned(BigEndian(x, n) + rest, 0, n) == x
  {
    UnsignedOf([], x, n, rest);
    assert [] + BigEndian(x, n) + rest == BigEndian(x, n) + rest;
    DivModUnique(x, Pow2(8 * n), 0, x);
  }

  // ---- What forms there are ----

  /** The number of bytes AppendForward chooses: the least n whose 7n bits hold v and its sign. */
  ghost predicate Fits(v: int, n: nat) {
    if n == 0 then false
    else if n >= 10 then true
    else 0 <= v + Pow2(7 * n - 1) < Pow2(7 * n)
  }

  lemma Fits1to4(v: int)
    ensures Fits(v, 1) <==> -0x40 <= v < 0x40
    ensures Fits(v, 2) <==> -0x2000 <= v < 0x2000
    ensures Fits(v, 3) <==> -0x10_0000 <= v < 0x10_0000
    ensures Fits(v, 4) <==> -0x800_0000 <= v < 0x800_0000
  {
    assert Pow2(6) == 0x40 && Pow2(13) == 0x2000;
    Pow2Add(7, 13);
    Pow2Add(14, 13);
  }

  lemma Fits5to9(v: int)
    ensures Fits(v, 5) <==> -0x4_0000_0000 <= v < 0x4_0000_0000
    ensures Fits(v, 6) <==> -0x200_0000_0000 <= v < 0x200_0000_0000
    ensures Fits(v, 7) <==> -0x1_0000_0000_0000 <= v < 0x1_0000_0000_0000
    ensures Fits(v, 8) <==> -0x80_0000_0000_0000 <= v < 0x80_0000_0000_0000
    ensures Fits(v, 9) <==> -0x4000_0000_0000_0000 <= v < 0x4000_0000_0000_0000
  {
    assert Pow2(7) == 0x80 && Pow2(13) == 0x2000;
    Pow2Add(14, 13);
    Pow2Add(27, 7);
    Pow2Add(34, 7);
    Pow2Add(41, 7);
    Pow2Add(48, 7);
    Pow2Add(55, 7);
  }

  lemma BelowPower(m: nat, e: nat)
    ensures m < Pow2(e) <==> BitLen(m) <= e
  {
    if m > 0 {
      BitLenBounds(m);
      if BitLen(m) <= e {
        Pow2Monotone(BitLen(m), e);
      } else {
        Pow2Monotone(e, BitLen(m) - 1);
      }
    }
  }

  lemma Magnitude(v: int, e: nat)
    requires e >= 1
    ensures 0 <= v + Pow2(e - 1) < Pow2(e) <==> BitLen(if v < 0 then -v - 1 else v) < e
  {
    BelowPower(if v < 0 then -v - 1 else v, e - 1);
  }

  lemma WithinWord(m: nat)
    requires m < LIMIT64
    ensures BitLen(m) <= 64
  {
    WideLiterals();
    BitLenMonotone(m, LIMIT64 - 1);
    BitLenUnique(LIMIT64 - 1, 64);
  }

  /** SizeBytes is the least length whose bits hold the value. */
  lemma SizeBytesIsLeast(v: int)
    requires MIN64 <= v < LIMIT64
    ensures 1 <= SizeBytes(v) <= 10
    ensures forall n: nat :: Fits(v, n) <==> n >= SizeBytes(v)
  {
    WithinWord(if v < 0 then -v - 1 else v);
    forall n: nat ensures Fits(v, n) <==> n >= SizeBytes(v) {
      if 1 <= n < 10 {
        Magnitude(v, 7 * n);
      }
    }
  }

  function Marker(v: int): int {
    if v < 0 then 2 else 1
  }

  /** The form of v in n bytes: n - 1 zero bits, a one, and v in the 7n bits behind it. */
  ghost function Form(v: int, n: nat): (b: seq<byte>)
    ensures |b| == n
  {
    BigEndian(v + Pow2(7 * n) * Marker(v), n)
  }

  lemma Powers()
    ensures Pow2(7) == 0x80 && Pow2(14) == 0x4000 && Pow2(21) == 0x20_0000 && Pow2(28) == 0x1000_0000
    ensures Pow2(35) == 0x8_0000_0000 && Pow2(42) == 0x400_0000_0000 && Pow2(49) == 0x2_0000_0000_0000
    ensures Pow2(56) == 0x100_0000_0000_0000 && Pow2(63) == 0x8000_0000_0000_0000
            && Pow2(70) == 0x40_0000_0000_0000_0000
  {
    assert Pow2(7) == 0x80;
    Pow2Add(7, 7);
    Pow2Add(14, 7);
    Pow2Add(21, 7);
    Pow2Add(28, 7);
    Pow2Add(35, 7);
    Pow2Add(42, 7);
    Pow2Add(49, 7);
    Pow2Add(56, 7);
    Pow2Add(63, 7);
  }

  /** The number in the first n bytes has n - 1 zero bits and then a one. */
  ghost predicate Marked(src: seq<byte>, n: nat) {
    n <= |src| && Pow2(7 * n) <= Unsigned(src, 0, n) < 2 * Pow2(7 * n)
  }

  lemma ZerosIs(b: byte, k: nat)
    requires k <= 7
    ensures LeadingZeros8(b) == k <==> Pow2(7 - k) <= b < 2 * Pow2(7 - k)
  {
    assert Pow2(1) == 0x02 && Pow2(2) == 0x04 && Pow2(3) == 0x08 && Pow2(4) == 0x10;
    assert Pow2(5) == 0x20 && Pow2(6) == 0x40 && Pow2(7) == 0x80;
  }

  /** Where a number lies between a power and its double is decided by its first byte. */
  lemma FirstByteDecides(first: nat, low: nat, p: nat, m: nat)
    requires low < p
    ensures p * m <= p * first + low < 2 * (p * m) <==> m <= first < 2 * m
  {
    if m <= first {
      MulMonotone(p, m, first);
    } else {
      MulMonotone(p, first + 1, m);
    }
    if first < 2 * m {
      MulMonotone(p, first + 1, 2 * m);
    } else {
      MulMonotone(p, 2 * m, first);
    }
    assert p * (2 * m) == 2 * (p * m);
  }

  lemma MulMonotone(p: nat, a: nat, b: nat)
    requires a <= b
    ensures p * a <= p * b && p * (a + 1) == p * a + p
  {
  }

  lemma MarkedIs(src: seq<byte>, n: nat)
    requires 1 <= n <= 8 && n <= |src|
    ensures Marked(src, n) <==> LeadingZeros8(src[0]) == n - 1
  {
    ZerosIs(src[0], n - 1);
    UnsignedSplit(src, 0, 1, n - 1);
    assert Unsigned(src, 0, 1) == src[0];
    UnsignedBound(src, 1, n - 1);
    FirstByteDecides(src[0], Unsigned(src, 1, n - 1), Pow2(8 * (n - 1)), Pow2(8 - n));
    Pow2Add(8 * (n - 1), 8 - n);
  }

  /** Nine and ten bytes start with a zero byte; the second one tells them apart. */
  lemma MarkedLong(src: seq<byte>)
    requires |src| >= 9
    ensures Marked(src, 9) <==> src[0] == 0 && src[1] >= 0x80
    ensures |src| >= 10 ==> (Marked(src, 10) <==> src[0] == 0 && 0x40 <= src[1] < 0x80)
  {
    Powers();
    MarkedAfterTwo(src, 9, Pow2(56), 0x80);
    if |src| >= 10 {
      WideLiterals();
      MarkedAfterTwo(src, 10, Pow2(64), 0x40);
    }
  }

  lemma MarkedAfterTwo(src: seq<byte>, n: nat, p: nat, mark: nat)
    requires 2 <= n <= |src| && p == Pow2(8 * (n - 2)) && Pow2(7 * n) == p * mark && mark <= 0x80
    ensures Marked(src, n) <==> src[0] == 0 && mark <= src[1] < 2 * mark
  {
    UnsignedSplit(src, 0, 2, n - 2);
    UnsignedBound(src, 2, n - 2);
    assert Unsigned(src, 0, 1) == src[0] && Unsigned(src, 0, 2) == 256 * Unsigned(src, 0, 1) + src[1];
    FirstByteDecides(Unsigned(src, 0, 2), Unsigned(src, 2, n - 2), p, mark);
  }

  /** Reading a marked number as a signed one of 7n bits, and adding the marks to a number that fits, are inverse. */
  lemma SignExtendsTo(x: nat, v: int, n: nat)
    requires 1 <= n <= 9 && Pow2(7 * n) <= x < 2 * Pow2(7 * n)
    ensures SignExtend(x, Pow2(7 * n)) == v <==> Fits(v, n) && x == v + Pow2(7 * n) * Marker(v)
  {
    var m := Pow2(7 * n);
    assert m == 2 * Pow2(7 * n - 1);
    assert SignExtend(x, m) == SignExtend(x - m, m);
  }

  // ---- What the reader computes ----

  lemma Value1to4(t: IntType, src: seq<byte>, n: nat)
    requires 1 <= n <= 4 && Marked(src, n)
    ensures ConsumeForward(t, src) == Converted(t, SignExtend(Unsigned(src, 0, n), Pow2(7 * n)), n)
  {
    MarkedIs(src, n);
    Powers();
    Literals();
    if n == 1 {
      assert Unsigned(src, 0, 1) == src[0];
    } else if n == 3 {
      UnsignedSplit(src, 0, 1, 2);
      assert Unsigned(src, 0, 1) == src[0];
      UnsignedBound(src, 1, 2);
      Split3(src[0], Unsigned(src, 1, 2));
    }
  }

  lemma Split3(high: nat, low: nat)
    requires 0x20 <= high < 0x40 && low < 0x1_0000
    ensures SignExtend(0x1_0000 * high + low, 0x20_0000) == SignExtend(high, 0x20) * 0x1_0000 + low
  {
    assert SignExtend(high, 0x20) == SignExtend(high - 0x20, 0x20);
    assert SignExtend(0x1_0000 * high + low, 0x20_0000) == SignExtend(0x1_0000 * high + low - 0x20_0000, 0x20_0000);
  }

  lemma Split5(high: nat, low: nat)
    requires 0x08 <= high < 0x10 && low < 0x1_0000_0000
    ensures SignExtend(0x1_0000_0000 * high + low, 0x8_0000_0000) == SignExtend(high, 0x08) * 0x1_0000_0000 + low
  {
    assert SignExtend(high, 0x08) == SignExtend(high - 0x08, 0x08);
    var x := 0x1_0000_0000 * high + low;
    assert SignExtend(x, 0x8_0000_0000) == SignExtend(x - 0x8_0000_0000, 0x8_0000_0000);
  }

  lemma Split6(high: nat, low: nat)
    requires 0x400 <= high < 0x800 && low < 0x1_0000_0000
    ensures SignExtend(0x1_0000_0000 * high + low, 0x400_0000_0000) == SignExtend(high, 0x400) * 0x1_0000_0000 + low
  {
    assert SignExtend(high, 0x400) == SignExtend(high - 0x400, 0x400);
    var x := 0x1_0000_0000 * high + low;
    assert SignExtend(x, 0x400_0000_0000) == SignExtend(x - 0x400_0000_0000, 0x400_0000_0000);
  }

  lemma Split7(high: nat, low: nat)
    requires 0x02 <= high < 0x04 && low < 0x1_0000_0000_0000
    ensures SignExtend(0x1_0000_0000_0000 * high + low, 0x2_0000_0000_0000) ==
            SignExtend(high, 0x02) * 0x1_0000_0000_0000 + low
  {
    assert SignExtend(high, 0x02) == SignExtend(high - 0x02, 0x02);
    var x := 0x1_0000_0000_0000 * high + low;
    assert SignExtend(x, 0x2_0000_0000_0000) == SignExtend(x - 0x2_0000_0000_0000, 0x2_0000_0000_0000);
  }

  lemma Value5(t: IntType, src: seq<byte>, n: nat)
    requires n == 5 && Marked(src, n)
    ensures ConsumeForward(t, src) == Converted(t, SignExtend(Unsigned(src, 0, n), 0x8_0000_0000), n)
  {
    MarkedIs(src, n);
    Literals();
    UnsignedSplit(src, 0, 1, 4);
    UnsignedBound(src, 1, 4);
    assert Unsigned(src, 0, 1) == src[0];
    Split5(src[0], Unsigned(src, 1, 4));
  }

  lemma Value6(t: IntType, src: seq<byte>, n: nat)
    requires n == 6 && Marked(src, n)
    ensures ConsumeForward(t, src) == Converted(t, SignExtend(Unsigned(src, 0, n), 0x400_0000_0000), n)
  {
    MarkedIs(src, n);
    Literals();
    Powers();
    UnsignedSplit(src, 0, 2, 4);
    UnsignedBound(src, 2, 4);
    Split6(Unsigned(src, 0, 2), Unsigned(src, 2, 4));
  }

  lemma Value7(t: IntType, src: seq<byte>, n: nat)
    requires n == 7 && Marked(src, n)
    ensures ConsumeForward(t, src) == Converted(t, SignExtend(Unsigned(src, 0, n), 0x2_0000_0000_0000), n)
  {
    MarkedIs(src, n);
    var high, low := Reads7(src, n, 2, 4);
    Split7(src[0], high * 0x1_0000_0000 + low);
    Consume7(t, src);
  }

  lemma Consume7(t: IntType, src: seq<byte>)
    requires |src| >= 7 && LeadingZeros8(src[0]) == 6
    ensures ConsumeForward(t, src) ==
            Converted(t, SignExtend(src[0], 0x02) * 0x1_0000_0000_0000
                      + Unsigned(src, 1, 2) * 0x1_0000_0000 + Unsigned(src, 3, 4), 7)
  {
  }

  lemma Reads7(src: seq<byte>, n: nat, a: nat, b: nat) returns (high: nat, low: nat)
    requires n == 7 <= |src| && a == 2 && b == 4
    ensures high == Unsigned(src, 1, a) && low == Unsigned(src, 1 + a, b)
    ensures Unsigned(src, 0, n) == 0x1_0000_0000_0000 * src[0] + (high * 0x1_0000_0000 + low)
    ensures high * 0x1_0000_0000 + low < 0x1_0000_0000_0000
  {
    high, low := Unsigned(src, 1, a), Unsigned(src, 1 + a, b);
    ThreeParts(src, a, b);
    assert Unsigned(src, 0, 1) == src[0];
    Literals();
    Pow2Add(32, 16);
  }

  lemma ThreeParts(src: seq<byte>, a: nat, b: nat)
    requires 1 + a + b <= |src|
    ensures Unsigned(src, 0, 1 + a + b) ==
            Pow2(8 * (a + b)) * Unsigned(src, 0, 1) + (Pow2(8 * b) * Unsigned(src, 1, a) + Unsigned(src, 1 + a, b))
    ensures Pow2(8 * b) * Unsigned(src, 1, a) + Unsigned(src, 1 + a, b) < Pow2(8 * (a + b))
  {
    UnsignedSplit(src, 0, 1, a + b);
    UnsignedSplit(src, 1, a, b);
    UnsignedBound(src, 1, a + b);
  }

  lemma Value8(t: IntType, src: seq<byte>, n: nat)
    requires n == 8 && Marked(src, n)
    ensures ConsumeForward(t, src) == Converted(t, SignExtend(Unsigned(src, 0, n), 0x100_0000_0000_0000), n)
  {
    MarkedIs(src, n);
  }

  lemma Value9(t: IntType, src: seq<byte>, n: nat)
    requires n == 9 && Marked(src, n)
    ensures ConsumeForward(t, src) == Converted(t, SignExtend(Unsigned(src, 0, n), 0x8000_0000_0000_0000), n)
  {
    MarkedLong(src);
    ZeroInFront(src, n);
    assert ConsumeForward(t, src) == ConsumeForwardLong(t, src);
  }

  lemma ZeroInFront(src: seq<byte>, n: nat)
    requires 1 <= n <= |src| && src[0] == 0
    ensures Unsigned(src, 0, n) == Unsigned(src, 1, n - 1)
  {
    UnsignedSplit(src, 0, 1, n - 1);
    assert Unsigned(src, 0, 1) == 0;
  }

  lemma ValueOf(t: IntType, src: seq<byte>, n: nat)
    requires 1 <= n <= 9 && Marked(src, n)
    ensures ConsumeForward(t, src) == Converted(t, SignExtend(Unsigned(src, 0, n), Pow2(7 * n)), n)
  {
    if n <= 4 {
      Value1to4(t, src, n);
    } else if n <= 6 {
      Powers();
      if n == 5 {
        Value5(t, src, n);
      } else {
        Value6(t, src, n);
      }
    } else {
      Powers();
      if n == 7 {
        Value7(t, src, n);
      } else if n == 8 {
        Value8(t, src, n);
      } else {
        Value9(t, src, n);
      }
    }
  }

  lemma Value10(t: IntType, src: seq<byte>, v: int)
    requires t.Valid() && Marked(src, 10)
    ensures ConsumeForward(t, src) == Consumed(v, 10) <==>
              t.Holds(v) && Unsigned(src, 0, 10) == v + Pow2(70) * Marker(v)
    ensures ConsumeForward(t, src).Consumed? ==> ConsumeForward(t, src).length == 10
  {
    MarkedLong(src);
    Powers();
    WideLiterals();
    UnsignedSplit(src, 0, 2, 8);
    assert Unsigned(src, 0, 1) == 0 && Unsigned(src, 0, 2) == src[1];
    TopByte(src);
    Word10(t, src[1], src[2], Unsigned(src, 2, 8), v);
    assert ConsumeForward(t, src) == ConvertedWord(t, src[1], src[2], Unsigned(src, 2, 8), 10);
  }

  lemma Word10(t: IntType, marker: byte, top: byte, x: nat, v: int)
    requires t.Valid() && 0x40 <= marker < 0x80 && x < LIMIT64 && (top >= 0x80 <==> x >= 0x8000_0000_0000_0000)
    ensures ConvertedWord(t, marker, top, x, 10) == Consumed(v, 10) <==>
              t.Holds(v) && LIMIT64 * marker + x == v + 0x40_0000_0000_0000_0000 * Marker(v)
  {
    SignExtend64(x);
    if t.Holds(v) {
      HoldsLimit(t, v);
    }
  }

  lemma SignExtend64(x: nat)
    requires x < LIMIT64
    ensures SignExtend(x, LIMIT64) == if x >= 0x8000_0000_0000_0000 then x - LIMIT64 else x
  {
  }

  lemma TopByte(src: seq<byte>)
    requires |src| >= 10
    ensures src[2] >= 0x80 <==> Unsigned(src, 2, 8) >= 0x8000_0000_0000_0000
    ensures Unsigned(src, 2, 8) < LIMIT64
  {
    WideLiterals();
    UnsignedBound(src, 2, 8);
    UnsignedSplit(src, 2, 1, 7);
    UnsignedBound(src, 3, 7);
    assert Unsigned(src, 2, 1) == src[2];
  }

  lemma HoldsLimit(t: IntType, v: int)
    requires t.Valid() && t.Holds(v)
    ensures MIN64 <= v < LIMIT64 && (t.signed ==> v < 0x8000_0000_0000_0000) && (!t.signed ==> v >= 0)
  {
    WideLiterals();
    Pow2Monotone(t.bits, 64);
  }

  lemma ConsumedIsMarked(t: IntType, src: seq<byte>)
    requires ConsumeForward(t, src).Consumed?
    ensures 1 <= ConsumeForward(t, src).length <= 10 && Marked(src, ConsumeForward(t, src).length)
  {
    var zeros := LeadingZeros8(src[0]);
    if zeros <= 7 {
      MarkedIs(src, zeros + 1);
    } else {
      MarkedLong(src);
    }
  }

  /** What ConsumeForward accepts, for every input: the value is read and so many bytes are taken exactly when they are
      a form of the value, not only the shortest, and the type holds it. */
  lemma ConsumesExactly(t: IntType, src: seq<byte>, v: int, n: nat)
    requires t.Valid()
    ensures ConsumeForward(t, src) == Consumed(v, n) <==>
              1 <= n <= 10 && n <= |src| && t.Holds(v) && Fits(v, n) && src[..n] == Form(v, n)
  {
    if ConsumeForward(t, src) == Consumed(v, n) {
      ConsumedIsMarked(t, src);
      MarkedConsumes(t, src, v, n);
      BigEndianOf(src, n);
    }
    if 1 <= n <= 10 && n <= |src| && t.Holds(v) && Fits(v, n) && src[..n] == Form(v, n) {
      HoldsLimit(t, v);
      FormIsRead(v, n, src[n..]);
      assert Form(v, n) + src[n..] == src;
      MarkedConsumes(t, src, v, n);
    }
  }

  lemma MarkedConsumes(t: IntType, src: seq<byte>, v: int, n: nat)
    requires t.Valid() && 1 <= n <= 10 && Marked(src, n)
    ensures ConsumeForward(t, src) == Consumed(v, n) <==>
              t.Holds(v) && Fits(v, n) && Unsigned(src, 0, n) == v + Pow2(7 * n) * Marker(v)
  {
    if n == 10 {
      Value10(t, src, v);
    } else {
      ValueOf(t, src, n);
      SignExtendsTo(Unsigned(src, 0, n), v, n);
    }
  }

  lemma FormIsRead(v: int, n: nat, rest: seq<byte>)
    requires 1 <= n <= 10 && MIN64 <= v < LIMIT64 && Fits(v, n)
    ensures Marked(Form(v, n) + rest, n) && Unsigned(Form(v, n) + rest, 0, n) == v + Pow2(7 * n) * Marker(v)
  {
    FormRange(v, n);
    Pow2Add(7 * n, n);
    MulMonotone(Pow2(7 * n), 2, Pow2(n));
    ReadsWritten(v + Pow2(7 * n) * Marker(v), n, rest);
  }

  lemma FormRange(v: int, n: nat)
    requires 1 <= n <= 10 && MIN64 <= v < LIMIT64 && Fits(v, n)
    ensures Pow2(7 * n) <= v + Pow2(7 * n) * Marker(v) < 2 * Pow2(7 * n)
  {
    if n == 10 {
      Powers();
    } else {
      assert Pow2(7 * n) == 2 * Pow2(7 * n - 1);
    }
  }

  // The signed and unsigned branches of each length meet in one form: a negative
  // number modulo 2^k, for k past its size, is itself plus 2^k.

  lemma WrapNegative(v: int, m: nat)
    requires v < 0 <= v + m
    ensures v % m == v + m
  {
    DivModUnique(v, m, -1, v + m);
  }

  function HighNegative(v: int): (high: int)
    requires -0x200_0000_0000 <= v < 0
    ensures -0x200 <= high < 0 && (v >= -0x4_0000_0000 ==> -4 <= high)
  {
    v / 0x1_0000_0000
  }

  lemma Form1(v: int)
    requires -0x40 <= v < 0x40
    ensures AppendForward(v) == BigEndian(v + 0x80 * Marker(v), 1)
  {
    if v < 0 {
      WrapNegative(v, 256);
    }
  }

  lemma Form2(v: int)
    requires -0x2000 <= v < 0x2000 && !(-0x40 <= v < 0x40)
    ensures AppendForward(v) == BigEndian(v + 0x4000 * Marker(v), 2)
  {
    if v < 0 {
      WrapNegative(v, 0x8000);
    }
  }

  lemma Form3(v: int)
    requires -0x10_0000 <= v < 0x10_0000 && !(-0x2000 <= v < 0x2000)
    ensures AppendForward(v) == BigEndian(v + 0x20_0000 * Marker(v), 3)
  {
    Join3(v, v + 0x20_0000 * Marker(v), 1, 2);
    if v < 0 {
      WrapNegative(v / 0x1_0000, 0x40);
    }
  }

  lemma Form4(v: int)
    requires -0x800_0000 <= v < 0x800_0000 && !(-0x10_0000 <= v < 0x10_0000)
    ensures AppendForward(v) == BigEndian(v + 0x1000_0000 * Marker(v), 4)
  {
    if v < 0 {
      WrapNegative(v, 0x2000_0000);
    }
  }

  lemma Form5(v: int)
    requires -0x4_0000_0000 <= v < 0x4_0000_0000 && !(-0x800_0000 <= v < 0x800_0000)
    ensures AppendForward(v) == BigEndian(v + 0x8_0000_0000 * Marker(v), 5)
  {
    Join5(v, v + 0x8_0000_0000 * Marker(v), 1, 4);
    if v < 0 {
      WrapNegative(HighNegative(v), 0x10);
    }
  }

  lemma Form6(v: int)
    requires -0x200_0000_0000 <= v < 0x200_0000_0000 && !(-0x4_0000_0000 <= v < 0x4_0000_0000)
    ensures AppendForward(v) == BigEndian(v + 0x400_0000_0000 * Marker(v), 6)
  {
    Join6(v, v + 0x400_0000_0000 * Marker(v), 2, 4);
    if v < 0 {
      WrapNegative(HighNegative(v), 0x800);
    }
  }

  lemma Form7(v: int)
    requires -0x1_0000_0000_0000 <= v < 0x1_0000_0000_0000 && !(-0x200_0000_0000 <= v < 0x200_0000_0000)
    ensures AppendForward(v) == BigEndian(v + 0x2_0000_0000_0000 * Marker(v), 7)
  {
    Join7(v, v + 0x2_0000_0000_0000 * Marker(v), 2, 4);
  }

  lemma Form8(v: int)
    requires -0x80_0000_0000_0000 <= v < 0x80_0000_0000_0000 && !(-0x1_0000_0000_0000 <= v < 0x1_0000_0000_0000)
    ensures AppendForward(v) == BigEndian(v + 0x100_0000_0000_0000 * Marker(v), 8)
  {
    if v < 0 {
      WrapNegative(v, 0x200_0000_0000_0000);
    }
  }

  lemma Form9(v: int)
    requires -0x4000_0000_0000_0000 <= v < 0x4000_0000_0000_0000 && !(-0x80_0000_0000_0000 <= v < 0x80_0000_0000_0000)
    ensures AppendForward(v) == BigEndian(v + 0x8000_0000_0000_0000 * Marker(v), 9)
  {
    Join9(v + 0x8000_0000_0000_0000 * Marker(v), 8);
    if v < 0 {
      WideLiterals();
      SameBytes(v, v + LIMIT64, 8, 1);
    }
  }

  lemma Form10(v: int)
    requires MIN64 <= v < LIMIT64 && !(-0x4000_0000_0000_0000 <= v < 0x4000_0000_0000_0000)
    ensures AppendForward(v) == BigEndian(v + 0x40_0000_0000_0000_0000 * Marker(v), 10)
  {
    Join10(v, v + 0x40_0000_0000_0000_0000 * Marker(v), 2, 8);
  }

  /** The lower bytes of a number do not change when a multiple of their capacity is added. */
  lemma JoinBytes(v: int, x: int, a: nat, b: nat, p: nat, k: int)
    requires p == Pow2(8 * b) && x == v + p * k
    ensures BigEndian(x, a + b) == BigEndian(x / p, a) + BigEndian(v, b)
  {
    BigEndianSplit(x, a, b);
    SameBytes(v, x, b, k);
  }

  lemma OneByte(x: int, n: nat)
    requires 0 <= x < 256 && n == 1
    ensures BigEndian(x, n) == [x]
  {
    assert BigEndian(x / 256, 0) == [];
  }

  lemma Join3(v: int, x: int, n: nat, low: nat)
    requires -0x10_0000 <= v < 0x10_0000 && x == v + 0x20_0000 * Marker(v) && n == 1 && low == 2
    ensures BigEndian(x, n + low) == [v / 0x1_0000 + 0x20 * Marker(v)] + BigEndian(v, low)
  {
    Literals();
    JoinBytes(v, x, n, low, 0x1_0000, 0x20 * Marker(v));
    OneByte(x / 0x1_0000, n);
  }

  lemma Join5(v: int, x: int, n: nat, low: nat)
    requires -0x4_0000_0000 <= v < 0x4_0000_0000 && x == v + 0x8_0000_0000 * Marker(v) && n == 1 && low == 4
    ensures BigEndian(x, n + low) == [v / 0x1_0000_0000 + 0x08 * Marker(v)] + BigEndian(v, low)
  {
    Literals();
    JoinBytes(v, x, n, low, 0x1_0000_0000, 0x08 * Marker(v));
    OneByte(x / 0x1_0000_0000, n);
  }

  lemma Join6(v: int, x: int, n: nat, low: nat)
    requires -0x200_0000_0000 <= v < 0x200_0000_0000 && x == v + 0x400_0000_0000 * Marker(v) && n == 2 && low == 4
    ensures BigEndian(x, n + low) == BigEndian(v / 0x1_0000_0000 + 0x400 * Marker(v), n) + BigEndian(v, low)
  {
    Literals();
    JoinBytes(v, x, n, low, 0x1_0000_0000, 0x400 * Marker(v));
    assert x / 0x1_0000_0000 == v / 0x1_0000_0000 + 0x400 * Marker(v);
  }

  /** The upper three of seven bytes. */
  lemma Join7High(v: int, high: int, n: nat, low: nat)
    requires -0x1_0000 <= v < 0x1_0000 && high == v + 0x2_0000 * Marker(v) && n == 1 && low == 2
    ensures BigEndian(high, n + low) == [Marker(v) + 1] + BigEndian(v, low)
  {
    Literals();
    JoinBytes(v, high, n, low, 0x1_0000, 2 * Marker(v));
    TopOf7(v, high);
    OneByte(Marker(v) + 1, n);
  }

  lemma TopOf7(v: int, high: int)
    requires -0x1_0000 <= v < 0x1_0000 && high == v + 0x2_0000 * Marker(v)
    ensures high / 0x1_0000 == Marker(v) + 1
  {
  }

  lemma Join7(v: int, x: int, n: nat, low: nat)
    requires -0x1_0000_0000_0000 <= v < 0x1_0000_0000_0000 && x == v + 0x2_0000_0000_0000 * Marker(v)
    requires n == 2 && low == 4
    ensures BigEndian(x, 1 + n + low) == [Marker(v) + 1] + BigEndian(v / 0x1_0000_0000, n) + BigEndian(v, low)
  {
    Literals();
    JoinBytes(v, x, 1 + n, low, 0x1_0000_0000, 0x2_0000 * Marker(v));
    assert x / 0x1_0000_0000 == v / 0x1_0000_0000 + 0x2_0000 * Marker(v);
    Join7High(v / 0x1_0000_0000, x / 0x1_0000_0000, 1, n);
  }

  lemma Join9(x: int, low: nat)
    requires 0 <= x < LIMIT64 && low == 8
    ensures BigEndian(x, 1 + low) == [0x00] + BigEndian(x, low)
  {
    WideLiterals();
    JoinBytes(x, x, 1, low, LIMIT64, 0);
    OneByte(0, 1);
  }

  lemma Join10(v: int, x: int, n: nat, low: nat)
    requires MIN64 <= v < LIMIT64 && x == v + 0x40_0000_0000_0000_0000 * Marker(v)
    requires n == 2 && low == 8
    ensures BigEndian(x, n + low) == [0x00, if v < 0 then 0x7f else 0x40] + BigEndian(v, low)
  {
    WideLiterals();
    JoinBytes(v, x, n, low, LIMIT64, 0x40 * Marker(v));
    Marks(if v < 0 then 0x7f else 0x40);
    assert x / LIMIT64 == if v < 0 then 0x7f else 0x40;
  }

  lemma Marks(b: byte)
    ensures BigEndian(b, 2) == [0x00, b]
  {
    assert BigEndian(0, 1) == [0];
  }

  lemma Shortest1to5(v: int, n: nat)
    requires MIN64 <= v < LIMIT64 && n <= 5 && Fits(v, n) && !Fits(v, n - 1)
    ensures AppendForward(v) == Form(v, n)
  {
    Fits1to4(v);
    Fits5to9(v);
    Powers();
    if n == 1 {
      Form1(v);
    } else if n == 2 {
      Form2(v);
    } else if n == 3 {
      Form3(v);
    } else if n == 4 {
      Form4(v);
    } else {
      Form5(v);
    }
  }

  lemma Shortest6to7(v: int, n: nat)
    requires MIN64 <= v < LIMIT64 && 6 <= n <= 7 && Fits(v, n) && !Fits(v, n - 1)
    ensures AppendForward(v) == Form(v, n)
  {
    Fits5to9(v);
    Powers();
    if n == 6 {
      Form6(v);
    } else {
      Form7(v);
    }
  }

  lemma Shortest8to10(v: int, n: nat)
    requires MIN64 <= v < LIMIT64 && 8 <= n <= 10 && Fits(v, n) && !Fits(v, n - 1)
    ensures AppendForward(v) == Form(v, n)
  {
    Fits5to9(v);
    Powers();
    if n == 8 {
      Form8(v);
    } else if n == 9 {
      Form9(v);
    } else {
      Form10(v);
    }
  }

  /** AppendForward writes the shortest form. */
  lemma AppendsShortest(v: int)
    requires MIN64 <= v < LIMIT64
    ensures AppendForward(v) == Form(v, SizeBytes(v))
  {
    SizeBytesIsLeast(v);
    var n := SizeBytes(v);
    assert Fits(v, n) && !Fits(v, n - 1);
    if n <= 5 {
      Shortest1to5(v, n);
    } else if n <= 7 {
      Shortest6to7(v, n);
    } else {
      Shortest8to10(v, n);
    }
  }

  /** Whatever follows them, the bytes written for v are read back as v, in any type that holds v. */
  lemma ForwardRoundTrip(t: IntType, v: int, rest: seq<byte>)
    requires t.Valid() && t.Holds(v) && MIN64 <= v < LIMIT64
    ensures |AppendForward(v)| == SizeBytes(v)
    ensures ConsumeForward(t, AppendForward(v) + rest) == Consumed(v, SizeBytes(v))
  {
    AppendsShortest(v);
    SizeBytesIsLeast(v);
    var n := SizeBytes(v);
    FormIsRead(v, n, rest);
    ConsumesExactly(t, AppendForward(v) + rest, v, n);
  }

  // ---- Backward is forward, reversed ----

  lemma {:induction false} ReversedConcat<T>(a: seq<T>, b: seq<T>)
    ensures Reversed(a + b) == Reversed(b) + Reversed(a)
  {
    if a == [] {
      assert a + b == b;
    } else {
      assert (a + b)[1..] == a[1..] + b;
      ReversedConcat(a[1..], b);
    }
  }

  lemma {:induction false} ReversedAt<T>(s: seq<T>, k: nat)
    requires k < |s|
    ensures Reversed(s)[k] == s[|s| - 1 - k]
  {
    if k < |s| - 1 {
      ReversedAt(s[1..], k);
    }
  }

  lemma {:induction false} ReversedBigEndian(x: int, n: nat)
    ensures Reversed(BigEndian(x, n)) == LittleEndian(x, n)
    decreases n
  {
    if n > 0 {
      var last: seq<byte> := [x % 256];
      ReversedConcat(BigEndian(x / 256, n - 1), last);
      assert Reversed(last) == last;
      ReversedBigEndian(x / 256, n - 1);
    }
  }

  /** Reading n bytes `skip` from the end is reading them from the front of the reversal. */
  lemma {:induction false} ReversedReads(src: seq<byte>, skip: nat, n: nat)
    requires skip + n <= |src|
    ensures UnsignedBack(src, skip, n) == Unsigned(Reversed(src), skip, n)
    decreases n
  {
    if n > 0 {
      ReversedReads(src, skip, n - 1);
      ReversedAt(src, skip + n - 1);
    }
  }

  lemma ReadsAgree(src: seq<byte>, skip: nat, n: nat)
    ensures skip < |src| ==> Reversed(src)[skip] == src[|src| - 1 - skip]
    ensures skip + n <= |src| ==> UnsignedBack(src, skip, n) == Unsigned(Reversed(src), skip, n)
  {
    if skip < |src| {
      ReversedAt(src, skip);
    }
    if skip + n <= |src| {
      ReversedReads(src, skip, n);
    }
  }

  lemma LongDecodersAgree(t: IntType, src: seq<byte>, rev: seq<byte>)
    requires 9 <= |src| == |rev| && rev[1] == src[|src| - 2] && rev[2] == src[|src| - 3]
    requires UnsignedBack(src, 1, 8) == Unsigned(rev, 1, 8)
    requires |src| >= 10 ==> UnsignedBack(src, 2, 8) == Unsigned(rev, 2, 8)
    ensures ConsumeBackwardLong(t, src) == ConsumeForwardLong(t, rev)
  {
  }

  /** The number at an offset is the same for both readers. */
  ghost predicate Agree(src: seq<byte>, rev: seq<byte>, skip: nat, n: nat)
    requires |src| == |rev|
  {
    skip + n <= |src| ==> UnsignedBack(src, skip, n) == Unsigned(rev, skip, n)
  }

  lemma ShortDecodersAgree(t: IntType, src: seq<byte>, rev: seq<byte>)
    requires 0 < |src| == |rev| && rev[0] == src[|src| - 1] && LeadingZeros8(rev[0]) <= 4
    requires Agree(src, rev, 0, 2) && Agree(src, rev, 1, 2) && Agree(src, rev, 0, 4) && Agree(src, rev, 1, 4)
    ensures ConsumeBackward(t, src) == ConsumeForward(t, rev)
  {
  }

  lemma MediumDecodersAgree(t: IntType, src: seq<byte>, rev: seq<byte>)
    requires 0 < |src| == |rev| && rev[0] == src[|src| - 1] && 5 <= LeadingZeros8(rev[0]) <= 7
    requires Agree(src, rev, 0, 2) && Agree(src, rev, 2, 4) && Agree(src, rev, 1, 2) && Agree(src, rev, 3, 4)
             && Agree(src, rev, 0, 8)
    ensures ConsumeBackward(t, src) == ConsumeForward(t, rev)
  {
  }

  /** The backward decoder is the forward decoder on the reversed bytes, for every input. */
  lemma ConsumeBackwardIsForwardReversed(t: IntType, src: seq<byte>)
    ensures ConsumeBackward(t, src) == ConsumeForward(t, Reversed(src))
  {
    if |src| > 0 {
      var rev := Reversed(src);
      forall skip: nat, n: nat ensures Agree(src, rev, skip, n) {
        ReadsAgree(src, skip, n);
      }
      ReversedAt(src, 0);
      if LeadingZeros8(rev[0]) <= 4 {
        ShortDecodersAgree(t, src, rev);
      } else if LeadingZeros8(rev[0]) <= 7 {
        MediumDecodersAgree(t, src, rev);
      } else if |src| >= 9 {
        ReversedAt(src, 1);
        ReversedAt(src, 2);
        assert Agree(src, rev, 1, 8) && Agree(src, rev, 2, 8);
        LongDecodersAgree(t, src, rev);
      }
    }
  }

  lemma ReversedPieces()
    ensures forall x: int, n: nat :: Reversed(BigEndian(x, n)) == LittleEndian(x, n)
    ensures forall a: seq<byte>, b: seq<byte> :: Reversed(a + b) == Reversed(b) + Reversed(a)
  {
    forall x: int, n: nat ensures Reversed(BigEndian(x, n)) == LittleEndian(x, n) {
      ReversedBigEndian(x, n);
    }
    forall a: seq<byte>, b: seq<byte> ensures Reversed(a + b) == Reversed(b) + Reversed(a) {
      ReversedConcat(a, b);
    }
  }

  lemma BackwardNegativeIsReversed(v: int)
    requires MIN64 <= v < 0
    ensures BackwardNegative(v) == Reversed(ForwardNegative(v))
  {
    ReversedPieces();
  }

  lemma BackwardNonNegativeIsReversed(v: int)
    requires 0 <= v < LIMIT64
    ensures BackwardNonNegative(v) == Reversed(ForwardNonNegative(v))
  {
    ReversedPieces();
  }

  /** AppendBackward emits the bytes of AppendForward in reverse order. */
  lemma AppendBackwardIsReversed(v: int)
    requires MIN64 <= v < LIMIT64
    ensures AppendBackward(v) == Reversed(AppendForward(v))
  {
    if v < 0 {
      BackwardNegativeIsReversed(v);
    } else {
      BackwardNonNegativeIsReversed(v);
    }
  }

  /** Whatever precedes them, the bytes written backward for v are read back from the end as v. */
  lemma BackwardRoundTrip(t: IntType, v: int, before: seq<byte>)
    requires t.Valid() && t.Holds(v) && MIN64 <= v < LIMIT64
    ensures |AppendBackward(v)| == SizeBytes(v)
    ensures ConsumeBackward(t, before + AppendBackward(v)) == Consumed(v, SizeBytes(v))
  {
    AppendBackwardIsReversed(v);
    ConsumeBackwardIsForwardReversed(t, before + AppendBackward(v));
    ReversedConcat(before, AppendBackward(v));
    ReversedTwice(AppendForward(v));
    ForwardRoundTrip(t, v, Reversed(before));
  }

  lemma ReversedTwice<T>(s: seq<T>)
    ensures Reversed(Reversed(s)) == s
  {
    forall k | 0 <= k < |s| ensures Reversed(Reversed(s))[k] == s[k] {
      ReversedAt(Reversed(s), k);
      ReversedAt(s, |s| - 1 - k);
    }
  }

  /** A decoded value fits its type and its bytes lie within the input. */
  lemma ConsumedWithin(t: IntType, src: seq<byte>)
    ensures ConsumeForward(t, src).Consumed? ==>
              t.Holds(ConsumeForward(t, src).value) && 1 <= ConsumeForward(t, src).length <= |src|
  {
  }
}
