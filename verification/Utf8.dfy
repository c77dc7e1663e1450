/** UTF-8, as Go's package unicode/utf8 writes and reads it. */
module Utf8 {
  import opened Arithmetic

  const RUNE_ERROR: nat := 0xFFFD
  const MAX_RUNE: nat := 0x10_FFFF

  predicate ValidRune(r: nat) {
    r < 0xD800 || 0xDFFF < r <= MAX_RUNE
  }

  /** AppendRune. Anything that is not a rune is written as RUNE_ERROR. */
  function EncodeRune(r: nat): (b: seq<byte>)
    ensures 1 <= |b| <= 4
  {
    if r < 0x80 then [r]
    else if r < 0x800 then [0xC0 + r / 0x40, 0x80 + r % 0x40]
    else if !ValidRune(r) then [0xEF, 0xBF, 0xBD]
    else if r < 0x1_0000 then [0xE0 + r / 0x1000, 0x80 + r / 0x40 % 0x40, 0x80 + r % 0x40]
    else [0xF0 + r / 0x4_0000, 0x80 + r / 0x1000 % 0x40, 0x80 + r / 0x40 % 0x40, 0x80 + r % 0x40]
  }

  datatype Decoded = Decoded(rune: nat, length: nat)

  predicate Continuation(b: byte) {
    0x80 <= b < 0xC0
  }

  /** The second byte of a longer form that is neither overlong nor out of range. */
  predicate SecondOk(first: byte, second: byte) {
    && Continuation(second)
    && (first == 0xE0 ==> second >= 0xA0) && (first == 0xED ==> second < 0xA0)
    && (first == 0xF0 ==> second >= 0x90) && (first == 0xF4 ==> second < 0x90)
  }

  /** Six more bits. */
  function Append(high: nat, b: byte): (x: nat)
    requires Continuation(b)
  {
    high * 0x40 + (b - 0x80)
  }

  /** DecodeRune. Bytes that are not the form of a rune give RUNE_ERROR and a length of one, or zero when there are
      none. */
  function DecodeRune(b: seq<byte>): (d: Decoded)
    ensures d.length <= |b|
  {
    if b == [] then Decoded(RUNE_ERROR, 0)
    else if b[0] < 0x80 then Decoded(b[0], 1)
    else if 0xC2 <= b[0] < 0xE0 && |b| >= 2 && Continuation(b[1]) then
      Decoded(Append(b[0] - 0xC0, b[1]), 2)
    else if 0xE0 <= b[0] < 0xF0 && |b| >= 3 && SecondOk(b[0], b[1]) && Continuation(b[2]) then
      Decoded(Append(Append(b[0] - 0xE0, b[1]), b[2]), 3)
    else if 0xF0 <= b[0] < 0xF5 && |b| >= 4 && SecondOk(b[0], b[1]) && Continuation(b[2]) && Continuation(b[3]) then
      Decoded(Append(Append(Append(b[0] - 0xF0, b[1]), b[2]), b[3]), 4)
    else Decoded(RUNE_ERROR, 1)
  }

  lemma Split(r: nat)
    ensures Append(r / 0x40, 0x80 + r % 0x40) == r
  {
  }

  lemma Join(high: nat, b: byte)
    requires Continuation(b)
    ensures Append(high, b) / 0x40 == high && 0x80 + Append(high, b) % 0x40 == b
  {
  }

  lemma Shifts(r: nat)
    ensures r / 0x40 / 0x40 == r / 0x1000 && r / 0x1000 / 0x40 == r / 0x4_0000
  {
  }

  /** Whatever follows it, a rune is read back as written. */
  lemma DecodeEncode(r: nat, rest: seq<byte>)
    requires ValidRune(r)
    ensures DecodeRune(EncodeRune(r) + rest) == Decoded(r, |EncodeRune(r)|)
  {
    Split(r);
    Split(r / 0x40);
    Split(r / 0x1000);
    Shifts(r);
    var b := EncodeRune(r) + rest;
    assert forall k :: 0 <= k < |EncodeRune(r)| ==> b[k] == EncodeRune(r)[k];
  }

  lemma Encoded2(a: byte, b: byte)
    requires 0xC2 <= a < 0xE0 && Continuation(b)
    ensures var r := Append(a - 0xC0, b); ValidRune(r) && EncodeRune(r) == [a, b]
  {
    Join(a - 0xC0, b);
  }

  lemma Encoded3(a: byte, b: byte, c: byte)
    requires 0xE0 <= a < 0xF0 && SecondOk(a, b) && Continuation(c)
    ensures var r := Append(Append(a - 0xE0, b), c); ValidRune(r) && EncodeRune(r) == [a, b, c]
  {
    var high := Append(a - 0xE0, b);
    Join(a - 0xE0, b);
    Join(high, c);
    Shifts(Append(high, c));
  }

  lemma Encoded4(a: byte, b: byte, c: byte, d: byte)
    requires 0xF0 <= a < 0xF5 && SecondOk(a, b) && Continuation(c) && Continuation(d)
    ensures var r := Append(Append(Append(a - 0xF0, b), c), d); ValidRune(r) && EncodeRune(r) == [a, b, c, d]
  {
    var high := Append(a - 0xF0, b);
    var higher := Append(high, c);
    Join(a - 0xF0, b);
    Join(high, c);
    Join(higher, d);
    Shifts(Append(higher, d));
  }

  /** What is read as a rune is the one form of that rune. */
  lemma DecodedIsEncoded(b: seq<byte>)
    ensures var d := DecodeRune(b);
            ValidRune(d.rune) && (d.rune != RUNE_ERROR ==> 0 < d.length && b[..d.length] == EncodeRune(d.rune))
  {
    if |b| >= 2 && 0xC2 <= b[0] < 0xE0 && Continuation(b[1]) {
      Encoded2(b[0], b[1]);
      assert b[..2] == [b[0], b[1]];
    } else if |b| >= 3 && 0xE0 <= b[0] < 0xF0 && SecondOk(b[0], b[1]) && Continuation(b[2]) {
      Encoded3(b[0], b[1], b[2]);
      assert b[..3] == [b[0], b[1], b[2]];
    } else if |b| >= 4 && 0xF0 <= b[0] < 0xF5 && SecondOk(b[0], b[1]) && Continuation(b[2]) && Continuation(b[3]) {
      Encoded4(b[0], b[1], b[2], b[3]);
      assert b[..4] == [b[0], b[1], b[2], b[3]];
    } else if |b| >= 1 {
      assert b[..1] == [b[0]];
    }
  }
}
