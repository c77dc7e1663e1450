/** Decompression undoes compression, on the functions of LzwFormat. */
module LzwRoundTrip {
  import opened Arithmetic
  import opened Varint
  import opened LzwFormat
  import opened LzwWords

  // ---- Codes fit their widths ----

  ghost predicate CodesFit(codes: seq<nat>) {
    forall i {:trigger codes[i]} :: 0 <= i < |codes| ==> codes[i] < Pow2(CodeLength(i))
  }

  lemma CodeLengthIs(k: nat)
    requires 255 + k < 0x1_0000_0000
    ensures CodeLength(k) == BitLen(255 + k) >= 8
    ensures 255 + k < Pow2(CodeLength(k))
  {
    BitLenBounds(255 + k);
    AtLeastEight(255 + k);
  }

  lemma AtLeastEight(x: nat)
    requires x >= 255
    ensures BitLen(x) >= 8
  {
    BitLenMonotone(255, x);
    BitLenUnique(255, 8);
  }

  lemma SpelledCodesFit(input: seq<byte>, codes: seq<nat>, offs: seq<nat>)
    requires Spells(input, codes, offs) && |codes| <= MAXIMUM_CODES
    ensures CodesFit(codes)
  {
    forall i | 0 <= i < |codes| ensures codes[i] < Pow2(CodeLength(i)) {
      assert PieceIs(input, codes, offs, i);
      CodeLengthIs(i);
    }
  }

  lemma {:induction false} StreamBound(codes: seq<nat>, i: nat)
    requires i <= |codes| && CodesFit(codes)
    ensures BitPosition(i) <= BitPosition(|codes|)
    ensures Stream(codes, i) < Pow2(BitPosition(|codes|) - BitPosition(i))
    decreases |codes| - i
  {
    if i < |codes| {
      StreamBound(codes, i + 1);
      JoinBound(codes[i], Stream(codes, i + 1), CodeLength(i), BitPosition(|codes|) - BitPosition(i + 1));
    }
  }

  // ---- Bytes hold the stream, and tell how many codes it has ----

  lemma {:induction false} LittleEndianValue(x: nat, n: nat)
    requires x < Pow2(8 * n)
    ensures FromLittleEndian(LittleEndian(x, n)) == x
    decreases n
  {
    if n > 0 {
      Pow256(8 * (n - 1));
      LittleEndianValue(x / 256, n - 1);
      assert LittleEndian(x, n)[1..] == LittleEndian(x / 256, n - 1);
    }
  }

  lemma {:induction false} PositionIsWidth(n: nat)
    requires 255 + n <= 0x1_0000_0000
    ensures BitPosition(n) == WidthOf(n)
  {
    if n > 0 {
      PositionIsWidth(n - 1);
      CodeLengthIs(n - 1);
    }
  }

  /** The byte length of packed codes gives their number back: fewer than eight bits are padding and every code is
      wider. */
  lemma PackedCount(codes: seq<nat>)
    requires |codes| <= MAXIMUM_CODES
    ensures IsCodeCount(8 * |PackedCodes(codes)|, |codes|)
    ensures 8 * |PackedCodes(codes)| - WidthOf(|codes|) < 8
  {
    PositionIsWidth(|codes|);
    CodeLengthIs(|codes|);
  }

  lemma {:induction false} WidthOfMonotone(m: nat, n: nat)
    requires m <= n
    ensures WidthOf(m) <= WidthOf(n)
    decreases n - m
  {
    if m < n {
      WidthOfMonotone(m, n - 1);
    }
  }

  lemma CodeCountUnique(bits: nat, m: nat, n: nat)
    requires IsCodeCount(bits, m) && IsCodeCount(bits, n)
    ensures m == n
  {
    if m < n {
      WidthOfMonotone(m + 1, n);
    } else if n < m {
      WidthOfMonotone(n + 1, m);
    }
  }

  lemma PackedValue(codes: seq<nat>)
    requires CodesFit(codes)
    ensures FromLittleEndian(PackedCodes(codes)) == Stream(codes, 0)
  {
    StreamBound(codes, 0);
    RoundedUp(Stream(codes, 0), BitPosition(|codes|));
  }

  lemma RoundedUp(x: nat, bits: nat)
    requires x < Pow2(bits)
    ensures FromLittleEndian(LittleEndian(x, (bits + 7) / 8)) == x
  {
    var m := (bits + 7) / 8;
    Pow2Monotone(bits, 8 * m);
    LittleEndianValue(x, m);
  }

  // ---- The stream expands to the text ----

  lemma OffsetsIncrease(input: seq<byte>, codes: seq<nat>, offs: seq<nat>, i: nat)
    requires Spells(input, codes, offs) && i <= |codes|
    ensures Increasing(offs[..i], offs[i]) && offs[i] <= |input|
  {
    forall k {:trigger offs[k]} | 0 <= k < i ensures offs[k] < offs[k + 1] <= |input| {
      assert PieceIs(input, codes, offs, k);
    }
    assert i > 0 ==> offs[i - 1] < offs[i];
  }

  /** One code extends the decoded text by exactly its piece, also when it refers to the piece it starts. */
  lemma ExtendedIsPiece(input: seq<byte>, codes: seq<nat>, offs: seq<nat>, i: nat)
    requires Spells(input, codes, offs) && i < |codes|
    ensures Increasing(offs[..i], offs[i]) && offs[i] < offs[i + 1] <= |input|
    ensures codes[i] > 255 ==> codes[i] - 255 <= i
    ensures Extended(codes[i], offs[..i], input[..offs[i]]) == input[..offs[i + 1]]
  {
    OffsetsIncrease(input, codes, offs, i);
    assert PieceIs(input, codes, offs, i);
    var out, c := input[..offs[i]], codes[i];
    assert input[..offs[i + 1]] == out + input[offs[i]..offs[i + 1]];
    if c > 255 {
      var starts := offs[..i] + [|out|];
      assert starts == offs[..i + 1];
      var first, last := offs[c - 256], offs[c - 255];
      OffsetsOrdered(offs[..i], |out|, c - 256);
      CopiedPiece(input, first, last, offs[i], offs[i + 1]);
    }
  }

  lemma CopiedPiece(input: seq<byte>, first: nat, last: nat, from: nat, to: nat)
    requires first < last <= from < to <= |input|
    requires input[from..to] == input[first..last + 1]
    ensures var copied := input[..from] + input[..from][first..last];
            copied + [copied[last]] == input[..to]
  {
    var copied := input[..from] + input[..from][first..last];
    assert to - from == last + 1 - first;
    assert input[..from][first..last] == input[first..last];
    forall j {:trigger input[j]} | from <= j < to ensures input[j] == input[first + (j - from)] {
      assert input[from..to][j - from] == input[first..last + 1][j - from];
    }
    assert copied == input[..to - 1];
    assert copied[last] == input[last];
  }

  /** One step of the expansion takes one code off the stream and its piece off the text. */
  lemma ExpandStep(stream: nat, code: nat, rest: nat, i: nat, n: nat, offsets: seq<nat>, out: seq<byte>, size: nat)
    requires i < n && Increasing(offsets, |out|)
    requires stream == code + ShiftLeft(rest, CodeLength(i)) && code < Pow2(CodeLength(i))
    requires code > 255 ==> code - 255 <= |offsets|
    requires |Extended(code, offsets, out)| <= size
    ensures Increasing(offsets + [|out|], |Extended(code, offsets, out)|)
    ensures Expanded(stream, i, n, offsets, out, size) ==
            Expanded(rest, i + 1, n, offsets + [|out|], Extended(code, offsets, out), size)
  {
    var w := CodeLength(i);
    JoinBits(code, rest, w);
    assert LowBits(stream, w) == code && ShiftRight(stream, w) == rest;
    ExpandOne(stream, i, n, offsets, out, size, w);
  }

  lemma ExpandOne(stream: nat, i: nat, n: nat, offsets: seq<nat>, out: seq<byte>, size: nat, w: nat)
    requires i < n && Increasing(offsets, |out|) && w == CodeLength(i)
    requires LowBits(stream, w) > 255 ==> LowBits(stream, w) - 255 <= |offsets|
    requires |Extended(LowBits(stream, w), offsets, out)| <= size
    ensures Increasing(offsets + [|out|], |Extended(LowBits(stream, w), offsets, out)|)
    ensures Expanded(stream, i, n, offsets, out, size) ==
            Expanded(ShiftRight(stream, w), i + 1, n, offsets + [|out|], Extended(LowBits(stream, w), offsets, out),
              size)
  {
  }

  lemma {:induction false} StreamExpands(input: seq<byte>, codes: seq<nat>, offs: seq<nat>, i: nat)
    requires Spells(input, codes, offs) && CodesFit(codes) && i <= |codes|
    ensures Increasing(offs[..i], offs[i]) && offs[i] <= |input|
    ensures Expanded(Stream(codes, i), i, |codes|, offs[..i], input[..offs[i]], |input|) == Ok(input)
    decreases |codes| - i
  {
    OffsetsIncrease(input, codes, offs, i);
    if i == |codes| {
      assert input[..offs[i]] == input;
    } else {
      ExtendedIsPiece(input, codes, offs, i);
      assert offs[..i] + [offs[i]] == offs[..i + 1];
      ExpandStep(Stream(codes, i), codes[i], Stream(codes, i + 1), i, |codes|, offs[..i], input[..offs[i]], |input|);
      StreamExpands(input, codes, offs, i + 1);
    }
  }

  lemma Width28(k: nat)
    requires 255 + k < 0x1000_0000
    ensures CodeLength(k) <= 28
  {
    assert Pow2(14) == 0x4000;
    Pow2Add(14, 14);
    BelowPower(255 + k, 28);
  }

  lemma {:induction false} PositionBound(n: nat)
    requires n <= MAXIMUM_CODES
    ensures BitPosition(n) <= 28 * n
  {
    if n > 0 {
      PositionBound(n - 1);
      Width28(n - 1);
    }
  }

  /** Compressed data stays below 4 GiB, whatever the text. */
  lemma CompressedIsShort(input: seq<byte>)
    requires |input| < 0x1_0000_0000
    ensures Compressed(input).Ok? ==> |Compressed(input).value| < 0x1_0000_0000
    ensures MaybeCompressed(input).Ok? ==> |MaybeCompressed(input).value| < 0x1_0000_0000
  {
    if input != [] && Compressed(input).Ok? {
      PositionBound(|Codes(input)|);
      Literals();
      ForwardRoundTrip(SIZE_TYPE, |input|, []);
      SizeBytesIsLeast(|input|);
    }
  }
}
