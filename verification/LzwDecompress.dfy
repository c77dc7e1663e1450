/** Decompress: the code count is recovered from the byte length, codes are read
    through a 64-bit buffer and pieces are copied within the output. */
module LzwDecompress {
  import opened Arithmetic
  import opened Varint
  import opened LzwFormat
  import opened LzwRoundTrip

  // ---- The number of codes ----

  lemma OneMore(w: nat, m: nat)
    ensures w * (m + 1) == w * m + w
  {
  }

  /** m codes of the same width. */
  lemma {:induction false} WidthRun(n: nat, m: nat, w: nat)
    requires w >= 1 && Pow2(w - 1) <= 255 + n && 255 + n + m <= Pow2(w)
    ensures WidthOf(n + m) == WidthOf(n) + w * m
  {
    if m > 0 {
      WidthRun(n, m - 1, w);
      BitLenUnique(255 + (n + m - 1), w);
      OneMore(w, m - 1);
    }
  }

  lemma MulOrder(w: nat, a: nat, b: nat)
    requires a <= b
    ensures w * a <= w * b
  {
  }

  lemma Quotient(x: nat, w: nat, limit: nat)
    requires w > 0 && x < w * limit
    ensures x / w < limit && w * (x / w) <= x < w * (x / w) + w
  {
    var q, r := x / w, x % w;
    assert x == w * q + r;
    if q >= limit {
      MulOrder(w, limit, q);
    }
  }

  /** The run of codes up to the next power of two fits. */
  lemma FullRun(bits: nat, n: nat, remaining: nat, w: nat, m: nat, run: nat)
    requires w >= 1 && Pow2(w - 1) <= 255 + n < Pow2(w) && m == Pow2(w) - (255 + n) && run == w * m
    requires WidthOf(n) + remaining == bits && run <= remaining
    ensures WidthOf(Pow2(w) - 255) + (remaining - run) == bits && run >= 1
  {
    WidthRun(n, m, w);
    MulOrder(w, 1, m);
  }

  /** The last, incomplete run of codes decides the count. */
  lemma LastRun(bits: nat, n: nat, remaining: nat, w: nat, m: nat, q: nat)
    requires w >= 1 && Pow2(w - 1) <= 255 + n < Pow2(w) && m == Pow2(w) - (255 + n)
    requires WidthOf(n) + remaining == bits && remaining < w * m && q == remaining / w
    ensures w * q <= remaining && WidthOf(n + q) == bits - (remaining - w * q)
    ensures IsCodeCount(bits, n + q)
  {
    Quotient(remaining, w, m);
    WidthRun(n, q, w);
    WidthRun(n, q + 1, w);
    OneMore(w, q);
  }

  ghost predicate Counting(bits: nat, highestCode: nat, remainingBits: nat) {
    highestCode >= 255 && WidthOf(highestCode - 255) + remainingBits == bits
  }

  /** The width of the next codes, and how many have it up to the next power of two. */
  method NextRun(highestCode: nat) returns (bitsPerCode: nat, codesUntilNextPow2: nat)
    requires highestCode >= 255
    ensures bitsPerCode >= 1 && Pow2(bitsPerCode - 1) <= highestCode < Pow2(bitsPerCode)
    ensures codesUntilNextPow2 == Pow2(bitsPerCode) - highestCode
  {
    BitLenBounds(highestCode);
    bitsPerCode := BitLen(highestCode);
    codesUntilNextPow2 := Pow2(bitsPerCode) - highestCode;
  }

  method EndRun(ghost bits: nat, highestCode: nat, remainingBits: nat, bitsPerCode: nat, ghost codesUntilNextPow2: nat)
    returns (highestCode': nat, remainingBits': nat)
    requires Counting(bits, highestCode, remainingBits)
    requires bitsPerCode >= 1 && Pow2(bitsPerCode - 1) <= highestCode < Pow2(bitsPerCode)
    requires codesUntilNextPow2 == Pow2(bitsPerCode) - highestCode && remainingBits < bitsPerCode * codesUntilNextPow2
    ensures Counting(bits, highestCode', remainingBits') && IsCodeCount(bits, highestCode' - 255)
  {
    var codesUntilEnd := remainingBits / bitsPerCode;
    LastRun(bits, highestCode - 255, remainingBits, bitsPerCode, codesUntilNextPow2, codesUntilEnd);
    remainingBits' := remainingBits - bitsPerCode * codesUntilEnd;
    highestCode' := highestCode + codesUntilEnd;
  }

  /** How many codes fit in the given number of bits, a power of two of codes at a time. */
  method CountCodes(bits: nat) returns (highestCode: nat, remainingBits: nat)
    ensures highestCode >= 255 && IsCodeCount(bits, highestCode - 255)
    ensures remainingBits == bits - WidthOf(highestCode - 255)
  {
    remainingBits, highestCode := bits, 255;
    while true
      invariant Counting(bits, highestCode, remainingBits)
      decreases remainingBits
    {
      var bitsPerCode, codesUntilNextPow2 := NextRun(highestCode);
      var bitsUntilNextPow2 := bitsPerCode * codesUntilNextPow2;
      if remainingBits < bitsUntilNextPow2 {
        highestCode, remainingBits := EndRun(bits, highestCode, remainingBits, bitsPerCode, codesUntilNextPow2);
        return;
      }
      FullRun(bits, highestCode - 255, remainingBits, bitsPerCode, codesUntilNextPow2, bitsUntilNextPow2);
      remainingBits := remainingBits - bitsUntilNextPow2;
      highestCode := Pow2(bitsPerCode);
    }
  }

  // ---- Reading codes ----

  /** Pending bits followed by the unread bytes are the rest of the stream. */
  ghost predicate Feeds(pending: nat, bits: nat, unread: seq<byte>, stream: nat) {
    pending < Pow2(bits) && stream == pending + ShiftLeft(FromLittleEndian(unread), bits)
  }

  lemma {:induction false} LittleEndianSplit(b: seq<byte>, n: nat)
    requires n <= |b|
    ensures FromLittleEndian(b) == FromLittleEndian(b[..n]) + ShiftLeft(FromLittleEndian(b[n..]), 8 * n)
    ensures FromLittleEndian(b[..n]) < Pow2(8 * n)
  {
    if n == 0 {
      assert b[0..] == b;
    } else {
      LittleEndianSplit(b[1..], n - 1);
      assert b[..n][1..] == b[1..][..n - 1] && b[n..] == b[1..][n - 1..];
      ShiftLeftTwice(FromLittleEndian(b[n..]), 8 * (n - 1), 8);
      ShiftLeftIs(ShiftLeft(FromLittleEndian(b[n..]), 8 * (n - 1)), 8);
      assert Pow2(8) == 256;
      Pow256(8 * (n - 1));
    }
  }

  /** Taking n bytes into the buffer keeps the stream. */
  lemma Refill(pending: nat, bits: nat, unread: seq<byte>, stream: nat, n: nat)
    requires Feeds(pending, bits, unread, stream) && n <= |unread|
    ensures Feeds(pending + ShiftLeft(FromLittleEndian(unread[..n]), bits), bits + 8 * n, unread[n..], stream)
  {
    LittleEndianSplit(unread, n);
    RefillBits(pending, bits, FromLittleEndian(unread[..n]), FromLittleEndian(unread[n..]), 8 * n);
  }

  lemma RefillBits(pending: nat, bits: nat, x: nat, y: nat, w: nat)
    requires pending < Pow2(bits) && x < Pow2(w)
    ensures pending + ShiftLeft(x + ShiftLeft(y, w), bits) == pending + ShiftLeft(x, bits) + ShiftLeft(y, bits + w)
    ensures pending + ShiftLeft(x, bits) < Pow2(bits + w)
  {
    ShiftLeftAdd(x, ShiftLeft(y, w), bits);
    ShiftLeftTwice(y, w, bits);
    JoinBound(pending, x, bits, w);
  }

  lemma TakeBits(pending: nat, bits: nat, y: nat, w: nat)
    requires w <= bits
    ensures LowBits(pending + ShiftLeft(y, bits), w) == LowBits(pending, w)
    ensures ShiftRight(pending + ShiftLeft(y, bits), w) == ShiftRight(pending, w) + ShiftLeft(y, bits - w)
  {
    SplitBits(pending, w);
    ShiftLeftTwice(y, bits - w, w);
    ShiftLeftAdd(ShiftRight(pending, w), ShiftLeft(y, bits - w), w);
    JoinBits(LowBits(pending, w), ShiftRight(pending, w) + ShiftLeft(y, bits - w), w);
  }

  /** With enough bits pending, the next code is in the buffer. */
  lemma TakeCode(pending: nat, bits: nat, unread: seq<byte>, stream: nat, w: nat)
    requires Feeds(pending, bits, unread, stream) && w <= bits
    ensures LowBits(pending, w) == LowBits(stream, w)
    ensures Feeds(ShiftRight(pending, w), bits - w, unread, ShiftRight(stream, w))
  {
    TakeBits(pending, bits, FromLittleEndian(unread), w);
    ShiftRightBound(pending, w, bits - w);
  }

  lemma {:induction false} CodeLengthBound(k: nat)
    ensures CodeLength(k) <= 32
  {
    if k >= 0x1_0000_0000 {
      CodeLengthBound(k - 0x1_0000_0000);
    } else {
      var x := if 255 + k < 0x1_0000_0000 then 255 + k else 255 + k - 0x1_0000_0000;
      Literals();
      BelowPower(x, 32);
    }
  }

  lemma {:induction false} PositionAtMostWidth(n: nat)
    ensures BitPosition(n) <= WidthOf(n)
  {
    if n > 0 {
      PositionAtMostWidth(n - 1);
      CodeLengthAtMost(n - 1);
    }
  }

  lemma {:induction false} CodeLengthAtMost(k: nat)
    ensures CodeLength(k) <= BitLen(255 + k)
  {
    if k >= 0x1_0000_0000 {
      CodeLengthAtMost(k - 0x1_0000_0000);
      BitLenMonotone(255 + (k - 0x1_0000_0000), 255 + k);
    } else if 255 + k >= 0x1_0000_0000 {
      BitLenMonotone(255 + k - 0x1_0000_0000, 255 + k);
    }
  }

  lemma {:induction false} PositionMonotone(m: nat, n: nat)
    requires m <= n
    ensures BitPosition(m) <= BitPosition(n)
    decreases n - m
  {
    if m < n {
      PositionMonotone(m, n - 1);
    }
  }

  /** The bytes that still count as unread: the last few are taken into the buffer without being dropped from the slice.
      */
  ghost function Unread(compressed: seq<byte>, drained: bool): seq<byte> {
    if drained then [] else compressed
  }

  /** The state of the reader before a code of `length` bits or more: the bits at hand and to come are enough for it. */
  ghost predicate Reading(pendingInput: nat, pendingBits: nat, compressed: seq<byte>, drained: bool, stream: nat) {
    && Feeds(pendingInput, pendingBits, Unread(compressed, drained), stream)
    && pendingBits < 64
  }

  /** The trailing bytes, one at a time. */
  method Drain(pendingInput: nat, pendingBits: nat, compressed: seq<byte>, ghost stream: nat)
    returns (pendingInput': nat, pendingBits': nat)
    requires Feeds(pendingInput, pendingBits, compressed, stream)
    ensures Feeds(pendingInput', pendingBits', [], stream) && pendingBits' == pendingBits + 8 * |compressed|
  {
    pendingInput', pendingBits' := pendingInput, pendingBits;
    assert compressed[0..] == compressed;
    for k := 0 to |compressed|
      invariant pendingBits' == pendingBits + 8 * k && Feeds(pendingInput', pendingBits', compressed[k..], stream)
    {
      Refill(pendingInput', pendingBits', compressed[k..], stream, 1);
      OneByte(compressed[k..]);
      assert compressed[k..][1..] == compressed[k + 1..];
      pendingInput', pendingBits' := pendingInput' + ShiftLeft(compressed[k], pendingBits'), pendingBits' + 8;
    }
    assert compressed[|compressed|..] == [];
  }

  lemma OneByte(b: seq<byte>)
    requires b != []
    ensures FromLittleEndian(b[..1]) == b[0]
  {
    assert b[..1][1..] == [];
  }

  /** Consumes the next code from the input, refilling the buffer by a word, or by all that is left. */
  method ReadCode(pendingInput: nat, pendingBits: nat, compressed: seq<byte>, codeLength: nat, ghost drained: bool,
      ghost stream: nat)
    returns (code: nat, pendingInput': nat, pendingBits': nat, compressed': seq<byte>, ghost drained': bool)
    requires Reading(pendingInput, pendingBits, compressed, drained, stream) && codeLength <= 32
    requires pendingBits + 8 * |Unread(compressed, drained)| >= codeLength
    ensures code == LowBits(stream, codeLength)
    ensures Reading(pendingInput', pendingBits', compressed', drained', ShiftRight(stream, codeLength))
    ensures pendingBits' + 8 * |Unread(compressed', drained')| == pendingBits
            + 8 * |Unread(compressed, drained)| - codeLength
  {
    pendingInput', pendingBits', compressed', drained' := pendingInput, pendingBits, compressed, drained;
    if pendingBits < codeLength {
      if |compressed| >= 4 {
        Refill(pendingInput, pendingBits, compressed, stream, 4);
        pendingInput' := pendingInput + ShiftLeft(FromLittleEndian(compressed[..4]), pendingBits);
        pendingBits' := pendingBits + 32;
        compressed' := compressed[4..];
      } else {
        pendingInput', pendingBits' := Drain(pendingInput, pendingBits, compressed, stream);
        drained' := true;
      }
    }
    TakeCode(pendingInput', pendingBits', Unread(compressed', drained'), stream, codeLength);
    code := LowBits(pendingInput', codeLength);
    pendingInput' := ShiftRight(pendingInput', codeLength);
    pendingBits' := pendingBits' - codeLength;
  }

  // ---- Expanding codes ----

  /** Appends the piece of one code, copying earlier output. */
  method AppendPiece(code: nat, offsets: seq<nat>, decompressed: seq<byte>) returns (extended: seq<byte>, ok: bool)
    requires Increasing(offsets, |decompressed|)
    ensures ok <==> code <= 255 || code - 255 <= |offsets|
    ensures ok ==> extended == Extended(code, offsets, decompressed)
  {
    extended, ok := decompressed, true;
    var starts := offsets + [|decompressed|];
    if code <= 255 {
      extended := extended + [code];
    } else if code - 255 < |starts| {
      OffsetsOrdered(offsets, |decompressed|, code - 256);
      var firstOffset, lastOffset := starts[code - 256], starts[code - 255];
      extended := extended + extended[firstOffset..lastOffset];
      extended := extended + [extended[lastOffset]];
    } else {
      ok := false;
    }
  }

  method ExpandEnd(pendingInput: nat, ghost n: nat, ghost offsets: seq<nat>, decompressed: seq<byte>, size: nat)
      returns (r: Result)
    requires Increasing(offsets, |decompressed|)
    ensures r == Expanded(pendingInput, n, n, offsets, decompressed, size)
  {
    if pendingInput != 0 {
      return Err(TrailingBits);
    }
    if |decompressed| != size {
      return Err(SizeMismatch);
    }
    return Ok(decompressed);
  }

  lemma ExpandFails(stream: nat, i: nat, n: nat, offsets: seq<nat>, out: seq<byte>, size: nat, w: nat)
    requires i < n && Increasing(offsets, |out|) && w == CodeLength(i)
    ensures LowBits(stream, w) > 255 && LowBits(stream, w) - 255 > |offsets| ==>
              Expanded(stream, i, n, offsets, out, size) == Err(UnexpectedCode)
    ensures (LowBits(stream, w) <= 255 || LowBits(stream, w) - 255 <= |offsets|) &&
            |Extended(LowBits(stream, w), offsets, out)| > size ==>
              Expanded(stream, i, n, offsets, out, size) == Err(OutputTooLong)
  {
  }

  /** One round of the expansion loop: a code is read, checked and its piece appended. */
  method ExpandNext(k: nat, ghost n: nat, size: nat, pendingInput: nat, pendingBits: nat, compressed: seq<byte>,
                    offsets: seq<nat>, decompressed: seq<byte>, ghost drained: bool, ghost stream: nat)
    returns (pendingInput': nat, pendingBits': nat, compressed': seq<byte>, extended: seq<byte>, r: Result,
      ghost drained': bool)
    requires k < n && Increasing(offsets, |decompressed|)
    requires Reading(pendingInput, pendingBits, compressed, drained, stream)
    requires pendingBits + 8 * |Unread(compressed, drained)| >= CodeLength(k)
    ensures r.Err? ==> Expanded(stream, k, n, offsets, decompressed, size) == r
    ensures r.Ok? ==>
              && Reading(pendingInput', pendingBits', compressed', drained', ShiftRight(stream, CodeLength(k)))
              && pendingBits' + 8 * |Unread(compressed', drained')| == pendingBits
                 + 8 * |Unread(compressed, drained)| - CodeLength(k)
              && Increasing(offsets + [|decompressed|], |extended|)
              && Expanded(stream, k, n, offsets, decompressed, size) ==
                 Expanded(ShiftRight(stream, CodeLength(k)), k + 1, n, offsets + [|decompressed|], extended, size)
  {
    var codeLength := CodeLength(k);
    CodeLengthBound(k);
    ExpandFails(stream, k, n, offsets, decompressed, size, codeLength);
    var currentCode, ok;
    currentCode, pendingInput', pendingBits', compressed', drained' :=
      ReadCode(pendingInput, pendingBits, compressed, codeLength, drained, stream);
    extended, ok := AppendPiece(currentCode, offsets, decompressed);
    if !ok {
      r := Err(UnexpectedCode);
    } else if |extended| > size {
      r := Err(OutputTooLong);
    } else {
      ExpandOne(stream, k, n, offsets, decompressed, size, codeLength);
      r := Ok([]);
    }
  }

  /** The state of the loop in front of the k-th code: the rest of the stream expands to what all of it does. */
  ghost predicate Expanding(body: seq<byte>, k: nat, n: nat, size: nat, pendingInput: nat, pendingBits: nat,
      compressed: seq<byte>, offsets: seq<nat>, decompressed: seq<byte>, drained: bool, stream: nat) {
    && k <= n && Increasing(offsets, |decompressed|) && Reading(pendingInput, pendingBits, compressed, drained, stream)
    && pendingBits + 8 * |Unread(compressed, drained)| + BitPosition(k) == 8 * |body|
    && Expanded(FromLittleEndian(body), 0, n, [], [], size) == Expanded(stream, k, n, offsets, decompressed, size)
  }

  method ExpandRound(ghost body: seq<byte>, k: nat, ghost n: nat, size: nat, pendingInput: nat, pendingBits: nat,
                     compressed: seq<byte>, offsets: seq<nat>, decompressed: seq<byte>, ghost drained: bool,
                     ghost stream: nat)
    returns (pendingInput': nat, pendingBits': nat, compressed': seq<byte>, extended: seq<byte>, r: Result,
      ghost drained': bool)
    requires k < n && BitPosition(n) <= 8 * |body|
    requires Expanding(body, k, n, size, pendingInput, pendingBits, compressed, offsets, decompressed, drained, stream)
    ensures r.Err? ==> r == Expanded(FromLittleEndian(body), 0, n, [], [], size)
    ensures r.Ok? ==>
              Expanding(body, k + 1, n, size, pendingInput', pendingBits', compressed', offsets + [|decompressed|],
                        extended, drained', ShiftRight(stream, CodeLength(k)))
  {
    EnoughBits(k, n, 8 * |body|, pendingBits + 8 * |Unread(compressed, drained)|);
    pendingInput', pendingBits', compressed', extended, r, drained' :=
      ExpandNext(k, n, size, pendingInput, pendingBits, compressed, offsets, decompressed, drained, stream);
  }

  /** The end of the loop. */
  method ExpandLast(ghost body: seq<byte>, ghost n: nat, size: nat, pendingInput: nat, ghost pendingBits: nat,
      ghost compressed: seq<byte>, offsets: seq<nat>, decompressed: seq<byte>, ghost drained: bool, ghost stream: nat)
    returns (r: Result)
    requires Expanding(body, n, n, size, pendingInput, pendingBits, compressed, offsets, decompressed, drained, stream)
    ensures 8 * |body| < BitPosition(n) + 8 ==> r == Expanded(FromLittleEndian(body), 0, n, [], [], size)
    ensures r.Ok? ==> |r.value| == size
  {
    NothingUnread(pendingInput, pendingBits, Unread(compressed, drained), stream);
    r := ExpandEnd(pendingInput, n, offsets, decompressed, size);
  }

  /** All codes of the body. At the end the buffer must hold no set bit; when
      fewer than eight bits are left over it is all that remains of the stream. */
  method ExpandCodes(body: seq<byte>, highestCode: nat, size: nat) returns (r: Result)
    requires highestCode >= 255 && BitPosition(highestCode - 255) <= 8 * |body|
    ensures 8 * |body| < BitPosition(highestCode - 255) + 8 ==>
              r == Expanded(FromLittleEndian(body), 0, highestCode - 255, [], [], size)
    ensures r.Ok? ==> |r.value| == size
  {
    var compressed, pendingInput: nat, pendingBits: nat := body, 0, 0;
    var offsets: seq<nat>, decompressed: seq<byte> := [], [];
    ghost var drained, stream, n := false, FromLittleEndian(body), highestCode - 255;
    for i := 255 to highestCode
      invariant Expanding(body, i - 255, n, size, pendingInput, pendingBits, compressed, offsets, decompressed, drained,
                          stream)
    {
      var extended;
      pendingInput, pendingBits, compressed, extended, r, drained := ExpandRound(body, i - 255, n, size, pendingInput,
        pendingBits, compressed, offsets, decompressed, drained, stream);
      if r.Err? {
        return;
      }
      stream := ShiftRight(stream, CodeLength(i - 255));
      offsets, decompressed := offsets + [|decompressed|], extended;
    }
    r := ExpandLast(body, n, size, pendingInput, pendingBits, compressed, offsets, decompressed, drained, stream);
  }

  /** What is left to read covers every code up to the n-th. */
  lemma EnoughBits(k: nat, n: nat, total: nat, available: nat)
    requires k < n && BitPosition(n) <= total && available + BitPosition(k) == total
    ensures available >= CodeLength(k) && available - CodeLength(k) + BitPosition(k + 1) == total
  {
    PositionMonotone(k + 1, n);
  }

  /** When fewer than eight bits are left, no byte is unread. */
  lemma NothingUnread(pending: nat, bits: nat, unread: seq<byte>, stream: nat)
    requires Feeds(pending, bits, unread, stream)
    ensures bits + 8 * |unread| < 8 ==> pending == stream
  {
    if bits + 8 * |unread| < 8 {
      assert unread == [];
      ShiftLeftIs(0, bits);
    }
  }

  lemma {:induction false} WidthAtLeast(n: nat)
    requires n >= 1
    ensures WidthOf(n) >= 9 * n - 1
  {
    if n > 1 {
      WidthAtLeast(n - 1);
      BitLenMonotone(256, 255 + (n - 1));
      assert Pow2(8) == 256 && Pow2(9) == 512;
      BitLenUnique(256, 9);
    } else {
      assert WidthOf(0) == 0 && Pow2(7) == 128 && Pow2(8) == 256;
      BitLenUnique(255, 8);
    }
  }

  /** Below 4 GiB of input no code number reaches 2^32. */
  lemma FewCodes(size: nat, n: nat)
    requires size < 0x1_0000_0000 && IsCodeCount(8 * size, n)
    ensures BitPosition(n) == WidthOf(n)
  {
    if n >= 1 {
      WidthAtLeast(n);
    }
    PositionIsWidth(n);
  }

  method Decompress(compressed: seq<byte>, maximumSizeBytes: nat) returns (r: Result)
    requires maximumSizeBytes < 0x1_0000_0000
    ensures |compressed| < 0x1_0000_0000 ==> Decompressed(compressed, maximumSizeBytes, r)
    ensures r.Ok? ==> |r.value| <= maximumSizeBytes
  {
    if |compressed| == 0 {
      return Ok([]);
    }
    var header := ConsumeForward(SIZE_TYPE, compressed);
    if header.Malformed? {
      return Err(InvalidHeader);
    }
    ConsumedWithin(SIZE_TYPE, compressed);
    var size, body := header.value, compressed[header.length..];
    if size == 0 {
      if |body| > maximumSizeBytes {
        return Err(TooLarge);
      }
      return Ok(body);
    }
    if size > maximumSizeBytes {
      return Err(TooLarge);
    }
    r := DecompressBody(body, size);
  }

  method DecompressBody(body: seq<byte>, size: nat) returns (r: Result)
    ensures |body| < 0x1_0000_0000 ==> exists n: nat :: IsCodeCount(8 * |body|, n) && r == Unpacked(body, n, size)
    ensures r.Ok? ==> |r.value| == size
  {
    var highestCode, remainingBits := CountCodes(8 * |body|);
    if remainingBits / 8 > 0 {
      return Err(TrailingBytes);
    }
    PositionAtMostWidth(highestCode - 255);
    if |body| < 0x1_0000_0000 {
      FewCodes(|body|, highestCode - 255);
    }
    r := ExpandCodes(body, highestCode, size);
  }
}
