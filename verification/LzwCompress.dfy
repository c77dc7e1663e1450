/** Compress and MaybeCompress: one loop over the text that keeps a packed hash
    table, a bit buffer flushed 32 bits at a time and the output slice. */
module LzwCompress {
  import opened Arithmetic
  import opened Varint
  import opened LzwFormat
  import opened ProbeTable

  // ---- The bit buffer ----

  /** Bytes already flushed and bits still pending together hold the first `length` bits of a stream. */
  ghost predicate Buffered(out: seq<byte>, pending: nat, bits: nat, stream: nat, length: nat) {
    && 8 * |out| + bits == length
    && out == LittleEndian(stream, |out|)
    && pending == ShiftRight(stream, 8 * |out|)
    && pending < Pow2(bits)
  }

  lemma {:induction false} StreamAppend(codes: seq<nat>, c: nat, i: nat)
    requires i <= |codes|
    ensures BitPosition(i) <= BitPosition(|codes|)
    ensures Stream(codes + [c], i) == Stream(codes, i) + ShiftLeft(c, BitPosition(|codes|) - BitPosition(i))
    decreases |codes| - i
  {
    if i < |codes| {
      StreamAppend(codes, c, i + 1);
      var d := BitPosition(|codes|) - BitPosition(i + 1);
      ShiftLeftAdd(Stream(codes, i + 1), ShiftLeft(c, d), CodeLength(i));
      ShiftLeftTwice(c, d, CodeLength(i));
    } else {
      assert Stream(codes + [c], i + 1) == 0;
      ShiftLeftIs(0, CodeLength(i));
    }
  }

  ghost predicate StreamIs(codes: seq<nat>, stream: nat, length: nat) {
    stream == Stream(codes, 0) && length == BitPosition(|codes|)
  }

  lemma AppendCode(codes: seq<nat>, c: nat, stream: nat, length: nat)
    requires StreamIs(codes, stream, length)
    ensures StreamIs(codes + [c], stream + ShiftLeft(c, length), length + CodeLength(|codes|))
  {
    StreamAppend(codes, c, 0);
  }

  lemma ByteShift(x: nat)
    ensures ShiftLeft(x, 8) == 256 * x
  {
    ShiftLeftIs(x, 8);
    assert Pow2(8) == 256;
  }

  /** A number added above the first m bytes leaves them alone. */
  lemma {:induction false} SameLowBytes(x: nat, m: nat, q: nat)
    ensures LittleEndian(x + ShiftLeft(q, 8 * m), m) == LittleEndian(x, m)
    decreases m
  {
    if m > 0 {
      var p := ShiftLeft(q, 8 * (m - 1));
      ShiftLeftTwice(q, 8 * (m - 1), 8);
      ByteShift(p);
      assert (x + 256 * p) / 256 == x / 256 + p && (x + 256 * p) % 256 == x % 256;
      SameLowBytes(x / 256, m - 1, q);
    }
  }

  lemma AddAbove(s: nat, w: nat, x: nat)
    ensures ShiftRight(s + ShiftLeft(x, w), w) == ShiftRight(s, w) + x
  {
    SplitBits(s, w);
    ShiftLeftAdd(ShiftRight(s, w), x, w);
    JoinBits(LowBits(s, w), ShiftRight(s, w) + x, w);
  }

  /** Adding a code above the pending bits adds it at the end of the stream. */
  lemma BufferCode(out: seq<byte>, pending: nat, bits: nat, stream: nat, length: nat, c: nat, w: nat)
    requires Buffered(out, pending, bits, stream, length) && c < Pow2(w)
    ensures Buffered(out, pending + ShiftLeft(c, bits), bits + w, stream + ShiftLeft(c, length), length + w)
  {
    var x := ShiftLeft(c, bits);
    ShiftLeftTwice(c, bits, 8 * |out|);
    SameLowBytes(stream, |out|, x);
    AddAbove(stream, 8 * |out|, x);
    JoinBound(pending, c, bits, w);
  }

  lemma {:induction false} LittleEndianAppend(s: nat, m: nat, n: nat)
    ensures LittleEndian(s, m) + LittleEndian(ShiftRight(s, 8 * m), n) == LittleEndian(s, m + n)
    decreases m
  {
    if m > 0 {
      ShiftByte(s);
      ShiftRightTwice(s, 8, 8 * (m - 1));
      LittleEndianAppend(s / 256, m - 1, n);
    }
  }

  lemma ShiftByte(s: nat)
    ensures ShiftRight(s, 8) == s / 256
  {
    SplitBits(s, 8);
    ByteShift(ShiftRight(s, 8));
    assert Pow2(8) == 256;
  }

  /** Writing out n bytes keeps the stream. */
  lemma FlushBytes(out: seq<byte>, pending: nat, bits: nat, stream: nat, length: nat, n: nat)
    requires Buffered(out, pending, bits, stream, length) && bits >= 8 * n
    ensures Buffered(out + LittleEndian(pending, n), ShiftRight(pending, 8 * n), bits - 8 * n, stream, length)
  {
    LittleEndianAppend(stream, |out|, n);
    ShiftRightTwice(stream, 8 * |out|, 8 * n);
    ShiftRightBound(pending, 8 * n, bits - 8 * n);
  }

  lemma {:induction false} LittleEndianPrefix(x: nat, m: nat, n: nat)
    requires m <= n
    ensures LittleEndian(x, n)[..m] == LittleEndian(x, m)
    decreases m
  {
    if m > 0 {
      LittleEndianPrefix(x / 256, m - 1, n - 1);
    }
  }

  /** The bytes flushed at the end complete the stream, padded to whole bytes. */
  lemma FlushTrailer(out: seq<byte>, pending: nat, bits: nat, stream: nat, length: nat, n: nat)
    requires Buffered(out, pending, bits, stream, length) && n == (bits + 7) / 8 <= 8
    ensures out + LittleEndian(pending, 8)[..n] == LittleEndian(stream, (length + 7) / 8)
  {
    LittleEndianPrefix(pending, n, 8);
    assert (length + 7) / 8 == |out| + n;
    LittleEndianAppend(stream, |out|, n);
  }

  // ---- The dictionary ----

  /** How the table, the code counter and the code width keep in step. */
  ghost predicate Counters(table: seq<nat>, dict: map<nat, nat>, highestCode: nat, highestCodeBits: nat) {
    && Stores(table, dict) && |dict| + 1 < |table|
    && highestCode == 255 + |dict| < CODE_LIMIT
    && Width(highestCode, highestCodeBits) && |table| >= 2 * Pow2(highestCodeBits)
  }

  /** Codes up to the highest fit the current width, which is the one the format prescribes. */
  ghost predicate Width(highestCode: nat, bits: nat) {
    highestCode >= 255 && bits == BitLen(highestCode) == CodeLength(highestCode - 255) <= 28 && highestCode < Pow2(bits)
  }

  lemma WidthIs(highestCode: nat)
    requires 255 <= highestCode < CODE_LIMIT
    ensures Width(highestCode, BitLen(highestCode))
  {
    BitLenBounds(highestCode);
    Fits28(highestCode);
  }

  lemma Fits28(code: nat)
    requires code < CODE_LIMIT
    ensures BitLen(code) <= 28
  {
    BitLenMonotone(code, CODE_LIMIT - 1);
    Pow28();
    BitLenUnique(CODE_LIMIT - 1, 28);
  }

  lemma Pow28()
    ensures Pow2(28) == CODE_LIMIT && Pow2(27) == CODE_LIMIT / 2
  {
    Pow2Add(16, 11);
    assert Pow2(16) == 0x1_0000;
  }

  /** The width changes exactly when the code reaches a power of two. */
  lemma WidthChange(code: nat)
    requires code >= 255
    ensures BitLen(code + 1) == BitLen(code) || (BitLen(code + 1) == BitLen(code) + 1 && code + 1 == Pow2(BitLen(code)))
    ensures BitLen(code + 1) > 28 <==> code + 1 >= CODE_LIMIT
  {
    BitLenBounds(code);
    BitLenMonotone(code, code + 1);
    var k := BitLen(code);
    if code + 1 < Pow2(k) {
      BitLenUnique(code + 1, k);
    } else {
      BitLenUnique(code + 1, k + 1);
    }
    Pow28();
    BitLenBounds(code + 1);
    if BitLen(code + 1) > 28 {
      Pow2Monotone(28, BitLen(code + 1) - 1);
    } else {
      Pow2Monotone(BitLen(code + 1), 28);
    }
  }

  lemma PowerAfterChange(code: nat)
    requires code >= 255 && BitLen(code + 1) != BitLen(code)
    ensures PowerOfTwo(4 * (code + 1)) && 4 * (code + 1) == 2 * Pow2(BitLen(code + 1))
  {
    WidthChange(code);
    assert 4 * (code + 1) == Pow2(BitLen(code) + 2);
  }

  /** A new code for a prefix and its next symbol. When the code crosses a power
      of two the table is grown to four words per code, unless that makes the
      code too wide. */
  method AddEntry(table: array<nat>, ghost dict: map<nat, nat>, key: nat, highestCode: nat, highestCodeBits: nat)
    returns (grown: array<nat>, code: nat, codeBits: nat, tooMany: bool)
    requires Counters(table[..], dict, highestCode, highestCodeBits) && key !in dict
    modifies table
    ensures code == highestCode + 1 && (tooMany <==> code == CODE_LIMIT)
    ensures !tooMany ==> Counters(grown[..], dict[key := code], code, codeBits)
    ensures grown == table || fresh(grown)
  {
    WidthChange(highestCode);
    grown, code, tooMany := table, highestCode + 1, false;
    codeBits := BitLen(code);
    if codeBits != highestCodeBits {
      if codeBits > CODE_BITS {
        tooMany := true;
        return;
      }
      PowerAfterChange(highestCode);
      var desiredSize := code * 4;
      if table.Length < desiredSize {
        grown := Rehash(table, dict, desiredSize);
      }
    }
    WidthIs(code);
    ProbeTable.PackedParts(key, code);
    Place(grown, dict, ProbeTable.Pack(key, code));
  }

  // ---- The loop ----

  /** What is written and pending, after the header, is the first `length` bits of the stream. */
  ghost predicate Output(compressed: seq<byte>, pendingOutput: nat, pendingBits: nat, header: seq<byte>, stream: nat,
      length: nat) {
    header <= compressed && pendingBits < 32
      && Buffered(compressed[|header|..], pendingOutput, pendingBits, stream, length)
  }

  /** One written code: the buffer takes it and flushes a word when it holds one. */
  method WriteCode(compressed: seq<byte>, pendingOutput: nat, pendingBits: nat, code: nat, width: nat,
                   ghost header: seq<byte>, ghost stream: nat, ghost length: nat)
    returns (compressed': seq<byte>, pendingOutput': nat, pendingBits': nat)
    requires Output(compressed, pendingOutput, pendingBits, header, stream, length)
    requires code < Pow2(width) && width <= 28
    ensures Output(compressed', pendingOutput', pendingBits', header, stream + ShiftLeft(code, length), length + width)
  {
    ghost var body := compressed[|header|..];
    BufferCode(body, pendingOutput, pendingBits, stream, length, code, width);
    compressed' := compressed;
    pendingOutput' := pendingOutput + ShiftLeft(code, pendingBits);
    pendingBits' := pendingBits + width;
    if pendingBits' >= 32 {
      FlushBytes(body, pendingOutput', pendingBits', stream + ShiftLeft(code, length), length + width, 4);
      compressed' := compressed' + LittleEndian(pendingOutput', 4);
      assert compressed'[|header|..] == body + LittleEndian(pendingOutput', 4);
      pendingOutput' := ShiftRight(pendingOutput', 32);
      pendingBits' := pendingBits' - 32;
    }
  }

  /** The last code, and the bytes that are still pending. */
  method Finish(compressed: seq<byte>, pendingOutput: nat, pendingBits: nat, code: nat, width: nat,
                ghost header: seq<byte>, ghost stream: nat, ghost length: nat)
    returns (all: seq<byte>)
    requires Output(compressed, pendingOutput, pendingBits, header, stream, length)
    requires code < Pow2(width) && width <= 28
    ensures all == header + LittleEndian(stream + ShiftLeft(code, length), (length + width + 7) / 8)
  {
    ghost var body := compressed[|header|..];
    BufferCode(body, pendingOutput, pendingBits, stream, length, code, width);
    var pendingOutput' := pendingOutput + ShiftLeft(code, pendingBits);
    var pendingBits' := pendingBits + width;
    var n := (pendingBits' + 7) / 8;
    FlushTrailer(body, pendingOutput', pendingBits', stream + ShiftLeft(code, length), length + width, n);
    var trailer := LittleEndian(pendingOutput', 8);
    all := compressed + trailer[..n];
    assert compressed == header + body;
    assert header + body + trailer[..n] == header + (body + trailer[..n]);
  }

  ghost predicate CodesBelow(dict: map<nat, nat>, limit: nat) {
    forall key {:trigger dict[key]} :: key in dict ==> dict[key] <= limit
  }

  lemma CodesBelowStep(dict: map<nat, nat>, key: nat, code: nat)
    requires code >= 1 && CodesBelow(dict, code - 1)
    ensures CodesBelow(dict[key := code], code)
  {
  }

  function Body(header: seq<byte>, input: seq<byte>): Result
    requires input != []
  {
    if |Codes(input)| > MAXIMUM_CODES then Err(TooManyCodes) else Ok(header + PackedCodes(Codes(input)))
  }

  /** The dictionary, the codes written so far and the bits they make. */
  datatype Written = Written(dict: map<nat, nat>, codes: seq<nat>, stream: nat, length: nat) {
    /** The pending code is written and its extension by a symbol enters the dictionary. */
    ghost function Add(code: nat, key: nat): Written {
      Written(dict[key := 256 + |dict|], codes + [code], stream + ShiftLeft(code, length), length + CodeLength(|dict|))
    }
  }

  /** What is written and what the rest of the text still needs make up the codes of the text. */
  ghost predicate Progress(input: seq<byte>, pos: nat, currentCode: nat, w: Written) {
    && 0 < pos <= |input|
    && |w.codes| == |w.dict| && currentCode <= 255 + |w.dict| && CodesBelow(w.dict, 255 + |w.dict|)
    && StreamIs(w.codes, w.stream, w.length)
    && w.codes + CodesFrom(input, pos, currentCode, w.dict) == Codes(input)
  }

  lemma FollowProgress(input: seq<byte>, pos: nat, currentCode: nat, w: Written, key: nat)
    requires Progress(input, pos, currentCode, w)
    requires pos < |input| && key == currentCode * 256 + input[pos] && key in w.dict
    ensures Progress(input, pos + 1, w.dict[key], w)
  {
    CodesFromFollow(input, pos, currentCode, w.dict);
  }

  lemma WriteProgress(input: seq<byte>, pos: nat, currentCode: nat, w: Written, key: nat)
    requires Progress(input, pos, currentCode, w)
    requires pos < |input| && key == currentCode * 256 + input[pos] && key !in w.dict
    ensures Progress(input, pos + 1, input[pos], w.Add(currentCode, key))
  {
    CodesFromWrite(input, pos, currentCode, w.dict, w.codes);
    AppendCode(w.codes, currentCode, w.stream, w.length);
    CodesBelowStep(w.dict, key, 256 + |w.dict|);
  }

  lemma LastProgress(header: seq<byte>, input: seq<byte>, currentCode: nat, w: Written)
    requires Progress(input, |input|, currentCode, w)
    requires 255 + |w.dict| < CODE_LIMIT
    ensures Body(header, input) ==
            Ok(header + LittleEndian(w.stream + ShiftLeft(currentCode, w.length),
              (w.length + CodeLength(|w.dict|) + 7) / 8))
  {
    AppendCode(w.codes, currentCode, w.stream, w.length);
    assert Codes(input) == w.codes + [currentCode];
  }

  /** Too many codes are needed as soon as the counter reaches the limit with text left to write. */
  lemma TooManyProgress(header: seq<byte>, input: seq<byte>, pos: nat, currentCode: nat, w: Written)
    requires Progress(input, pos, currentCode, w)
    requires 255 + |w.dict| >= CODE_LIMIT
    ensures Body(header, input) == Err(TooManyCodes)
  {
    assert |Codes(input)| == |w.codes| + |CodesFrom(input, pos, currentCode, w.dict)|;
  }

  /** The local variables of the loop, but for the table. */
  datatype Loop = Loop(currentCode: nat, highestCode: nat, highestCodeBits: nat,
                       compressed: seq<byte>, pendingOutput: nat, pendingBits: nat)

  ghost predicate Consistent(l: Loop, table: seq<nat>, header: seq<byte>, w: Written) {
    && Counters(table, w.dict, l.highestCode, l.highestCodeBits)
    && Output(l.compressed, l.pendingOutput, l.pendingBits, header, w.stream, w.length)
  }

  /** The symbol does not extend the pending prefix: the prefix is written and the extended one gets a code. */
  method NewPrefix(l: Loop, table: array<nat>, key: nat, symbol: byte, ghost header: seq<byte>, ghost w: Written)
    returns (l': Loop, table': array<nat>, tooMany: bool)
    requires Consistent(l, table[..], header, w)
    requires l.currentCode <= l.highestCode && key !in w.dict
    modifies table
    ensures l'.currentCode == symbol && l'.highestCode == l.highestCode + 1
    ensures if tooMany then l'.highestCode == CODE_LIMIT
            else Consistent(l', table'[..], header, w.Add(l.currentCode, key))
    ensures table' == table || fresh(table')
  {
    var compressed, pendingOutput, pendingBits :=
      WriteCode(l.compressed, l.pendingOutput, l.pendingBits, l.currentCode, l.highestCodeBits, header, w.stream,
        w.length);
    var highestCode, highestCodeBits;
    table', highestCode, highestCodeBits, tooMany := AddEntry(table, w.dict, key, l.highestCode, l.highestCodeBits);
    l' := Loop(symbol, highestCode, highestCodeBits, compressed, pendingOutput, pendingBits);
  }

  /** One round of the loop. */
  method ReadSymbol(input: seq<byte>, pos: nat, l: Loop, table: array<nat>, ghost header: seq<byte>, ghost w: Written)
    returns (l': Loop, table': array<nat>, tooMany: bool, ghost w': Written)
    requires Consistent(l, table[..], header, w) && Progress(input, pos, l.currentCode, w) && pos < |input|
    modifies table
    ensures if tooMany then Body(header, input) == Err(TooManyCodes)
            else Consistent(l', table'[..], header, w') && Progress(input, pos + 1, l'.currentCode, w')
    ensures table' == table || fresh(table')
  {
    l', table', tooMany, w' := l, table, false, w;
    var lookupKey := l.currentCode * 256 + input[pos];
    var entry := Probe(table, w.dict, lookupKey);
    if entry != 0 {
      FollowProgress(input, pos, l.currentCode, w, lookupKey);
      l' := l.(currentCode := CodeOf(entry));
    } else {
      WriteProgress(input, pos, l.currentCode, w, lookupKey);
      w' := w.Add(l.currentCode, lookupKey);
      l', table', tooMany := NewPrefix(l, table, lookupKey, input[pos], header, w);
      if tooMany {
        TooManyProgress(header, input, pos + 1, l'.currentCode, w');
      }
    }
  }

  method Conclude(l: Loop, table: array<nat>, ghost header: seq<byte>, ghost w: Written) returns (all: seq<byte>)
    requires Consistent(l, table[..], header, w) && l.currentCode <= l.highestCode
    ensures all == header + LittleEndian(w.stream + ShiftLeft(l.currentCode, w.length),
            (w.length + CodeLength(|w.dict|) + 7) / 8)
    ensures 255 + |w.dict| < CODE_LIMIT
  {
    all := Finish(l.compressed, l.pendingOutput, l.pendingBits, l.currentCode, l.highestCodeBits, header, w.stream,
      w.length);
  }

  method CompressLoop(header: seq<byte>, input: seq<byte>)
      returns (l: Loop, table: array<nat>, tooMany: bool, ghost w: Written)
    requires input != []
    ensures if tooMany then Body(header, input) == Err(TooManyCodes)
            else Consistent(l, table[..], header, w) && Progress(input, |input|, l.currentCode, w)
  {
    table := new nat[0x1000](_ => 0);
    StartsEmpty(table[..], header);
    l, w, tooMany := Loop(input[0], 0xff, 8, header, 0, 0), Written(map[], [], 0, 0), false;
    for pos := 1 to |input|
      invariant fresh(table) && Consistent(l, table[..], header, w)
      invariant Progress(input, pos, l.currentCode, w) && !tooMany
    {
      l, table, tooMany, w := ReadSymbol(input, pos, l, table, header, w);
      if tooMany {
        return;
      }
    }
  }

  /** The loop of Compress, behind a given header: the hash table, the growing
      widths and the 32-bit flushes write exactly the packed codes. */
  method CompressBody(header: seq<byte>, uncompressed: seq<byte>) returns (r: Result)
    requires uncompressed != []
    ensures r == Body(header, uncompressed)
  {
    var l, table, tooMany;
    ghost var w;
    l, table, tooMany, w := CompressLoop(header, uncompressed);
    if tooMany {
      return Err(TooManyCodes);
    }
    var compressed := Conclude(l, table, header, w);
    LastProgress(header, uncompressed, l.currentCode, w);
    return Ok(compressed);
  }

  method Compress(uncompressed: seq<byte>) returns (r: Result)
    requires |uncompressed| < 0x8000_0000_0000_0000
    ensures r == Compressed(uncompressed)
  {
    if |uncompressed| == 0 {
      return Ok([]);
    }
    r := CompressBody(AppendForward(|uncompressed|), uncompressed);
  }

  lemma StartsEmpty(table: seq<nat>, header: seq<byte>)
    requires |table| == 0x1000 && forall s :: 0 <= s < |table| ==> table[s] == 0
    ensures Counters(table, map[], 0xff, 8)
    ensures Output(header, 0, 0, header, 0, 0)
  {
    assert Pow2(12) == 0x1000 && Pow2(8) == 256;
    EmptyStores(table);
    BitLenUnique(255, 8);
    WidthIs(255);
  }

  /** MaybeCompress: the text itself behind the size zero when compression does not make it smaller. */
  method MaybeCompress(uncompressed: seq<byte>) returns (r: Result)
    requires |uncompressed| < 0x8000_0000_0000_0000
    ensures r == MaybeCompressed(uncompressed)
  {
    r := Compress(uncompressed);
    if r.Ok? && |r.value| > |uncompressed| {
      r := Ok([0x80] + uncompressed);
    }
  }
}
