/** What the simplified LZW format means: which codes a text is written as, how
    codes become bits, and how bits become text again. Codes here are looked up
    in an abstract map and bits are one unbounded number; the loops that work
    with a hash table and machine words are proved equal to these functions. */
module LzwFormat {
  import opened Arithmetic
  import opened Varint

  datatype Error = TooManyCodes | InvalidHeader | TooLarge | TrailingBytes
                 | UnexpectedCode | OutputTooLong | TrailingBits | SizeMismatch
  datatype Result = Ok(value: seq<byte>) | Err(error: Error)

  /** The most codes one compressed text may need: codes stay below 2^28. */
  const MAXIMUM_CODES: nat := 0x1000_0000 - 255

  const SIZE_TYPE: IntType := IntType(false, 32)

  // ---- Text to codes ----

  /** The codes still to be written when `cur` stands for the pending prefix,
      the symbols from `pos` on are unread and `dict` maps a code and a symbol,
      packed as code * 256 + symbol, to the code of the extended prefix. */
  function CodesFrom(input: seq<byte>, pos: nat, cur: nat, dict: map<nat, nat>): (codes: seq<nat>)
    requires pos <= |input|
    ensures |codes| >= 1
    decreases |input| - pos
  {
    if pos == |input| then [cur]
    else
      var key := cur * 256 + input[pos];
      if key in dict then CodesFrom(input, pos + 1, dict[key], dict)
      else [cur] + CodesFrom(input, pos + 1, input[pos], dict[key := 256 + |dict|])
  }

  function Codes(input: seq<byte>): (codes: seq<nat>)
    requires input != []
  {
    CodesFrom(input, 1, input[0], map[])
  }

  lemma CodesFromFollow(input: seq<byte>, pos: nat, cur: nat, dict: map<nat, nat>)
    requires pos < |input| && cur * 256 + input[pos] in dict
    ensures CodesFrom(input, pos, cur, dict) == CodesFrom(input, pos + 1, dict[cur * 256 + input[pos]], dict)
  {
  }

  lemma CodesFromWrite(input: seq<byte>, pos: nat, cur: nat, dict: map<nat, nat>, codes: seq<nat>)
    requires pos < |input| && cur * 256 + input[pos] !in dict
    ensures codes + CodesFrom(input, pos, cur, dict) ==
            codes + [cur] + CodesFrom(input, pos + 1, input[pos], dict[cur * 256 + input[pos] := 256 + |dict|])
  {
    var rest := CodesFrom(input, pos + 1, input[pos], dict[cur * 256 + input[pos] := 256 + |dict|]);
    assert CodesFrom(input, pos, cur, dict) == [cur] + rest;
    assert codes + ([cur] + rest) == codes + [cur] + rest;
  }

  // ---- Codes to bits ----

  /** The width of the k-th code: the length of uint32(255 + k), where 255 + k is the highest code assigned so far. */
  function CodeLength(k: nat): (w: nat) {
    if 255 + k < 0x1_0000_0000 then BitLen(255 + k)
    else if k < 0x1_0000_0000 then BitLen(255 + k - 0x1_0000_0000)
    else CodeLength(k - 0x1_0000_0000)
  }

  function BitPosition(k: nat): (b: nat) {
    if k == 0 then 0 else BitPosition(k - 1) + CodeLength(k - 1)
  }

  /** The bit stream that holds the codes from the i-th on, first code in the lowest bits. */
  function Stream(codes: seq<nat>, i: nat): (s: nat)
    requires i <= |codes|
    decreases |codes| - i
  {
    if i == |codes| then 0 else codes[i] + ShiftLeft(Stream(codes, i + 1), CodeLength(i))
  }

  function PackedCodes(codes: seq<nat>): (b: seq<byte>) {
    LittleEndian(Stream(codes, 0), (BitPosition(|codes|) + 7) / 8)
  }

  /** Compress, as a function. */
  function Compressed(input: seq<byte>): (r: Result)
    requires |input| < LIMIT64
  {
    if input == [] then Ok([])
    else if |Codes(input)| > MAXIMUM_CODES then Err(TooManyCodes)
    else Ok(AppendForward(|input|) + PackedCodes(Codes(input)))
  }

  function MaybeCompressed(input: seq<byte>): (r: Result)
    requires |input| < LIMIT64
  {
    var c := Compressed(input);
    if c.Ok? && |c.value| > |input| then Ok([0x80] + input) else c
  }

  // ---- Bits to text ----

  /** Total width of the first n codes, without the 32-bit limit on the code. */
  function WidthOf(n: nat): (b: nat) {
    if n == 0 then 0 else WidthOf(n - 1) + BitLen(255 + (n - 1))
  }

  /** The number of codes that fit in the given number of bits. */
  ghost predicate IsCodeCount(bits: nat, n: nat) {
    WidthOf(n) <= bits < WidthOf(n + 1)
  }

  predicate Increasing(offsets: seq<nat>, end: nat) {
    && (forall i :: 0 <= i < |offsets| - 1 ==> offsets[i] < offsets[i + 1])
    && (offsets == [] ==> end == 0)
    && (offsets != [] ==> offsets[0] == 0 && offsets[|offsets| - 1] < end)
  }

  /** The text after one more code. `offsets` are the start positions of the pieces in `out`. */
  function Extended(code: nat, offsets: seq<nat>, out: seq<byte>): (r: seq<byte>)
    requires Increasing(offsets, |out|)
    requires code > 255 ==> code - 255 <= |offsets|
    ensures |r| > |out|
  {
    if code <= 255 then out + [code]
    else
      var starts := offsets + [|out|];
      var first, last := starts[code - 256], starts[code - 255];
      OffsetsOrdered(offsets, |out|, code - 256);
      var copied := out + out[first..last];
      copied + [copied[last]]
  }

  lemma {:induction false} OffsetsOrdered(offsets: seq<nat>, end: nat, k: nat)
    requires Increasing(offsets, end) && k < |offsets|
    ensures offsets[k] < (offsets + [end])[k + 1] <= end
    decreases |offsets| - k
  {
    if k < |offsets| - 1 {
      OffsetsOrdered(offsets, end, k + 1);
    }
  }

  /** The rest of the text, read off the bit stream from the i-th code of n on. */
  function Expanded(stream: nat, i: nat, n: nat, offsets: seq<nat>, out: seq<byte>, size: nat): (r: Result)
    requires i <= n && Increasing(offsets, |out|)
    decreases n - i
  {
    if i == n then
      if stream != 0 then Err(TrailingBits)
      else if |out| != size then Err(SizeMismatch)
      else Ok(out)
    else
      var code := LowBits(stream, CodeLength(i));
      if code > 255 && code - 255 > |offsets| then Err(UnexpectedCode)
      else
        var out' := Extended(code, offsets, out);
        if |out'| > size then Err(OutputTooLong)
        else Expanded(ShiftRight(stream, CodeLength(i)), i + 1, n, offsets + [|out|], out', size)
  }

  /** The body of compressed data that holds n codes. */
  function Unpacked(body: seq<byte>, n: nat, size: nat): (r: Result)
  {
    if WidthOf(n) <= 8 * |body| && (8 * |body| - WidthOf(n)) / 8 > 0 then Err(TrailingBytes)
    else Expanded(FromLittleEndian(body), 0, n, [], [], size)
  }

  /** Decompress, as a relation; IsCodeCount determines n, so it is one result. */
  ghost predicate Decompressed(compressed: seq<byte>, maximum: nat, r: Result) {
    if compressed == [] then r == Ok([])
    else
      match ConsumeForward(SIZE_TYPE, compressed)
      case Malformed => r == Err(InvalidHeader)
      case Consumed(size, length) =>
        if size < 0 || length > |compressed| then false
        else
          var body := compressed[length..];
          if size == 0 then r == (if |body| > maximum then Err(TooLarge) else Ok(body))
          else if size > maximum then r == Err(TooLarge)
          else exists n: nat :: IsCodeCount(8 * |body|, n) && r == Unpacked(body, n, size)
  }
}
