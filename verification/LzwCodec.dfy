/** The two directions composed: compressing and decompressing any text that
    compression accepts gives that text back. */
module LzwCodec {
  import opened Arithmetic
  import opened LzwFormat
  import opened LzwRoundTrip
  import opened LzwCompress
  import opened LzwDecompress
  import opened LzwAccepts

  /** Fails only when the text needs too many codes. */
  method CompressThenDecompress(text: seq<byte>, maximum: nat) returns (r: Result)
    requires |text| <= maximum < 0x1_0000_0000
    ensures r == if text != [] && |Codes(text)| > MAXIMUM_CODES then Err(TooManyCodes) else Ok(text)
  {
    r := Compress(text);
    if r.Ok? {
      CompressedIsShort(text);
      var compressed := r.value;
      r := Decompress(compressed, maximum);
      RoundTrip(text, maximum, r);
    }
  }

  method MaybeCompressThenDecompress(text: seq<byte>, maximum: nat) returns (stored: nat, r: Result)
    requires |text| <= maximum < 0x1_0000_0000
    ensures r == if text != [] && |Codes(text)| > MAXIMUM_CODES then Err(TooManyCodes) else Ok(text)
    ensures r.Ok? ==> Compressed(text).Ok? && stored == Smaller(|Compressed(text).value|, |text| + 1)
  {
    stored := 0;
    r := MaybeCompress(text);
    if r.Ok? {
      CompressedIsShort(text);
      var compressed := r.value;
      stored := |compressed|;
      r := Decompress(compressed, maximum);
      MaybeRoundTrip(text, maximum, r);
    }
  }
}
