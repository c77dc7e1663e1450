/** What Decompress accepts, said without reading codes one after the other: exactly the data whose body packs
    codes that spell a text of the announced size. */
module LzwAccepts {
  import opened Arithmetic
  import opened Varint
  import opened LzwFormat
  import opened LzwWords
  import opened LzwRoundTrip
  import opened LzwDecompress

  /** The body packs codes that spell the text. */
  ghost predicate Packs(body: seq<byte>, text: seq<byte>, codes: seq<nat>, offs: seq<nat>) {
    Spells(text, codes, offs) && CodesFit(codes) && body == PackedCodes(codes)
  }

  /** The data stands for the text: nothing for nothing, the text itself behind a size of zero, or packed codes
      behind the size of the text. */
  ghost predicate Encodes(compressed: seq<byte>, text: seq<byte>) {
    if compressed == [] then text == []
    else
      match ConsumeForward(SIZE_TYPE, compressed)
      case Malformed => false
      case Consumed(size, length) =>
        && length <= |compressed|
        && var body := compressed[length..];
           if size == 0 then body == text else size == |text| && exists codes, offs :: Packs(body, text, codes, offs)
  }

  // ---- What is read off a stream is spelled by its codes ----

  /** Words do not change when the text grows. */
  lemma PiecesGrow(out: seq<byte>, out': seq<byte>, codes: seq<nat>, offs: seq<nat>)
    requires PiecesSpell(out, codes, offs) && out <= out'
    ensures PiecesSpell(out', codes, offs)
  {
    forall j | 0 <= j < |codes| ensures PieceIs(out', codes, offs, j) {
      assert PieceIs(out, codes, offs, j);
      assert out'[offs[j]..offs[j + 1]] == out[offs[j]..offs[j + 1]];
      if codes[j] >= 256 {
        var k := codes[j] - 255;
        OffsetsUpTo(out, codes, offs, k, j);
        OffsetsUpTo(out, codes, offs, k - 1, k);
        assert out'[offs[k - 1]..offs[k] + 1] == out[offs[k - 1]..offs[k] + 1];
      }
    }
  }

  /** What a code adds is its word. */
  lemma ExtendedIsWord(code: nat, offs: seq<nat>, out: seq<byte>, out': seq<byte>)
    requires offs != [] && offs[|offs| - 1] == |out| && Increasing(offs[..|offs| - 1], |out|)
    requires code <= 255 + (|offs| - 1) && out' == Extended(code, offs[..|offs| - 1], out)
    ensures out <= out' && out'[|out|..] == Word(out', offs + [|out'|], code)
  {
    var i := |offs| - 1;
    if code > 255 {
      var k := code - 255;
      assert offs[..i] + [|out|] == offs;
      OffsetsOrdered(offs[..i], |out|, k - 1);
      var first, last := offs[k - 1], offs[k];
      var copied := out + out[first..last];
      assert out' == copied + [copied[last]];
      assert out'[first..last + 1] == out[first..last] + [copied[last]];
    }
  }

  lemma SpelledStep(out: seq<byte>, codes: seq<nat>, offs: seq<nat>, code: nat, out': seq<byte>)
    requires PiecesSpell(out, codes, offs) && offs[|codes|] == |out| && Increasing(offs[..|codes|], |out|)
    requires code <= 255 + |codes| && out' == Extended(code, offs[..|codes|], out)
    ensures PiecesSpell(out', codes + [code], offs + [|out'|])
  {
    var codes', offs' := codes + [code], offs + [|out'|];
    ExtendedIsWord(code, offs, out, out');
    PiecesGrow(out, out', codes, offs);
    forall j | 0 <= j < |codes'| ensures PieceIs(out', codes', offs', j) {
      if j < |codes| {
        assert PieceIs(out', codes, offs, j);
        WordStable(out', offs, |out'|, codes[j]);
      } else {
        assert out'[|out|..|out'|] == out'[|out|..];
      }
    }
  }

  lemma StreamHead(stream: nat, codes: seq<nat>, code: nat, all: seq<nat>)
    requires codes + [code] <= all && code == LowBits(stream, CodeLength(|codes|))
    requires ShiftRight(stream, CodeLength(|codes|)) == Stream(all, |codes| + 1)
    ensures stream == Stream(all, |codes|) && codes <= all
  {
    SplitBits(stream, CodeLength(|codes|));
    assert all[|codes|] == (codes + [code])[|codes|];
  }

  lemma ReadFits(stream: nat, codes: seq<nat>)
    requires CodesFit(codes)
    ensures CodesFit(codes + [LowBits(stream, CodeLength(|codes|))])
  {
    SplitBits(stream, CodeLength(|codes|));
  }

  /** When reading succeeds, the codes that were read spell the result and make up the stream. */
  lemma {:induction false} ExpandedSpells(stream: nat, n: nat, codes: seq<nat>, offs: seq<nat>, out: seq<byte>,
      size: nat, text: seq<byte>) returns (all: seq<nat>, ends: seq<nat>)
    requires |codes| <= n && CodesFit(codes)
    requires PiecesSpell(out, codes, offs) && offs[0] == 0 && offs[|codes|] == |out|
    requires Increasing(offs[..|codes|], |out|)
    requires Expanded(stream, |codes|, n, offs[..|codes|], out, size) == Ok(text)
    ensures |all| == n && codes <= all && CodesFit(all) && Spells(text, all, ends) && |text| == size
    ensures stream == Stream(all, |codes|)
    decreases n - |codes|
  {
    if |codes| == n {
      all, ends := codes, offs;
    } else {
      var w := CodeLength(|codes|);
      var code := LowBits(stream, w);
      ReadFits(stream, codes);
      var out' := Extended(code, offs[..|codes|], out);
      SpelledStep(out, codes, offs, code, out');
      ExpandOne(stream, |codes|, n, offs[..|codes|], out, size, w);
      assert (offs + [|out'|])[..|codes| + 1] == offs[..|codes|] + [|out|];
      all, ends := ExpandedSpells(ShiftRight(stream, w), n, codes + [code], offs + [|out'|], out', size, text);
      StreamHead(stream, codes, code, all);
    }
  }

  // ---- Bodies ----

  lemma {:induction false} BytesOfValue(b: seq<byte>)
    ensures LittleEndian(FromLittleEndian(b), |b|) == b
  {
    if b != [] {
      BytesOfValue(b[1..]);
    }
  }

  /** An accepted body packs codes that spell the result. */
  lemma UnpackedPacks(body: seq<byte>, n: nat, size: nat, text: seq<byte>)
    requires |body| < 0x1_0000_0000 && IsCodeCount(8 * |body|, n) && Unpacked(body, n, size) == Ok(text)
    ensures |text| == size && exists codes, offs :: Packs(body, text, codes, offs)
  {
    FewCodes(|body|, n);
    var codes, ends := StreamSpells(FromLittleEndian(body), n, size, text);
    BytesOfValue(body);
    assert |body| == (BitPosition(n) + 7) / 8;
    assert Packs(body, text, codes, ends);
  }

  lemma StreamSpells(stream: nat, n: nat, size: nat, text: seq<byte>) returns (codes: seq<nat>, ends: seq<nat>)
    requires Expanded(stream, 0, n, [], [], size) == Ok(text)
    ensures |codes| == n && CodesFit(codes) && Spells(text, codes, ends) && |text| == size && stream == Stream(codes, 0)
  {
    var offs: seq<nat> := [0];
    assert offs[..0] == [];
    codes, ends := ExpandedSpells(stream, n, [], offs, [], size, text);
  }

  /** A short body does not hold so many codes that their numbers overflow. */
  lemma FewPacked(codes: seq<nat>)
    requires |PackedCodes(codes)| < 0x1_0000_0000
    ensures 255 + |codes| < 0x1_0000_0000
  {
    ManyPacked(codes, 0x1_0000_0000 - 255);
  }

  lemma ManyPacked(codes: seq<nat>, m: nat)
    requires 1 <= m && 255 + m <= 0x1_0000_0000
    ensures |codes| >= m ==> 8 * |PackedCodes(codes)| >= 9 * m - 1
  {
    if |codes| >= m {
      PositionMonotone(m, |codes|);
      PositionIsWidth(m);
      WidthAtLeast(m);
    }
  }

  /** A body that packs codes which spell a text is accepted with that text. */
  lemma PacksUnpacked(body: seq<byte>, text: seq<byte>, codes: seq<nat>, offs: seq<nat>)
    requires |body| < 0x1_0000_0000 && Packs(body, text, codes, offs)
    ensures IsCodeCount(8 * |body|, |codes|) && Unpacked(body, |codes|, |text|) == Ok(text)
  {
    FewPacked(codes);
    PositionIsWidth(|codes|);
    CodeLengthIs(|codes|);
    PackedValue(codes);
    StreamExpands(text, codes, offs, 0);
    assert offs[..0] == [] && text[..0] == [];
  }

  // ---- The whole ----

  /** Decompress succeeds with a text exactly when the data stands for it and it is not too large. So data stands for
      at most one text. */
  lemma AcceptsExactly(compressed: seq<byte>, maximum: nat, r: Result, text: seq<byte>)
    requires |compressed| < 0x1_0000_0000 && Decompressed(compressed, maximum, r)
    ensures r == Ok(text) <==> Encodes(compressed, text) && |text| <= maximum
  {
    var header := ConsumeForward(SIZE_TYPE, compressed);
    if compressed != [] && header.Consumed? {
      ConsumedWithin(SIZE_TYPE, compressed);
      var body, size := compressed[header.length..], header.value;
      if 0 < size <= maximum {
        var n: nat :| IsCodeCount(8 * |body|, n) && r == Unpacked(body, n, size);
        if r == Ok(text) {
          UnpackedPacks(body, n, size, text);
        }
        if size == |text| && exists codes, offs :: Packs(body, text, codes, offs) {
          var codes, offs :| Packs(body, text, codes, offs);
          PacksUnpacked(body, text, codes, offs);
          CodeCountUnique(8 * |body|, n, |codes|);
        }
      }
    }
  }

  /** What a text was compressed to stands for it. */
  lemma CompressedEncodes(text: seq<byte>)
    requires |text| < 0x1_0000_0000 && Compressed(text).Ok?
    ensures Encodes(Compressed(text).value, text)
  {
    if text != [] {
      var codes := Codes(text);
      var offs := CodesSpell(text);
      SpelledCodesFit(text, codes, offs);
      var body := PackedCodes(codes);
      Literals();
      ForwardRoundTrip(SIZE_TYPE, |text|, body);
      assert (AppendForward(|text|) + body)[SizeBytes(|text|)..] == body;
      assert Packs(body, text, codes, offs);
    }
  }

  /** Compressed data is refused with a limit below the size of its text. */
  lemma TooLargeIsRefused(text: seq<byte>, maximum: nat, r: Result)
    requires maximum < |text| < 0x1_0000_0000 && Compressed(text).Ok?
    requires Decompressed(Compressed(text).value, maximum, r)
    ensures r == Err(TooLarge)
  {
    Literals();
    ForwardRoundTrip(SIZE_TYPE, |text|, PackedCodes(Codes(text)));
  }

  /** Decompressing what was compressed gives the text back, for every text that can be compressed. */
  lemma RoundTrip(text: seq<byte>, maximum: nat, r: Result)
    requires |text| <= maximum < 0x1_0000_0000
    requires Compressed(text).Ok? && Decompressed(Compressed(text).value, maximum, r)
    ensures r == Ok(text)
  {
    CompressedIsShort(text);
    CompressedEncodes(text);
    AcceptsExactly(Compressed(text).value, maximum, r, text);
  }

  /** A leading size of zero marks text that is stored as it is. */
  lemma StoredEncodes(text: seq<byte>)
    ensures Encodes([0x80] + text, text)
  {
    assert Pow2(32) > 0 && Pow2(7) == 0x80 && Fits(0, 1);
    assert Form(0, 1) == [0x80];
    ConsumesExactly(SIZE_TYPE, [0x80] + text, 0, 1);
    assert ([0x80] + text)[..1] == [0x80] && ([0x80] + text)[1..] == text;
  }

  /** What MaybeCompress returns decompresses to the text, and is the shorter of what Compress returns and the text
      with one byte in front. */
  lemma MaybeRoundTrip(text: seq<byte>, maximum: nat, r: Result)
    requires |text| <= maximum < 0x1_0000_0000
    requires MaybeCompressed(text).Ok? && Decompressed(MaybeCompressed(text).value, maximum, r)
    ensures r == Ok(text)
    ensures Compressed(text).Ok?
            && |MaybeCompressed(text).value| == Smaller(|Compressed(text).value|, |text| + 1)
  {
    if |Compressed(text).value| > |text| {
      CompressedIsShort(text);
      StoredEncodes(text);
      AcceptsExactly([0x80] + text, maximum, r, text);
    } else {
      RoundTrip(text, maximum, r);
    }
  }

  function Smaller(a: int, b: int): (m: int) {
    if a <= b then a else b
  }
}
