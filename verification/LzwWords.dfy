/** The codes of a text as a way to cut it into words: which cuts spell the text, and that the compressor chooses
    the longest word every time. */
module LzwWords {
  import opened Arithmetic
  import opened LzwFormat

  // ---- Codes determine the text ----

  /** The word a code stands for when the pieces of the text start at `offs`. */
  ghost function Word(input: seq<byte>, offs: seq<nat>, code: nat): seq<byte> {
    if code < 256 then [code]
    else
      var k := code - 255;
      if k < |offs| && offs[k - 1] <= offs[k] < |input| then input[offs[k - 1]..offs[k] + 1] else []
  }

  /** Piece i of the text is the word of code i, which may refer to no piece after the one it starts. */
  ghost predicate PieceIs(input: seq<byte>, codes: seq<nat>, offs: seq<nat>, i: nat)
    requires i < |codes| && |offs| == |codes| + 1
  {
    && offs[i] < offs[i + 1] <= |input|
    && codes[i] <= 255 + i
    && input[offs[i]..offs[i + 1]] == Word(input, offs, codes[i])
  }

  ghost predicate PiecesSpell(input: seq<byte>, codes: seq<nat>, offs: seq<nat>) {
    |offs| == |codes| + 1 && forall i {:trigger PieceIs(input, codes, offs, i)} :: 0 <= i < |codes| ==>
        PieceIs(input, codes, offs, i)
  }

  /** The codes spell out the text, one piece each. */
  ghost predicate Spells(input: seq<byte>, codes: seq<nat>, offs: seq<nat>) {
    PiecesSpell(input, codes, offs) && offs[0] == 0 && offs[|codes|] == |input|
  }

  ghost predicate EntryExtends(input: seq<byte>, offs: seq<nat>, key: nat, code: nat) {
    && 256 <= code < 255 + |offs|
    && key / 256 < 255 + |offs|
    && Word(input, offs, code) == Word(input, offs, key / 256) + [key % 256]
  }

  ghost predicate EntriesExtend(input: seq<byte>, offs: seq<nat>, dict: map<nat, nat>) {
    forall key {:trigger EntryExtends(input, offs, key, dict[key])} :: key in dict ==>
        EntryExtends(input, offs, key, dict[key])
  }

  /** `cur` stands for the text between the last offset and `pos`. */
  ghost predicate Pending(input: seq<byte>, offs: seq<nat>, pos: nat, cur: nat) {
    && offs != [] && offs[|offs| - 1] < pos <= |input|
    && cur < 255 + |offs|
    && Word(input, offs, cur) == input[offs[|offs| - 1]..pos]
  }

  // ---- Longest words ----

  /** No word that is known when piece i is cut fits better. */
  ghost predicate LongestAt(input: seq<byte>, offs: seq<nat>, i: nat)
    requires i + 1 < |offs|
  {
    forall c: nat {:trigger Word(input, offs, c)} ::
      c < 256 + i && offs[i] <= |input| && Word(input, offs, c) <= input[offs[i]..] ==>
        offs[i] + |Word(input, offs, c)| <= offs[i + 1]
  }

  /** Every piece is the longest word that is known when it is cut. */
  ghost predicate Greedy(input: seq<byte>, offs: seq<nat>) {
    forall i {:trigger LongestAt(input, offs, i)} :: 0 <= i < |offs| - 1 ==> LongestAt(input, offs, i)
  }

  lemma GreedyStep(input: seq<byte>, offs: seq<nat>, pos: nat)
    requires Greedy(input, offs) && offs != []
    requires forall c: nat {:trigger Word(input, offs, c)} ::
               c < 255 + |offs| && offs[|offs| - 1] <= |input| && Word(input, offs, c) <= input[offs[|offs| - 1]..] ==>
                 offs[|offs| - 1] + |Word(input, offs, c)| <= pos
    ensures Greedy(input, offs + [pos])
  {
    var offs' := offs + [pos];
    forall i | 0 <= i < |offs'| - 1 ensures LongestAt(input, offs', i) {
      if i < |offs| - 1 {
        assert LongestAt(input, offs, i);
      }
      forall c: nat | c < 256 + i ensures Word(input, offs', c) == Word(input, offs, c) {
        WordStable(input, offs, pos, c);
      }
    }
  }

  lemma {:induction false} OffsetsUpTo(text: seq<byte>, codes: seq<nat>, offs: seq<nat>, j: nat, k: nat)
    requires PiecesSpell(text, codes, offs) && j <= k <= |codes|
    ensures offs[j] <= offs[k] && (j < k ==> offs[j] < offs[k] <= |text|)
    decreases k - j
  {
    if j < k {
      assert PieceIs(text, codes, offs, k - 1);
      OffsetsUpTo(text, codes, offs, j, k - 1);
    }
  }

  /** A word is a piece and the byte behind it, so a greedy cut brings in no word twice. */
  lemma NewWord(input: seq<byte>, codes: seq<nat>, offs: seq<nat>, c: nat, d: nat)
    requires PiecesSpell(input, codes, offs) && Greedy(input, offs) && offs[|codes|] < |input|
    requires c < d < 255 + |offs|
    ensures Word(input, offs, c) != Word(input, offs, d)
  {
    if d >= 256 {
      var k := d - 255;
      OffsetsUpTo(input, codes, offs, k, |codes|);
      OffsetsUpTo(input, codes, offs, k - 1, k);
      assert LongestAt(input, offs, k - 1);
      assert Word(input, offs, d) == input[offs[k - 1]..][..offs[k] + 1 - offs[k - 1]];
    }
  }

  lemma WordsDiffer(input: seq<byte>, codes: seq<nat>, offs: seq<nat>, c: nat, d: nat)
    requires PiecesSpell(input, codes, offs) && Greedy(input, offs) && offs[|codes|] < |input|
    requires c < 255 + |offs| && d < 255 + |offs| && Word(input, offs, c) == Word(input, offs, d)
    ensures c == d
  {
    if c < d {
      NewWord(input, codes, offs, c, d);
    } else if d < c {
      NewWord(input, codes, offs, d, c);
    }
  }

  ghost predicate HasEntry(dict: map<nat, nat>, c: nat) {
    exists key :: key in dict && dict[key] == c
  }

  /** Every code has an entry. */
  ghost predicate Complete(dict: map<nat, nat>) {
    forall c: nat {:trigger HasEntry(dict, c)} :: 256 <= c < 256 + |dict| ==> HasEntry(dict, c)
  }

  lemma CompleteStep(dict: map<nat, nat>, key: nat)
    requires Complete(dict) && key !in dict
    ensures Complete(dict[key := 256 + |dict|])
  {
    var dict' := dict[key := 256 + |dict|];
    forall c: nat | 256 <= c < 256 + |dict'| ensures HasEntry(dict', c) {
      if c < 256 + |dict| {
        assert HasEntry(dict, c);
        var k :| k in dict && dict[k] == c;
        assert k in dict' && dict'[k] == c;
      } else {
        assert key in dict' && dict'[key] == c;
      }
    }
  }

  /** All beginnings of a known word are known. */
  lemma {:induction false} BeginningIsKnown(input: seq<byte>, offs: seq<nat>, dict: map<nat, nat>, c: nat, n: nat)
      returns (d: nat)
    requires EntriesExtend(input, offs, dict) && Complete(dict) && 256 + |dict| == 255 + |offs|
    requires c < 255 + |offs| && 1 <= n <= |Word(input, offs, c)|
    ensures d < 255 + |offs| && Word(input, offs, d) == Word(input, offs, c)[..n]
    decreases |Word(input, offs, c)|
  {
    var word := Word(input, offs, c);
    if n == |word| {
      d := c;
      assert word[..n] == word;
    } else {
      assert HasEntry(dict, c);
      var key :| key in dict && dict[key] == c;
      assert EntryExtends(input, offs, key, c);
      d := BeginningIsKnown(input, offs, dict, key / 256, n);
      assert word[..n] == Word(input, offs, key / 256)[..n];
    }
  }

  /** Where a known word reaches further than the pending code, the compressor has an entry to follow. */
  lemma LongerIsFollowed(input: seq<byte>, codes: seq<nat>, offs: seq<nat>, pos: nat, cur: nat, dict: map<nat, nat>,
      c: nat)
    requires Compressing(input, codes, offs, pos, cur, dict) && pos < |input|
    requires c < 255 + |offs| && Word(input, offs, c) <= input[offs[|offs| - 1]..]
             && offs[|offs| - 1] + |Word(input, offs, c)| > pos
    ensures cur * 256 + input[pos] in dict
  {
    var from := offs[|offs| - 1];
    var d := BeginningIsKnown(input, offs, dict, c, pos - from + 1);
    assert Word(input, offs, d) == input[from..][..pos - from + 1] == input[from..pos] + [input[pos]];
    assert d >= 256 && HasEntry(dict, d);
    var key :| key in dict && dict[key] == d;
    assert EntryExtends(input, offs, key, d);
    SameEnds(Word(input, offs, key / 256), key % 256, input[from..pos], input[pos]);
    WordsDiffer(input, codes, offs, key / 256, cur);
    assert key == cur * 256 + input[pos];
  }

  lemma SameEnds(a: seq<byte>, x: byte, b: seq<byte>, y: byte)
    requires a + [x] == b + [y]
    ensures a == b && x == y
  {
    assert a == (a + [x])[..|a|] && b == (b + [y])[..|b|];
    assert x == (a + [x])[|a|] && y == (b + [y])[|b|];
  }

  /** Where it has none, no known word reaches further. */
  lemma NothingLonger(input: seq<byte>, codes: seq<nat>, offs: seq<nat>, pos: nat, cur: nat, dict: map<nat, nat>,
      c: nat)
    requires Compressing(input, codes, offs, pos, cur, dict) && pos < |input| && cur * 256 + input[pos] !in dict
    requires c < 255 + |offs| && Word(input, offs, c) <= input[offs[|offs| - 1]..]
    ensures offs[|offs| - 1] + |Word(input, offs, c)| <= pos
  {
    if offs[|offs| - 1] + |Word(input, offs, c)| > pos {
      LongerIsFollowed(input, codes, offs, pos, cur, dict, c);
    }
  }

  /** The state of the compressor: `codes` are written, `cur` stands for the
      text since the last offset and every dictionary entry extends a word. */
  ghost predicate Compressing(input: seq<byte>, codes: seq<nat>, offs: seq<nat>, pos: nat, cur: nat,
      dict: map<nat, nat>) {
    && PiecesSpell(input, codes, offs) && offs[0] == 0
    && Pending(input, offs, pos, cur)
    && EntriesExtend(input, offs, dict) && |dict| == |codes|
    && Greedy(input, offs) && Complete(dict)
  }

  /** Later offsets do not change the words of earlier codes. */
  lemma WordStable(input: seq<byte>, offs: seq<nat>, more: nat, code: nat)
    requires code < 255 + |offs|
    ensures Word(input, offs + [more], code) == Word(input, offs, code)
  {
  }

  lemma PieceStep(input: seq<byte>, codes: seq<nat>, offs: seq<nat>, pos: nat, cur: nat)
    requires PiecesSpell(input, codes, offs) && Pending(input, offs, pos, cur)
    ensures PiecesSpell(input, codes + [cur], offs + [pos])
  {
    var codes', offs' := codes + [cur], offs + [pos];
    forall i | 0 <= i < |codes'| ensures PieceIs(input, codes', offs', i) {
      if i < |codes| {
        assert PieceIs(input, codes, offs, i);
      }
      WordStable(input, offs, pos, codes'[i]);
    }
  }

  lemma EntryStep(input: seq<byte>, offs: seq<nat>, pos: nat, cur: nat, dict: map<nat, nat>, key: nat)
    requires Pending(input, offs, pos, cur) && EntriesExtend(input, offs, dict)
    requires pos < |input| && key / 256 == cur && key % 256 == input[pos]
    ensures EntriesExtend(input, offs + [pos], dict[key := 255 + |offs|])
  {
    var offs', dict' := offs + [pos], dict[key := 255 + |offs|];
    forall k | k in dict' ensures EntryExtends(input, offs', k, dict'[k]) {
      if k == key {
        WordStable(input, offs, pos, cur);
        var from := offs[|offs| - 1];
        assert Word(input, offs', 255 + |offs|) == input[from..pos + 1];
        assert input[from..pos + 1] == input[from..pos] + [input[pos]];
      } else {
        assert EntryExtends(input, offs, k, dict[k]);
        WordStable(input, offs, pos, dict[k]);
        WordStable(input, offs, pos, k / 256);
      }
    }
  }

  lemma FreshPending(input: seq<byte>, offs: seq<nat>, pos: nat)
    requires pos < |input|
    ensures Pending(input, offs + [pos], pos + 1, input[pos])
  {
    assert input[pos..pos + 1] == [input[pos]];
  }

  /** Following a dictionary entry extends the pending prefix by one symbol. */
  lemma FollowStep(input: seq<byte>, offs: seq<nat>, pos: nat, cur: nat, dict: map<nat, nat>, key: nat)
    requires Pending(input, offs, pos, cur) && EntriesExtend(input, offs, dict)
    requires pos < |input| && key in dict && key / 256 == cur && key % 256 == input[pos]
    ensures Pending(input, offs, pos + 1, dict[key])
  {
    assert EntryExtends(input, offs, key, dict[key]);
    var from := offs[|offs| - 1];
    assert input[from..pos + 1] == input[from..pos] + [input[pos]];
  }

  /** Writing the pending code starts a new piece and a new dictionary entry. */
  lemma WriteStep(input: seq<byte>, codes: seq<nat>, offs: seq<nat>, pos: nat, cur: nat, dict: map<nat, nat>, key: nat)
    requires Compressing(input, codes, offs, pos, cur, dict) && pos < |input|
    requires key == cur * 256 + input[pos] && key !in dict
    ensures Compressing(input, codes + [cur], offs + [pos], pos + 1, input[pos], dict[key := 256 + |dict|])
  {
    PackedKey(cur, input[pos]);
    PieceStep(input, codes, offs, pos, cur);
    forall c: nat | c < 255 + |offs| && Word(input, offs, c) <= input[offs[|offs| - 1]..]
      ensures offs[|offs| - 1] + |Word(input, offs, c)| <= pos
    {
      NothingLonger(input, codes, offs, pos, cur, dict, c);
    }
    GreedyStep(input, offs, pos);
    CompleteStep(dict, key);
    EntryStep(input, offs, pos, cur, dict, key);
    FreshPending(input, offs, pos);
  }

  /** From any state of the compressor, the codes written so far and those still
      to come spell the text. */
  lemma {:induction false} CodesFromSpell(input: seq<byte>, codes: seq<nat>, offs: seq<nat>, pos: nat, cur: nat,
                                          dict: map<nat, nat>, total: seq<nat>)
    returns (all: seq<nat>)
    requires Compressing(input, codes, offs, pos, cur, dict)
    requires total == codes + CodesFrom(input, pos, cur, dict)
    ensures Spells(input, total, all) && Greedy(input, all)
    decreases |input| - pos
  {
    if pos == |input| {
      all := offs + [pos];
      PieceStep(input, codes, offs, pos, cur);
      GreedyStep(input, offs, pos);
    } else {
      var key := cur * 256 + input[pos];
      PackedKey(cur, input[pos]);
      if key in dict {
        FollowStep(input, offs, pos, cur, dict, key);
        CodesFromFollow(input, pos, cur, dict);
        all := CodesFromSpell(input, codes, offs, pos + 1, dict[key], dict, total);
      } else {
        WriteStep(input, codes, offs, pos, cur, dict, key);
        CodesFromWrite(input, pos, cur, dict, codes);
        all := CodesFromSpell(input, codes + [cur], offs + [pos], pos + 1, input[pos], dict[key := 256 + |dict|],
          total);
      }
    }
  }

  lemma PackedKey(cur: nat, symbol: byte)
    ensures (cur * 256 + symbol) / 256 == cur && (cur * 256 + symbol) % 256 == symbol
  {
  }

  /** Every text is spelled by the codes the compressor chooses for it, with the longest word every time. */
  lemma CodesSpell(input: seq<byte>) returns (offs: seq<nat>)
    requires input != []
    ensures Spells(input, Codes(input), offs) && Greedy(input, offs)
  {
    assert input[0..1] == [input[0]];
    offs := CodesFromSpell(input, [], [0], 1, input[0], map[], Codes(input));
  }

  // ---- There is one greedy way ----

  /** Up to the i-th piece both cuts agree, so the words known there are the same. */
  lemma SameWords(input: seq<byte>, offs: seq<nat>, offs': seq<nat>, i: nat, c: nat)
    requires i < |offs| && i < |offs'| && offs[..i + 1] == offs'[..i + 1] && c < 256 + i
    ensures Word(input, offs, c) == Word(input, offs', c)
  {
    assert forall k :: 0 <= k <= i ==> offs[k] == offs[..i + 1][k] && offs'[k] == offs'[..i + 1][k];
  }

  lemma PieceIsKnownWord(input: seq<byte>, codes: seq<nat>, offs: seq<nat>, i: nat)
    requires Spells(input, codes, offs) && i < |codes|
    ensures offs[i] < offs[i + 1] <= |input| && codes[i] < 256 + i
    ensures Word(input, offs, codes[i]) <= input[offs[i]..] && |Word(input, offs, codes[i])| == offs[i + 1] - offs[i]
  {
    assert PieceIs(input, codes, offs, i);
    assert input[offs[i]..offs[i + 1]] == input[offs[i]..][..offs[i + 1] - offs[i]];
  }

  /** The cut up to a piece spells what comes before it. */
  lemma SpelledSoFar(input: seq<byte>, codes: seq<nat>, offs: seq<nat>, i: nat)
    requires Spells(input, codes, offs) && Greedy(input, offs) && i < |codes|
    ensures PiecesSpell(input, codes[..i], offs[..i + 1]) && Greedy(input, offs[..i + 1]) && offs[i] < |input|
  {
    assert PieceIs(input, codes, offs, i);
    var before := offs[..i + 1];
    forall k | 0 <= k < i ensures PieceIs(input, codes[..i], before, k) && LongestAt(input, before, k) {
      assert PieceIs(input, codes, offs, k) && LongestAt(input, offs, k);
      forall c: nat | c < 256 + k ensures Word(input, before, c) == Word(input, offs, c) {
        SameWords(input, before, offs, k, c);
      }
      SameWords(input, before, offs, k, codes[k]);
    }
  }

  lemma SamePiece(input: seq<byte>, codes: seq<nat>, offs: seq<nat>, codes': seq<nat>, offs': seq<nat>, i: nat)
    requires Spells(input, codes, offs) && Greedy(input, offs) && Spells(input, codes', offs') && Greedy(input, offs')
    requires i < |codes| && i < |codes'| && offs[..i + 1] == offs'[..i + 1]
    ensures codes[i] == codes'[i] && offs[i + 1] == offs'[i + 1]
  {
    assert offs[i] == offs[..i + 1][i] == offs'[i];
    PieceIsKnownWord(input, codes, offs, i);
    PieceIsKnownWord(input, codes', offs', i);
    SameWords(input, offs, offs', i, codes[i]);
    SameWords(input, offs, offs', i, codes'[i]);
    assert LongestAt(input, offs, i) && LongestAt(input, offs', i);
    SpelledSoFar(input, codes, offs, i);
    SameWords(input, offs, offs[..i + 1], i, codes[i]);
    SameWords(input, offs, offs[..i + 1], i, codes'[i]);
    WordsDiffer(input, codes[..i], offs[..i + 1], codes[i], codes'[i]);
  }

  /** Only one sequence of codes spells a text with the longest word every time. */
  lemma {:induction false} GreedyIsUnique(input: seq<byte>, codes: seq<nat>, offs: seq<nat>, codes': seq<nat>,
      offs': seq<nat>, i: nat)
    requires Spells(input, codes, offs) && Greedy(input, offs) && Spells(input, codes', offs') && Greedy(input, offs')
    requires i <= |codes| && i <= |codes'| && codes[..i] == codes'[..i] && offs[..i + 1] == offs'[..i + 1]
    ensures codes == codes' && offs == offs'
    decreases |codes| - i
  {
    assert offs[i] == offs[..i + 1][i] == offs'[i];
    if i < |codes| && i < |codes'| {
      SamePiece(input, codes, offs, codes', offs', i);
      assert codes[..i + 1] == codes[..i] + [codes[i]] && offs[..i + 2] == offs[..i + 1] + [offs[i + 1]];
      GreedyIsUnique(input, codes, offs, codes', offs', i + 1);
    } else {
      EndsTogether(input, codes, offs, i);
      EndsTogether(input, codes', offs', i);
    }
  }

  lemma EndsTogether(input: seq<byte>, codes: seq<nat>, offs: seq<nat>, i: nat)
    requires Spells(input, codes, offs) && i <= |codes|
    ensures offs[i] == |input| <==> i == |codes|
    ensures i == |codes| ==> codes[..i] == codes && offs[..i + 1] == offs
  {
    OffsetsUpTo(input, codes, offs, i, |codes|);
  }

  /** The codes of a text are the only ones that spell it with the longest word every time. */
  lemma CodesAreGreedy(input: seq<byte>, codes: seq<nat>, offs: seq<nat>)
    requires input != [] && Spells(input, codes, offs) && Greedy(input, offs)
    ensures codes == Codes(input)
  {
    var chosen := CodesSpell(input);
    assert offs[..1] == [0] == chosen[..1];
    GreedyIsUnique(input, codes, offs, Codes(input), chosen, 0);
  }
}
