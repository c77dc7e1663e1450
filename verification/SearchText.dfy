/** What searching and replacing means on texts: naive leftmost replacement, and
    the one way in which the streaming automaton departs from it. */
module SearchText {
  import opened Arithmetic

  type Text = seq<byte>

  /** u is the start of some needle, or empty. These are the states of the automaton. */
  ghost predicate Starts(needles: seq<Text>, u: Text) {
    u == [] || exists i :: 0 <= i < |needles| && u <= needles[i]
  }

  ghost predicate OccursAt(x: Text, s: Text, q: nat) {
    q + |x| <= |s| && s[q..q + |x|] == x
  }

  ghost predicate Occurs(x: Text, s: Text) {
    exists q: nat :: OccursAt(x, s, q)
  }

  /** No needle is empty and none lies within another. */
  ghost predicate Independent(needles: seq<Text>) {
    && (forall i :: 0 <= i < |needles| ==> needles[i] != [])
    && (forall i, j :: 0 <= i < |needles| && 0 <= j < |needles| && Occurs(needles[i], needles[j]) ==> i == j)
  }

  // ---- Naive replacement ----

  function FirstMatch(needles: seq<Text>, s: Text, from: nat): (i: nat)
    requires from <= |needles|
    ensures from <= i <= |needles|
    ensures i < |needles| ==> needles[i] <= s
    ensures forall k :: from <= k < i ==> !(needles[k] <= s)
    decreases |needles| - from
  {
    if from == |needles| || needles[from] <= s then from else FirstMatch(needles, s, from + 1)
  }

  /** The text with leftmost, non-overlapping occurrences of needles replaced:
      copy a byte unless a needle starts at it. */
  function Replaced(needles: seq<Text>, replacements: seq<Text>, s: Text): (r: Text)
    requires |needles| <= |replacements| && forall i :: 0 <= i < |needles| ==> needles[i] != []
    decreases |s|
  {
    if s == [] then []
    else
      var i := FirstMatch(needles, s, 0);
      if i < |needles| then replacements[i] + Replaced(needles, replacements, s[|needles[i]|..])
      else [s[0]] + Replaced(needles, replacements, s[1..])
  }

  // ---- What the automaton writes ----

  /** No suffix of u that includes its last byte starts a needle. */
  ghost predicate Exposed(needles: seq<Text>, u: Text) {
    u != [] && forall q :: 0 <= q < |u| ==> !Starts(needles, u[q..])
  }

  /** A gap between matches as the automaton writes it: a zero byte that starts
      no needle, alone or with the bytes before it, is lost. */
  ghost function Kept(needles: seq<Text>, gap: Text): (r: Text) {
    if gap == [] then []
    else
      var n := |gap| - 1;
      Kept(needles, gap[..n]) + (if gap[n] == 0 && Exposed(needles, gap) then [] else [gap[n]])
  }

  /** Naive replacement of `s` behind a gap already read, with gaps written as Kept. */
  ghost function Written(needles: seq<Text>, replacements: seq<Text>, gap: Text, s: Text): (r: Text)
    requires |needles| <= |replacements| && forall i :: 0 <= i < |needles| ==> needles[i] != []
    decreases |s|
  {
    if s == [] then Kept(needles, gap)
    else
      var i := FirstMatch(needles, s, 0);
      if i < |needles| then
        Kept(needles, gap) + replacements[i] + Written(needles, replacements, [], s[|needles[i]|..])
      else Written(needles, replacements, gap + [s[0]], s[1..])
  }

  /** No byte of the text is lost: no gap has a zero byte that is exposed in it. */
  ghost predicate Lossless(needles: seq<Text>, gap: Text, s: Text)
    requires forall i :: 0 <= i < |needles| ==> needles[i] != []
    decreases |s|
  {
    if s == [] then true
    else
      var i := FirstMatch(needles, s, 0);
      if i < |needles| then Lossless(needles, [], s[|needles[i]|..])
      else !(s[0] == 0 && Exposed(needles, gap + [s[0]])) && Lossless(needles, gap + [s[0]], s[1..])
  }

  // ---- When the two agree ----

  lemma KeptSnoc(needles: seq<Text>, gap: Text, b: byte)
    ensures Kept(needles, gap + [b]) == Kept(needles, gap) + (if b == 0 && Exposed(needles, gap + [b]) then [] else [b])
  {
    assert (gap + [b])[..|gap|] == gap;
  }

  lemma {:induction false} WrittenBehindGap(needles: seq<Text>, replacements: seq<Text>, gap: Text, s: Text)
    requires |needles| <= |replacements| && forall i :: 0 <= i < |needles| ==> needles[i] != []
    ensures Lossless(needles, gap, s) ==>
              Written(needles, replacements, gap, s) == Kept(needles, gap) + Replaced(needles, replacements, s)
    ensures !Lossless(needles, gap, s) ==>
              |Written(needles, replacements, gap, s)| < |Kept(needles, gap)| + |Replaced(needles, replacements, s)|
    ensures |Written(needles, replacements, gap, s)| <= |Kept(needles, gap)| + |Replaced(needles, replacements, s)|
    decreases |s|
  {
    if s != [] {
      var i := FirstMatch(needles, s, 0);
      if i < |needles| {
        WrittenBehindGap(needles, replacements, [], s[|needles[i]|..]);
      } else {
        KeptSnoc(needles, gap, s[0]);
        WrittenBehindGap(needles, replacements, gap + [s[0]], s[1..]);
      }
    }
  }

  /** What the automaton writes is the naive replacement exactly when no byte is lost. */
  lemma WrittenIsReplacedIff(needles: seq<Text>, replacements: seq<Text>, s: Text)
    requires |needles| <= |replacements| && forall i :: 0 <= i < |needles| ==> needles[i] != []
    ensures Written(needles, replacements, [], s) == Replaced(needles, replacements, s) <==> Lossless(needles, [], s)
  {
    WrittenBehindGap(needles, replacements, [], s);
  }

  /** Nothing is lost when the text has no zero byte, or when a needle begins with one. */
  lemma {:induction false} LosslessWhen(needles: seq<Text>, gap: Text, s: Text)
    requires forall i :: 0 <= i < |needles| ==> needles[i] != []
    requires 0 !in s || exists i :: 0 <= i < |needles| && needles[i][0] == 0
    ensures Lossless(needles, gap, s)
    decreases |s|
  {
    if s != [] {
      var i := FirstMatch(needles, s, 0);
      if i < |needles| {
        LosslessWhen(needles, [], s[|needles[i]|..]);
      } else {
        var u := gap + [s[0]];
        if s[0] == 0 {
          var k :| 0 <= k < |needles| && needles[k][0] == 0;
          assert u[|gap|..] == [0] <= needles[k];
        }
        LosslessWhen(needles, u, s[1..]);
      }
    }
  }

  lemma ZeroIsExposed(needles: seq<Text>)
    requires forall i :: 0 <= i < |needles| ==> needles[i] != [] && needles[i][0] != 0
    ensures Exposed(needles, [0]) && FirstMatch(needles, [0], 0) == |needles|
  {
    var u: Text := [0];
    assert u[0..] == u && u[0] == 0;
  }

  /** The departure is real: whenever no needle begins with a zero byte, a lone zero byte vanishes. (Without needles
      it makes the code fail instead.) */
  lemma ZeroByteIsLost(needles: seq<Text>, replacements: seq<Text>)
    requires |needles| <= |replacements|
    requires forall i :: 0 <= i < |needles| ==> needles[i] != [] && needles[i][0] != 0
    ensures Replaced(needles, replacements, [0]) == [0] && Written(needles, replacements, [], [0]) == []
  {
    var s: Text := [0];
    ZeroIsExposed(needles);
    KeptSnoc(needles, [], 0);
    assert [] + s == s && s[1..] == [];
    assert Written(needles, replacements, s, []) == Kept(needles, s);
  }

  /** Needles with which nothing is ever lost, on any text: exactly those of which one begins with a zero byte. */
  lemma AlwaysLosslessIff(needles: seq<Text>)
    requires forall i :: 0 <= i < |needles| ==> needles[i] != []
    ensures (forall s: Text :: Lossless(needles, [], s)) <==> exists i :: 0 <= i < |needles| && needles[i][0] == 0
  {
    if exists i :: 0 <= i < |needles| && needles[i][0] == 0 {
      forall s: Text ensures Lossless(needles, [], s) {
        LosslessWhen(needles, [], s);
      }
    } else {
      ZeroByteIsLost(needles, needles);
      WrittenIsReplacedIff(needles, needles, [0]);
      assert !Lossless(needles, [], [0]);
    }
  }

  // ---- The state the automaton is in ----

  /** w[q..] is the longest suffix of w that starts a needle. */
  ghost predicate Longest(needles: seq<Text>, w: Text, q: nat) {
    q <= |w| && Starts(needles, w[q..]) && forall p :: 0 <= p < q ==> !Starts(needles, w[p..])
  }

  ghost predicate NoNeedle(needles: seq<Text>, w: Text) {
    forall i :: 0 <= i < |needles| ==> !Occurs(needles[i], w)
  }

  lemma StartsPrefix(needles: seq<Text>, u: Text, v: Text)
    requires Starts(needles, v) && u <= v
    ensures Starts(needles, u)
  {
    if v != [] {
      var i :| 0 <= i < |needles| && v <= needles[i];
      assert u <= needles[i];
    }
  }

  /** Bytes that are part of a possible match are never lost. */
  lemma {:induction false} KeptSuffix(needles: seq<Text>, w: Text, q: nat)
    requires q <= |w| && Starts(needles, w[q..])
    ensures Kept(needles, w) == Kept(needles, w[..q]) + w[q..]
    decreases |w|
  {
    if q == |w| {
      assert w[..q] == w;
    } else {
      var n := |w| - 1;
      assert w[..n][q..] == w[q..n] <= w[q..];
      StartsPrefix(needles, w[q..n], w[q..]);
      KeptSuffix(needles, w[..n], q);
      assert w[..n][..q] == w[..q];
      assert !Exposed(needles, w);
      assert w[q..] == w[q..n] + [w[n]];
    }
  }

  /** Moving the start of the possible match forward releases the bytes in between. */
  lemma KeptRelease(needles: seq<Text>, w: Text, q: nat, q': nat)
    requires q <= q' <= |w| && Starts(needles, w[q..]) && Starts(needles, w[q'..])
    ensures Kept(needles, w[..q']) == Kept(needles, w[..q]) + w[q..q']
  {
    assert w[..q'][q..] == w[q..q'] <= w[q..];
    StartsPrefix(needles, w[q..q'], w[q..]);
    KeptSuffix(needles, w[..q'], q);
    assert w[..q'][..q] == w[..q];
  }

  // ---- Matching steps ----

  lemma NoMatchHere(needles: seq<Text>, s: Text)
    requires forall i :: 0 <= i < |needles| ==> !(needles[i] <= s)
    ensures FirstMatch(needles, s, 0) == |needles|
  {
  }

  /** Bytes at which no needle starts join the gap. */
  lemma {:induction false} SkipGap(needles: seq<Text>, replacements: seq<Text>, gap: Text, s: Text, k: nat)
    requires |needles| <= |replacements| && forall i :: 0 <= i < |needles| ==> needles[i] != []
    requires k <= |s|
    requires forall p, i :: 0 <= p < k && 0 <= i < |needles| ==> !(needles[i] <= s[p..])
    ensures Written(needles, replacements, gap, s) == Written(needles, replacements, gap + s[..k], s[k..])
    decreases k
  {
    if k == 0 {
      assert gap + s[..0] == gap && s[0..] == s;
    } else {
      assert s[0..] == s;
      NoMatchHere(needles, s);
      forall p, i | 0 <= p < k - 1 && 0 <= i < |needles| ensures !(needles[i] <= s[1..][p..]) {
        assert s[1..][p..] == s[p + 1..];
      }
      SkipGap(needles, replacements, gap + [s[0]], s[1..], k - 1);
      assert gap + [s[0]] + s[1..][..k - 1] == gap + s[..k];
      assert s[1..][k - 1..] == s[k..];
    }
  }

  /** Text that reaches past the end of u begins with what is left of u. */
  lemma Overhang(u: Text, rest: Text, x: Text, p: nat)
    requires p <= |u| <= p + |x| && x <= (u + rest)[p..]
    ensures u[p..] <= x
  {
    assert u[p..] == (u + rest)[p..][..|u| - p];
  }

  lemma PrefixOccurs(x: Text, y: Text, s: Text)
    requires x <= s && y <= s && |x| <= |y|
    ensures Occurs(x, y)
  {
    assert y[0..|x|] == s[..|x|];
    assert OccursAt(x, y, 0);
  }

  /** No needle starts before the longest suffix that is still in play, whatever follows. */
  lemma NoneStartsEarlier(needles: seq<Text>, w: Text, a: byte, q: nat, rest: Text, p: nat, i: nat)
    requires NoNeedle(needles, w) && Longest(needles, w + [a], q)
    requires p < q && i < |needles|
    ensures !(needles[i] <= (w + [a] + rest)[p..])
  {
    var u, x := w + [a], needles[i];
    var s := u + rest;
    if x <= s[p..] {
      if p + |x| <= |w| {
        assert w[p..p + |x|] == s[p..][..|x|] == x;
        assert OccursAt(x, w, p);
      } else {
        Overhang(u, rest, x, p);
      }
    }
  }

  lemma UniqueMatch(needles: seq<Text>, i: nat, rest: Text)
    requires Independent(needles) && i < |needles|
    ensures FirstMatch(needles, needles[i] + rest, 0) == i
  {
    var s := needles[i] + rest;
    assert needles[i] <= s;
    var k := FirstMatch(needles, s, 0);
    if |needles[k]| <= |needles[i]| {
      PrefixOccurs(needles[k], needles[i], s);
    } else {
      PrefixOccurs(needles[i], needles[k], s);
    }
  }

  /** A completed needle is the next match of the naive scan. */
  lemma MatchIsNext(needles: seq<Text>, replacements: seq<Text>, w: Text, a: byte, q: nat, i: nat, rest: Text)
    requires Independent(needles) && |needles| <= |replacements|
    requires NoNeedle(needles, w) && Longest(needles, w + [a], q)
    requires i < |needles| && (w + [a])[q..] == needles[i]
    ensures Written(needles, replacements, [], w + [a] + rest) ==
            Kept(needles, (w + [a])[..q]) + replacements[i] + Written(needles, replacements, [], rest)
  {
    var u := w + [a];
    var s := u + rest;
    forall p, k | 0 <= p < q && 0 <= k < |needles| ensures !(needles[k] <= s[p..]) {
      NoneStartsEarlier(needles, w, a, q, rest, p, k);
    }
    SkipGap(needles, replacements, [], s, q);
    SplitAt(u, rest, q);
    ReplaceHere(needles, replacements, u[..q], i, rest);
  }

  lemma SplitAt(u: Text, rest: Text, q: nat)
    requires q <= |u|
    ensures [] + (u + rest)[..q] == u[..q] && (u + rest)[q..] == u[q..] + rest
  {
  }

  lemma ReplaceHere(needles: seq<Text>, replacements: seq<Text>, gap: Text, i: nat, rest: Text)
    requires Independent(needles) && |needles| <= |replacements| && i < |needles|
    ensures Written(needles, replacements, gap, needles[i] + rest) ==
            Kept(needles, gap) + replacements[i] + Written(needles, replacements, [], rest)
  {
    UniqueMatch(needles, i, rest);
    assert (needles[i] + rest)[|needles[i]|..] == rest;
  }

  lemma PrefixOfRest(x: Text, w: Text, p: nat)
    requires p <= |w|
    ensures x <= w[p..] <==> OccursAt(x, w, p)
  {
    if p + |x| <= |w| {
      assert w[p..][..|x|] == w[p..p + |x|];
    }
  }

  /** Text without a needle is written as one gap. */
  lemma EndOfText(needles: seq<Text>, replacements: seq<Text>, w: Text)
    requires |needles| <= |replacements| && forall i :: 0 <= i < |needles| ==> needles[i] != []
    requires NoNeedle(needles, w)
    ensures Written(needles, replacements, [], w) == Kept(needles, w)
  {
    forall p, i | 0 <= p < |w| && 0 <= i < |needles| ensures !(needles[i] <= w[p..]) {
      PrefixOfRest(needles[i], w, p);
    }
    SkipGap(needles, replacements, [], w, |w|);
    assert [] + w[..|w|] == w && w[|w|..] == [];
  }

  /** Reading a byte without completing a needle leaves no needle in the text read. */
  lemma StillNoNeedle(needles: seq<Text>, w: Text, a: byte, q: nat)
    requires Independent(needles) && NoNeedle(needles, w) && Longest(needles, w + [a], q)
    requires forall i :: 0 <= i < |needles| ==> (w + [a])[q..] != needles[i]
    ensures NoNeedle(needles, w + [a])
  {
    var u := w + [a];
    forall i | 0 <= i < |needles| ensures !Occurs(needles[i], u) {
      var x := needles[i];
      if Occurs(x, u) {
        var p: nat :| OccursAt(x, u, p);
        if p + |x| <= |w| {
          assert w[p..p + |x|] == u[p..p + |x|];
          assert OccursAt(x, w, p);
        } else {
          assert u[p..] == x;
          assert Starts(needles, u[p..]);
          assert q < p;
          var k :| 0 <= k < |needles| && u[q..] <= needles[k];
          assert needles[k][p - q..p - q + |x|] == u[q..][p - q..] == u[p..];
          assert OccursAt(x, needles[k], p - q);
          assert false;
        }
      }
    }
  }
}
