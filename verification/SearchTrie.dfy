/** The trie behind the search automaton: states as texts, edges as a map from
    state * 256 + symbol to the next state. */
module SearchTrie {
  import opened Arithmetic
  import opened SearchText

  ghost predicate Distinct(texts: seq<Text>) {
    forall s, t :: 0 <= s < |texts| && 0 <= t < |texts| && texts[s] == texts[t] ==> s == t
  }

  ghost predicate EdgeAt(known: seq<Text>, texts: seq<Text>, edges: map<nat, nat>, s: nat, b: byte)
    requires s < |texts|
  {
    var key := s * 256 + b;
    if key in edges then 0 < edges[key] < |texts| && texts[edges[key]] == texts[s] + [b]
    else !Starts(known, texts[s] + [b])
  }

  ghost predicate Edges(known: seq<Text>, texts: seq<Text>, edges: map<nat, nat>) {
    forall s: nat, b: byte {:trigger EdgeAt(known, texts, edges, s, b)} :: s < |texts| ==>
        EdgeAt(known, texts, edges, s, b)
  }

  ghost predicate AllStart(known: seq<Text>, texts: seq<Text>) {
    forall s :: 0 <= s < |texts| ==> Starts(known, texts[s])
  }

  ghost predicate KeysBelow(edges: map<nat, nat>, n: nat) {
    forall key :: key in edges ==> key < 256 * n
  }

  /** The states are exactly the starts of the known texts, each once, and the edges join them. */
  ghost predicate Trie(known: seq<Text>, texts: seq<Text>, edges: map<nat, nat>) {
    var whole :=
      && |texts| > 0 && texts[0] == []
      && Distinct(texts) && AllStart(known, texts) && Edges(known, texts, edges)
      && KeysBelow(edges, |texts|) && |edges| == |texts| - 1;
    whole
  }

  lemma EmptyTrie()
    ensures Trie([], [[]], map[])
  {
  }

  lemma StartsKnown(known: seq<Text>, x: Text, u: Text)
    ensures Starts(known + [x], u) <==> Starts(known, u) || u <= x
  {
    if u != [] {
      if Starts(known, u) {
        var i :| 0 <= i < |known| && u <= known[i];
        assert (known + [x])[i] == known[i];
      }
      if u <= x {
        assert (known + [x])[|known|] == x;
      }
    }
  }

  /** Naming the text of an existing state does not change the trie. */
  lemma NameExisting(known: seq<Text>, texts: seq<Text>, edges: map<nat, nat>, x: Text)
    requires Trie(known, texts, edges) && Starts(known, x)
    ensures Trie(known + [x], texts, edges)
  {
    forall s | 0 <= s < |texts| ensures Starts(known + [x], texts[s]) {
      StartsKnown(known, x, texts[s]);
    }
    forall s: nat, b: byte | s < |texts| ensures EdgeAt(known + [x], texts, edges, s, b) {
      assert EdgeAt(known, texts, edges, s, b);
      StartsKnown(known, x, texts[s] + [b]);
      if texts[s] + [b] <= x {
        StartsPrefix(known, texts[s] + [b], x);
      }
    }
  }

  /** The state of a text lacks an edge that would spell something new. */
  lemma NewKey(known: seq<Text>, texts: seq<Text>, edges: map<nat, nat>, state: nat, b: byte)
    requires Trie(known, texts, edges) && state < |texts| && !Starts(known, texts[state] + [b])
    ensures state * 256 + b !in edges
  {
    assert EdgeAt(known, texts, edges, state, b);
  }

  /** Extends the trie by one state, below `state`. */
  lemma AddState(known: seq<Text>, texts: seq<Text>, edges: map<nat, nat>, state: nat, b: byte, x: Text)
    requires state < |texts| && x == texts[state] && !Starts(known, x + [b])
    requires Trie(known + [x], texts, edges)
    ensures state * 256 + b !in edges
    ensures Trie(known + [x + [b]], texts + [x + [b]], edges[state * 256 + b := |texts|])
  {
    StartsKnown(known, x, x + [b]);
    NewKey(known + [x], texts, edges, state, b);
    AddedIsDistinct(known, texts, x, b);
    AddedStarts(known, texts, x, b);
    AddedEdges(known, texts, edges, state, b, x);
  }

  lemma AddedIsDistinct(known: seq<Text>, texts: seq<Text>, x: Text, b: byte)
    requires Distinct(texts) && AllStart(known + [x], texts) && !Starts(known, x + [b])
    ensures Distinct(texts + [x + [b]])
  {
    forall s | 0 <= s < |texts| ensures texts[s] != x + [b] {
      StartsKnown(known, x, x + [b]);
    }
  }

  lemma AddedStarts(known: seq<Text>, texts: seq<Text>, x: Text, b: byte)
    requires AllStart(known + [x], texts)
    ensures AllStart(known + [x + [b]], texts + [x + [b]])
  {
    var y := x + [b];
    forall s | 0 <= s < |texts + [y]| ensures Starts(known + [y], (texts + [y])[s]) {
      var u := (texts + [y])[s];
      StartsKnown(known, y, u);
      if s < |texts| {
        StartsKnown(known, x, u);
        assert u <= x ==> u <= y;
      }
    }
  }

  lemma PrefixOfExtension(u: Text, c: byte, x: Text, b: byte)
    ensures u + [c] <= x + [b] ==> u + [c] <= x || (u == x && c == b)
  {
    if u + [c] <= x + [b] && |u| == |x| {
      assert (u + [c])[..|u|] == u && (x + [b])[..|x|] == x && (u + [c])[|u|] == (x + [b])[|x|];
    }
  }

  lemma AddedEdges(known: seq<Text>, texts: seq<Text>, edges: map<nat, nat>, state: nat, b: byte, x: Text)
    requires state < |texts| && x == texts[state] && !Starts(known, x + [b])
    requires Distinct(texts) && Edges(known + [x], texts, edges) && KeysBelow(edges, |texts|)
    ensures Edges(known + [x + [b]], texts + [x + [b]], edges[state * 256 + b := |texts|])
  {
    var y := x + [b];
    var texts', edges' := texts + [y], edges[state * 256 + b := |texts|];
    forall s: nat, c: byte | s < |texts'| ensures EdgeAt(known + [y], texts', edges', s, c) {
      if s < |texts| {
        assert EdgeAt(known + [x], texts, edges, s, c);
        if s * 256 + c !in edges' {
          var u := texts[s] + [c];
          StartsKnown(known, x, u);
          StartsKnown(known, y, u);
          PrefixOfExtension(texts[s], c, x, b);
        }
      } else {
        StartsKnown(known, y, y + [c]);
        if Starts(known, y + [c]) {
          StartsPrefix(known, y, y + [c]);
        }
      }
    }
  }

  /** Every start of a known text has its state. */
  lemma {:induction false} StateOf(known: seq<Text>, texts: seq<Text>, edges: map<nat, nat>, u: Text) returns (s: nat)
    requires Trie(known, texts, edges) && Starts(known, u)
    ensures s < |texts| && texts[s] == u
    decreases |u|
  {
    if u == [] {
      s := 0;
    } else {
      var n := |u| - 1;
      assert u == u[..n] + [u[n]];
      StartsPrefix(known, u[..n], u);
      var parent := StateOf(known, texts, edges, u[..n]);
      assert EdgeAt(known, texts, edges, parent, u[n]);
      s := edges[parent * 256 + u[n]];
    }
  }

  /** Every state but the initial one hangs below the state of its text without the last symbol. */
  lemma Parent(known: seq<Text>, texts: seq<Text>, edges: map<nat, nat>, s: nat) returns (parent: nat, b: byte)
    requires Trie(known, texts, edges) && 0 < s < |texts|
    ensures parent < |texts| && |texts[parent]| + 1 == |texts[s]|
    ensures parent * 256 + b in edges && edges[parent * 256 + b] == s
  {
    var u := texts[s];
    var n := |u| - 1;
    b := u[n];
    assert u == u[..n] + [b];
    StartsPrefix(known, u[..n], u);
    parent := StateOf(known, texts, edges, u[..n]);
    assert EdgeAt(known, texts, edges, parent, b);
  }

  /** Two edges never lead to the same state. */
  lemma OneParent(known: seq<Text>, texts: seq<Text>, edges: map<nat, nat>, s: nat, b: byte, t: nat, c: byte)
    requires Trie(known, texts, edges) && s < |texts| && t < |texts|
    requires s * 256 + b in edges && t * 256 + c in edges && edges[s * 256 + b] == edges[t * 256 + c]
    ensures s == t && b == c
  {
    assert EdgeAt(known, texts, edges, s, b) && EdgeAt(known, texts, edges, t, c);
    var u := texts[edges[s * 256 + b]];
    assert u[..|u| - 1] == texts[s] && u[..|u| - 1] == texts[t] && u[|u| - 1] == b == c;
  }

  // ---- Counting states ----

  /** The starts of all needles. */
  ghost function Prefixes(needles: seq<Text>): (p: set<Text>)
    ensures forall u :: u in p <==> Starts(needles, u)
  {
    var p := {[]} + set i, n | 0 <= i < |needles| && 0 <= n <= |needles[i]| :: needles[i][..n];
    assert forall u :: u in p ==> Starts(needles, u);
    assert forall u, i :: 0 <= i < |needles| && u <= needles[i] ==> u == needles[i][..|u|];
    p
  }

  lemma {:induction false} DistinctCount(texts: seq<Text>, p: set<Text>)
    requires Distinct(texts) && forall s :: 0 <= s < |texts| ==> texts[s] in p
    ensures |texts| <= |p|
  {
    if texts != [] {
      var n := |texts| - 1;
      DistinctCount(texts[..n], p - {texts[n]});
    }
  }

  lemma {:induction false} CoveredCount(texts: seq<Text>, p: set<Text>)
    requires forall u :: u in p ==> u in texts
    ensures |p| <= |texts|
  {
    if texts != [] {
      var n := |texts| - 1;
      assert texts == texts[..n] + [texts[n]];
      CoveredCount(texts[..n], p - {texts[n]});
      assert p <= p - {texts[n]} + {texts[n]};
      if texts[n] in p {
        assert |p - {texts[n]}| == |p| - 1;
      } else {
        assert p - {texts[n]} == p;
      }
    } else {
      assert p == {};
    }
  }

  /** A complete trie has as many states as the needles have different starts. */
  lemma StateCount(needles: seq<Text>, texts: seq<Text>, edges: map<nat, nat>)
    requires Trie(needles, texts, edges)
    ensures |texts| == |Prefixes(needles)|
  {
    DistinctCount(texts, Prefixes(needles));
    forall u | u in Prefixes(needles) ensures u in texts {
      var s := StateOf(needles, texts, edges, u);
    }
    CoveredCount(texts, Prefixes(needles));
  }
}
