/** The finished search automaton and the streaming replacement it performs. */
module SearchAutomaton {
  import opened Arithmetic
  import opened Folding
  import opened ProbeTable
  import opened SearchText

  /** A state: the needle it partially matches, how much of it, and where to go on a mismatch. */
  datatype Node = Node(needleIndex: nat, needleLength: nat, f: nat)

  ghost predicate Labelled(needles: seq<Text>, node: Node) {
    node.needleLength == 0 || (node.needleIndex < |needles| && node.needleLength <= |needles[node.needleIndex]|)
  }

  /** The text read in a state, as a part of its needle. */
  ghost function TextOf(needles: seq<Text>, node: Node): (t: Text)
    requires Labelled(needles, node)
    ensures |t| == node.needleLength && Starts(needles, t)
  {
    if node.needleLength == 0 then [] else
      var t := needles[node.needleIndex][..node.needleLength];
      assert t <= needles[node.needleIndex];
      t
  }

  /** Every state has a text; the initial one, and only that, has the empty text. */
  ghost predicate States(needles: seq<Text>, nodes: seq<Node>) {
    && 0 < |nodes| <= CODE_LIMIT
    && (forall s :: 0 <= s < |nodes| ==> Labelled(needles, nodes[s]))
    && (forall s :: 0 <= s < |nodes| ==> (nodes[s].needleLength == 0 <==> s == 0))
    && (needles != [] ==> nodes[0].needleIndex == 0)
  }

  /** The goto function from state s on symbol a: the state of the text extended by a, absent when that starts no
      needle. */
  ghost predicate GotoAt(needles: seq<Text>, nodes: seq<Node>, edges: map<nat, nat>, s: nat, a: byte)
    requires States(needles, nodes) && s < |nodes|
  {
    var key := s * 256 + a;
    if key in edges then 0 < edges[key] < |nodes|
      && TextOf(needles, nodes[edges[key]]) == TextOf(needles, nodes[s]) + [a]
    else !Starts(needles, TextOf(needles, nodes[s]) + [a])
  }

  ghost predicate Goto(needles: seq<Text>, nodes: seq<Node>, edges: map<nat, nat>)
    requires States(needles, nodes)
  {
    forall s: nat, a: byte :: s < |nodes| ==> GotoAt(needles, nodes, edges, s, a)
  }

  /** u is the longest proper suffix of t that starts a needle. */
  ghost predicate LongestProperSuffix(needles: seq<Text>, t: Text, u: Text) {
    && |u| < |t| && t[|t| - |u|..] == u && Starts(needles, u)
    && forall q :: 0 < q < |t| - |u| ==> !Starts(needles, t[q..])
  }

  ghost predicate FailureAt(needles: seq<Text>, nodes: seq<Node>, s: nat)
    requires States(needles, nodes) && s < |nodes|
  {
    nodes[s].f < |nodes| && LongestProperSuffix(needles, TextOf(needles, nodes[s]), TextOf(needles, nodes[nodes[s].f]))
  }

  ghost predicate Failure(needles: seq<Text>, nodes: seq<Node>)
    requires States(needles, nodes)
  {
    forall s :: 0 < s < |nodes| ==> FailureAt(needles, nodes, s)
  }

  /** What a successfully built automaton is. */
  ghost predicate Automaton(needles: seq<Text>, nodes: seq<Node>, edges: map<nat, nat>) {
    Independent(needles) && States(needles, nodes) && Goto(needles, nodes, edges) && Failure(needles, nodes)
  }

  // ---- The scan ----

  /** The scan has written `dst`: `done` for matches so far and the part of the
      text w since the last match that can no longer take part in one. The state
      stands for the rest of w, from q on. */
  ghost predicate Scanning(needles: seq<Text>, nodes: seq<Node>, state: nat, dst: Text, done: Text, w: Text, q: nat)
    requires States(needles, nodes)
  {
    && q <= |w| && state < |nodes| && TextOf(needles, nodes[state]) == w[q..]
    && dst == done + Kept(needles, w[..q])
  }

  /** No longer suffix of w can absorb the symbol a. */
  ghost predicate NoneLonger(needles: seq<Text>, w: Text, a: byte, q: nat) {
    q <= |w| && forall p :: 0 <= p < q ==> !Starts(needles, w[p..] + [a])
  }

  lemma LongestThenNoneLonger(needles: seq<Text>, w: Text, a: byte, q: nat)
    requires Longest(needles, w, q)
    ensures NoneLonger(needles, w, a, q)
  {
    forall p | 0 <= p < q ensures !Starts(needles, w[p..] + [a]) {
      if Starts(needles, w[p..] + [a]) {
        StartsPrefix(needles, w[p..], w[p..] + [a]);
      }
    }
  }

  /** Following an edge: the extended text is the longest suffix in play. */
  lemma Absorbed(needles: seq<Text>, w: Text, a: byte, q: nat)
    requires NoneLonger(needles, w, a, q) && Starts(needles, w[q..] + [a])
    ensures Longest(needles, w + [a], q)
  {
    var u := w + [a];
    assert u[q..] == w[q..] + [a];
    forall p | 0 <= p < q ensures !Starts(needles, u[p..]) {
      assert u[p..] == w[p..] + [a];
    }
  }

  /** Nothing absorbs the symbol, not even the initial state. */
  lemma NotAbsorbed(needles: seq<Text>, w: Text, a: byte)
    requires NoneLonger(needles, w, a, |w|) && !Starts(needles, [a])
    ensures Longest(needles, w + [a], |w| + 1) && Exposed(needles, w + [a])
  {
    var u := w + [a];
    forall p | 0 <= p < |u| ensures !Starts(needles, u[p..]) {
      if p < |w| {
        assert u[p..] == w[p..] + [a];
      } else {
        assert u[p..] == [a];
      }
    }
  }

  /** A mismatch: the next shorter suffix is tried, and no suffix in between can absorb the symbol. */
  lemma FallBack(needles: seq<Text>, w: Text, a: byte, q: nat, t: Text, u: Text)
    requires q <= |w| && t == w[q..] && LongestProperSuffix(needles, t, u)
    requires NoneLonger(needles, w, a, q) && !Starts(needles, t + [a])
    ensures w[|w| - |u|..] == u && NoneLonger(needles, w, a, |w| - |u|)
  {
    var q' := |w| - |u|;
    assert w[q'..] == t[|t| - |u|..];
    forall p | 0 <= p < q' ensures !Starts(needles, w[p..] + [a]) {
      if q < p {
        assert w[p..] == t[p - q..];
        if Starts(needles, w[p..] + [a]) {
          StartsPrefix(needles, w[p..], w[p..] + [a]);
        }
      }
    }
  }

  /** The bytes left behind by falling back are the first bytes of the old state's needle. */
  lemma Released(needles: seq<Text>, w: Text, q: nat, t: Text, u: Text)
    requires q <= |w| && t == w[q..] && LongestProperSuffix(needles, t, u)
    requires Starts(needles, t) && w[|w| - |u|..] == u
    ensures Kept(needles, w[..|w| - |u|]) == Kept(needles, w[..q]) + t[..|t| - |u|]
  {
    KeptRelease(needles, w, q, |w| - |u|);
    assert w[q..|w| - |u|] == t[..|t| - |u|];
  }

  /** Reading the symbol `a` after w: the state for the longest suffix that absorbs it. */
  ghost predicate Advanced(needles: seq<Text>, nodes: seq<Node>, state: nat, w: Text, q: nat)
    requires States(needles, nodes)
  {
    state < |nodes| && Longest(needles, w, q) && TextOf(needles, nodes[state]) == w[q..]
  }

  /** The state absorbs the symbol. */
  lemma StepForward(needles: seq<Text>, nodes: seq<Node>, edges: map<nat, nat>, state: nat, dst: Text, done: Text,
      w: Text, q: nat, a: byte)
    requires States(needles, nodes) && Scanning(needles, nodes, state, dst, done, w, q) && NoneLonger(needles, w, a, q)
    requires GotoAt(needles, nodes, edges, state, a) && state * 256 + a in edges
    ensures Advanced(needles, nodes, edges[state * 256 + a], w + [a], q)
    ensures dst == done + Kept(needles, (w + [a])[..q])
  {
    assert (w + [a])[q..] == w[q..] + [a] && (w + [a])[..q] == w[..q];
    Absorbed(needles, w, a, q);
  }

  /** Not even the initial state absorbs the symbol. A zero byte is not written. */
  lemma StepEcho(needles: seq<Text>, nodes: seq<Node>, edges: map<nat, nat>, dst: Text, done: Text, w: Text, q: nat,
      a: byte)
    requires States(needles, nodes) && Scanning(needles, nodes, 0, dst, done, w, q) && NoneLonger(needles, w, a, q)
    requires GotoAt(needles, nodes, edges, 0, a) && a !in edges
    ensures Advanced(needles, nodes, 0, w + [a], |w| + 1)
    ensures (if a == 0 then dst else dst + [a]) == done + Kept(needles, (w + [a])[..|w| + 1])
  {
    assert q == |w| && [] + [a] == [a] && w[..q] == w;
    assert (w + [a])[|w| + 1..] == [] && (w + [a])[..|w| + 1] == w + [a];
    NotAbsorbed(needles, w, a);
    KeptSnoc(needles, w, a);
  }

  /** A text that ends before its needle does is no needle itself. */
  lemma NotComplete(needles: seq<Text>, node: Node)
    requires Independent(needles) && Labelled(needles, node)
    requires node.needleIndex < |needles| ==> |needles[node.needleIndex]| != node.needleLength
    ensures forall i :: 0 <= i < |needles| ==> TextOf(needles, node) != needles[i]
  {
    forall i | 0 <= i < |needles| ensures TextOf(needles, node) != needles[i] {
      if TextOf(needles, node) == needles[i] {
        assert OccursAt(needles[i], needles[node.needleIndex], 0);
        assert Occurs(needles[i], needles[node.needleIndex]);
      }
    }
  }

  /** The scan starts, and restarts after a match, with nothing read. */
  lemma NothingRead(needles: seq<Text>, rest: Text)
    requires Independent(needles)
    ensures [] + rest == rest && Longest(needles, [], 0) && NoNeedle(needles, []) && Kept(needles, [][..0]) == []
            && [] + rest[0..] == rest
  {
    forall i | 0 <= i < |needles| ensures !Occurs(needles[i], []) {
    }
  }

  /** The table word for a state and a symbol, zero if there is no edge. */
  method Lookup(gTable: array<nat>, ghost edges: map<nat, nat>, state: nat, a: byte) returns (word: nat)
    requires TableOf(gTable[..], edges) && |edges| < gTable.Length
    ensures var key := state * 256 + a;
            if key in edges then word > 0 && KeyOf(word) == key && CodeOf(word) == edges[key]
            else word == 0
  {
    assert Opened(OfTable);
    word := Probe(gTable, edges, state * 256 + a);
    if state * 256 + a in edges {
      assert Found(gTable[..], state * 256 + a, edges[state * 256 + a]);
      PackedParts(state * 256 + a, edges[state * 256 + a]);
    }
  }

  /** Replacing a completed needle accounts for all bytes up to its end. */
  lemma Matched(needles: seq<Text>, replacements: seq<Text>, dst: Text, done: Text, w: Text, a: byte, q: nat, i: nat,
      rest: Text)
    requires Independent(needles) && |needles| <= |replacements|
    requires NoNeedle(needles, w) && Longest(needles, w + [a], q) && dst == done + Kept(needles, (w + [a])[..q])
    requires i < |needles| && (w + [a])[q..] == needles[i]
    ensures dst + replacements[i] + Written(needles, replacements, [], rest) == done
            + Written(needles, replacements, [], w + [a] + rest)
  {
    MatchIsNext(needles, replacements, w, a, q, i, rest);
  }

  lemma NextByte(w: Text, src: Text, n: nat)
    requires n < |src|
    ensures w + src[n..] == w + [src[n]] + src[n + 1..]
  {
  }

  /** The state of the scan between two bytes, with w read since the last match. */
  ghost predicate InGap(needles: seq<Text>, nodes: seq<Node>, state: nat, dst: Text, done: Text, w: Text, q: nat)
    requires States(needles, nodes)
  {
    var whole := Scanning(needles, nodes, state, dst, done, w, q) && Longest(needles, w, q) && NoNeedle(needles, w);
    whole
  }

  class MultiSearchAndReplacer {
    const needles: seq<Text>
    const gTable: array<nat>
    const nodes: seq<Node>

    /** The goto function as a map from state * 256 + symbol to the next state. */
    ghost const edges: map<nat, nat>

    ghost predicate Valid()
      reads gTable
    {
      TableOf(gTable[..], edges) && |edges| < gTable.Length && Automaton(needles, nodes, edges)
    }

    constructor (needles: seq<Text>, gTable: array<nat>, nodes: seq<Node>, ghost edges: map<nat, nat>)
      requires TableOf(gTable[..], edges) && |edges| < gTable.Length && Automaton(needles, nodes, edges)
      ensures Valid() && this.needles == needles && this.gTable == gTable && this.nodes == nodes
    {
      this.needles, this.gTable, this.nodes, this.edges := needles, gTable, nodes, edges;
    }

    /** Moves to the failure state and writes the bytes that leaves behind. */
    method Fail(state: nat, ghost a: byte, dst: Text, ghost done: Text, ghost w: Text, ghost q: nat)
      returns (state': nat, dst': Text, ghost q': nat)
      requires Automaton(needles, nodes, edges)
      requires Scanning(needles, nodes, state, dst, done, w, q) && NoneLonger(needles, w, a, q)
      requires state > 0 && state * 256 + a !in edges
      ensures Scanning(needles, nodes, state', dst', done, w, q') && NoneLonger(needles, w, a, q')
      ensures q < q'
    {
      assert GotoAt(needles, nodes, edges, state, a);
      assert FailureAt(needles, nodes, state);
      var oldNode := nodes[state];
      state' := oldNode.f;
      var newNode := nodes[state'];
      ghost var t, u := TextOf(needles, oldNode), TextOf(needles, newNode);
      FallBack(needles, w, a, q, t, u);
      Released(needles, w, q, t, u);
      var left := needles[oldNode.needleIndex][..oldNode.needleLength - newNode.needleLength];
      assert left == t[..|t| - |u|];
      dst' := dst + left;
      q' := |w| - newNode.needleLength;
      assert done + Kept(needles, w[..q]) + left == done + (Kept(needles, w[..q]) + left);
    }

    /** One attempt to absorb a byte. The flag `matched` tells whether a table entry
        was taken to match; an empty slot is, for a zero byte in the initial state. */
    method Attempt(state: nat, a: byte, dst: Text, ghost done: Text, ghost w: Text, ghost q: nat)
      returns (finished: bool, matched: bool, state': nat, dst': Text, ghost q': nat)
      requires Valid()
      requires Scanning(needles, nodes, state, dst, done, w, q) && NoneLonger(needles, w, a, q)
      ensures !finished ==>
                Scanning(needles, nodes, state', dst', done, w, q') && NoneLonger(needles, w, a, q') && q < q'
      ensures finished ==>
                && Advanced(needles, nodes, state', w + [a], q') && dst' == done + Kept(needles, (w + [a])[..q'])
                && (matched || state' == 0) && (state' == 0 ==> matched == (a == 0))
    {
      assert GotoAt(needles, nodes, edges, state, a);
      var word := Lookup(gTable, edges, state, a);
      state', dst', q' := state, dst, q;
      if KeyOf(word) == state * 256 + a {
        finished, matched, state' := true, true, CodeOf(word);
        if word != 0 {
          StepForward(needles, nodes, edges, state, dst, done, w, q, a);
        } else {
          StepEcho(needles, nodes, edges, dst, done, w, q, a);
          q' := |w| + 1;
        }
      } else if state == 0 {
        StepEcho(needles, nodes, edges, dst, done, w, q, a);
        finished, matched, dst', q' := true, false, dst + [a], |w| + 1;
      } else {
        state', dst', q' := Fail(state, a, dst, done, w, q);
        finished, matched := false, false;
      }
    }

    /** Reads one byte: follows failure links until some state absorbs it. */
    method ReadByte(state: nat, a: byte, dst: Text, ghost done: Text, ghost w: Text, ghost q: nat)
      returns (matched: bool, state': nat, dst': Text, ghost q': nat)
      requires Valid()
      requires Scanning(needles, nodes, state, dst, done, w, q) && Longest(needles, w, q)
      ensures Advanced(needles, nodes, state', w + [a], q') && dst' == done + Kept(needles, (w + [a])[..q'])
      ensures (matched || state' == 0) && (state' == 0 ==> matched == (a == 0))
    {
      LongestThenNoneLonger(needles, w, a, q);
      var finished := false;
      state', dst', matched, q' := state, dst, false, q;
      while !finished
        invariant !finished ==> Scanning(needles, nodes, state', dst', done, w, q') && NoneLonger(needles, w, a, q')
        invariant finished ==>
                    && Advanced(needles, nodes, state', w + [a], q') && dst' == done + Kept(needles, (w + [a])[..q'])
                    && (matched || state' == 0) && (state' == 0 ==> matched == (a == 0))
        decreases !finished, |w| - q'
      {
        finished, matched, state', dst', q' := Attempt(state', a, dst', done, w, q');
      }
    }

    /** Reads one byte and replaces the needle it completes, if any. */
    method Process(state: nat, a: byte, dst: Text, replacements: seq<Text>, ghost done: Text, ghost w: Text,
        ghost q: nat, ghost rest: Text)
      returns (crashed: bool, state': nat, dst': Text, ghost done': Text, ghost w': Text, ghost q': nat)
      requires Valid() && |needles| <= |replacements|
      requires InGap(needles, nodes, state, dst, done, w, q)
      ensures crashed == (needles == [] && a == 0)
      ensures !crashed ==>
                && InGap(needles, nodes, state', dst', done', w', q')
                && done' + Written(needles, replacements, [], w' + rest) == done
                   + Written(needles, replacements, [], w + [a] + rest)
    {
      var matched;
      matched, state', dst', q' := ReadByte(state, a, dst, done, w, q);
      done', w', crashed := done, w + [a], false;
      var node := nodes[state'];
      if matched {
        if node.needleIndex >= |needles| {
          crashed := true;
          return;
        }
        if |needles[node.needleIndex]| == node.needleLength {
          Matched(needles, replacements, dst', done, w, a, q', node.needleIndex, rest);
          dst' := dst' + replacements[node.needleIndex];
          state', done', w', q' := 0, dst', [], 0;
          NothingRead(needles, rest);
          return;
        }
      }
      NotComplete(needles, node);
      StillNoNeedle(needles, w, a, q');
    }

    /** Writes the partial match at the end of the file. */
    method EndOfFile(state: nat, dst: Text, replacements: seq<Text>, ghost done: Text, ghost w: Text, ghost q: nat)
        returns (dst': Text)
      requires Automaton(needles, nodes, edges) && |needles| <= |replacements|
      requires InGap(needles, nodes, state, dst, done, w, q)
      ensures dst' == done + Written(needles, replacements, [], w)
    {
      EndOfText(needles, replacements, w);
      KeptSuffix(needles, w, q);
      dst' := dst;
      if state != 0 {
        var node := nodes[state];
        dst' := dst' + needles[node.needleIndex][..node.needleLength];
      }
    }

    /** Writes the source text with needles replaced. Without needles, a zero byte indexes
        the empty list of needles. */
    method SearchAndReplace(src: Text, replacements: seq<Text>) returns (dst: Text, crashed: bool)
      requires Valid() && |needles| <= |replacements|
      ensures crashed <==> needles == [] && 0 in src
      ensures !crashed ==> dst == Written(needles, replacements, [], src)
    {
      var state: nat := 0;
      dst := [];
      ghost var done: Text, w: Text, q: nat := [], [], 0;
      ghost var total := Written(needles, replacements, [], src);
      NothingRead(needles, src);
      for n := 0 to |src|
        invariant needles == [] ==> forall k :: 0 <= k < n ==> src[k] != 0
        invariant InGap(needles, nodes, state, dst, done, w, q)
        invariant done + Written(needles, replacements, [], w + src[n..]) == total
      {
        ghost var rest := src[n + 1..];
        NextByte(w, src, n);
        crashed, state, dst, done, w, q := Process(state, src[n], dst, replacements, done, w, q, rest);
        if crashed {
          return;
        }
      }
      assert w + src[|src|..] == w;
      dst := EndOfFile(state, dst, replacements, done, w, q);
      crashed := false;
    }
  }
}
