/** Construction of the failure function: a breadth-first walk over the trie that links
    every state to the longest proper suffix of its text that is a state. */
module SearchFailure {
  import opened Arithmetic
  import opened Options
  import opened ProbeTable
  import opened SearchText
  import opened SearchTrie
  import opened SearchAutomaton
  import opened SearchGoto

  // ---- One failure link ----

  ghost predicate NotNeedle(needles: seq<Text>, u: Text) {
    forall i :: 0 <= i < |needles| ==> needles[i] != u
  }

  /** The failure link of a state is right, and leads to no complete needle. */
  ghost predicate Linked(needles: seq<Text>, texts: seq<Text>, f: nat, s: nat)
    requires s < |texts|
  {
    f < |texts| && LongestProperSuffix(needles, texts[s], texts[f]) && NotNeedle(needles, texts[f])
  }

  /** u is a proper suffix of t, and no longer one absorbs a. */
  ghost predicate Candidate(needles: seq<Text>, t: Text, a: byte, u: Text) {
    && |u| < |t| && t[|t| - |u|..] == u
    && forall q :: 0 < q < |t| - |u| ==> !Starts(needles, t[q..] + [a])
  }

  lemma FirstCandidate(needles: seq<Text>, t: Text, a: byte, u: Text)
    requires LongestProperSuffix(needles, t, u)
    ensures Candidate(needles, t, a, u)
  {
    forall q | 0 < q < |t| - |u| ensures !Starts(needles, t[q..] + [a]) {
      if Starts(needles, t[q..] + [a]) {
        StartsPrefix(needles, t[q..], t[q..] + [a]);
      }
    }
  }

  lemma NextCandidate(needles: seq<Text>, t: Text, a: byte, u: Text, u': Text)
    requires Candidate(needles, t, a, u) && !Starts(needles, u + [a]) && LongestProperSuffix(needles, u, u')
    ensures Candidate(needles, t, a, u')
  {
    var d := |t| - |u|;
    assert t[|t| - |u'|..] == u[|u| - |u'|..];
    forall q | 0 < q < |t| - |u'| ensures !Starts(needles, t[q..] + [a]) {
      if d < q {
        assert t[q..] == u[q - d..];
        if Starts(needles, t[q..] + [a]) {
          StartsPrefix(needles, t[q..], t[q..] + [a]);
        }
      }
    }
  }

  lemma CandidateAbsorbs(needles: seq<Text>, t: Text, a: byte, u: Text)
    requires Candidate(needles, t, a, u) && Starts(needles, u + [a])
    ensures LongestProperSuffix(needles, t + [a], u + [a])
  {
    var s, v := t + [a], u + [a];
    assert s[|s| - |v|..] == t[|t| - |u|..] + [a];
    forall q | 0 < q < |s| - |v| ensures !Starts(needles, s[q..]) {
      assert s[q..] == t[q..] + [a];
    }
  }

  lemma NoneAbsorbs(needles: seq<Text>, t: Text, a: byte)
    requires Candidate(needles, t, a, []) && !Starts(needles, [a])
    ensures LongestProperSuffix(needles, t + [a], [])
  {
    var s := t + [a];
    forall q | 0 < q < |s| ensures !Starts(needles, s[q..]) {
      if q < |t| {
        assert s[q..] == t[q..] + [a];
      } else {
        assert s[q..] == [a];
      }
    }
  }

  /** Whether the node's text is all of its needle. */
  predicate Complete(needles: seq<Text>, node: Node)
    requires node.needleIndex < |needles|
  {
    |needles[node.needleIndex]| == node.needleLength
  }

  lemma IncompleteIsNotNeedle(needles: seq<Text>, node: Node)
    requires PrefixFree(needles, |needles|) && node.needleIndex < |needles| && Labelled(needles, node)
             && !Complete(needles, node)
    ensures NotNeedle(needles, TextOf(needles, node))
  {
    assert TextOf(needles, node) <= needles[node.needleIndex];
  }

  /** A failure link to a complete needle shows it inside the needle of the linked state. */
  lemma CompleteIsContained(needles: seq<Text>, inner: Node, outer: Node)
    requires Labelled(needles, inner) && Labelled(needles, outer)
    requires LongestProperSuffix(needles, TextOf(needles, outer), TextOf(needles, inner))
    requires inner.needleIndex < |needles| && outer.needleIndex < |needles| && Complete(needles, inner)
    requires needles[inner.needleIndex] != []
    ensures inner.needleIndex != outer.needleIndex && Occurs(needles[inner.needleIndex], needles[outer.needleIndex])
  {
    var x, y := needles[inner.needleIndex], needles[outer.needleIndex];
    var q := outer.needleLength - inner.needleLength;
    assert y[q..q + |x|] == TextOf(needles, outer)[q..];
    assert OccursAt(x, y, q);
  }

  lemma NotContained(needles: seq<Text>, inner: Node, outer: Node)
    requires PrefixFree(needles, |needles|) && Labelled(needles, inner) && Labelled(needles, outer)
    requires LongestProperSuffix(needles, TextOf(needles, outer), TextOf(needles, inner))
    requires inner.needleIndex < |needles| && outer.needleIndex < |needles|
    requires !Complete(needles, inner) || inner.needleIndex == outer.needleIndex
    ensures NotNeedle(needles, TextOf(needles, inner))
  {
    if Complete(needles, inner) {
      CompleteIsContained(needles, inner, outer);
    } else {
      IncompleteIsNotNeedle(needles, inner);
    }
  }

  // ---- Breadth-first order ----

  ghost predicate InRange(order: seq<nat>, n: nat) {
    forall i :: 0 <= i < |order| ==> 0 < order[i] < n
  }

  ghost predicate OrderDistinct(order: seq<nat>) {
    forall i, j :: 0 <= i < j < |order| ==> order[i] != order[j]
  }

  ghost predicate Monotone(texts: seq<Text>, order: seq<nat>)
    requires InRange(order, |texts|)
  {
    forall i, j :: 0 <= i <= j < |order| ==> |texts[order[i]]| <= |texts[order[j]]|
  }

  ghost predicate NoDeeper(texts: seq<Text>, order: seq<nat>, d: nat)
    requires InRange(order, |texts|)
  {
    forall i :: 0 <= i < |order| ==> |texts[order[i]]| <= d
  }

  /** The child of v for b was queued exactly when v was expanded, or is being expanded and b had its turn. */
  ghost predicate QueuedAt(edges: map<nat, nat>, order: seq<nat>, expanded: set<nat>, r: nat, bs: seq<byte>, v: nat,
      b: byte) {
    v * 256 + b in edges ==> (edges[v * 256 + b] in order <==> v in expanded || (v == r && b in bs))
  }

  ghost predicate Queued(n: nat, edges: map<nat, nat>, order: seq<nat>, expanded: set<nat>, r: nat, bs: seq<byte>) {
    forall v: nat, b: byte {:trigger QueuedAt(edges, order, expanded, r, bs, v, b)} ::
      v < n ==> QueuedAt(edges, order, expanded, r, bs, v, b)
  }

  /** The order in which states were queued while r is being expanded. */
  ghost predicate BreadthFirst(texts: seq<Text>, edges: map<nat, nat>, order: seq<nat>, expanded: set<nat>, r: nat,
      bs: seq<byte>) {
    var whole :=
      && r < |texts| && InRange(order, |texts|) && OrderDistinct(order) && Monotone(texts, order)
      && NoDeeper(texts, order, |texts[r]| + 1) && Queued(|texts|, edges, order, expanded, r, bs);
    whole
  }

  lemma Enqueue(known: seq<Text>, texts: seq<Text>, edges: map<nat, nat>, order: seq<nat>, expanded: set<nat>, r: nat,
      bs: seq<byte>, b: byte)
    requires Trie(known, texts, edges) && BreadthFirst(texts, edges, order, expanded, r, bs)
    requires r !in expanded && b !in bs && r * 256 + b in edges
    ensures edges[r * 256 + b] < |texts| && texts[edges[r * 256 + b]] == texts[r] + [b]
    ensures BreadthFirst(texts, edges, order + [edges[r * 256 + b]], expanded, r, bs + [b])
  {
    var s := edges[r * 256 + b];
    assert EdgeAt(known, texts, edges, r, b);
    assert QueuedAt(edges, order, expanded, r, bs, r, b);
    forall v: nat, c: byte | v < |texts| ensures QueuedAt(edges, order + [s], expanded, r, bs + [b], v, c) {
      assert QueuedAt(edges, order, expanded, r, bs, v, c);
      if v * 256 + c in edges && edges[v * 256 + c] == s {
        OneParent(known, texts, edges, r, b, v, c);
      }
    }
  }

  /** All symbols of r had their turn: r is expanded, and the next state in the queue follows. */
  lemma Dequeue(texts: seq<Text>, edges: map<nat, nat>, order: seq<nat>, expanded: set<nat>, r: nat, bs: seq<byte>,
      r': nat)
    requires BreadthFirst(texts, edges, order, expanded, r, bs) && SymbolsAt(bs, edges, r)
    requires r' < |texts| && |texts[r]| <= |texts[r']|
    ensures BreadthFirst(texts, edges, order, expanded + {r}, r', [])
  {
    forall v: nat, c: byte | v < |texts| ensures QueuedAt(edges, order, expanded + {r}, r', [], v, c) {
      assert QueuedAt(edges, order, expanded, r, bs, v, c);
    }
  }

  ghost function Expanded(order: seq<nat>, h: nat): set<nat>
    requires h <= |order|
  {
    {0} + set i | 0 <= i < h :: order[i]
  }

  /** States no deeper than those still to be expanded have been queued. */
  lemma {:induction false} Reached(known: seq<Text>, texts: seq<Text>, edges: map<nat, nat>, order: seq<nat>, h: nat,
      r: nat, bs: seq<byte>, v: nat)
    requires Trie(known, texts, edges) && h <= |order| && BreadthFirst(texts, edges, order, Expanded(order, h), r, bs)
    requires 0 < v < |texts| && forall i :: h <= i < |order| ==> |texts[v]| <= |texts[order[i]]|
    ensures v in order
    decreases |texts[v]|
  {
    var parent, b := Parent(known, texts, edges, v);
    assert QueuedAt(edges, order, Expanded(order, h), r, bs, parent, b);
    if parent != 0 {
      Reached(known, texts, edges, order, h, r, bs, parent);
      var i :| 0 <= i < |order| && order[i] == parent;
      assert i < h;
    }
  }

  // ---- What the finished links say about the needles ----

  ghost predicate AllLinked(needles: seq<Text>, texts: seq<Text>, nodes: seq<Node>) {
    |nodes| == |texts| && forall s :: 0 < s < |texts| ==> Linked(needles, texts, nodes[s].f, s)
  }

  /** No needle ends inside a state, other than at its start. */
  lemma {:induction false} NoInnerNeedle(needles: seq<Text>, texts: seq<Text>, edges: map<nat, nat>, nodes: seq<Node>,
      s: nat, q: nat, i: nat)
    requires Trie(needles, texts, edges) && AllLinked(needles, texts, nodes)
    requires s < |texts| && 0 < q <= |texts[s]| && i < |needles| && needles[i] != []
    ensures texts[s][q..] != needles[i]
    decreases |texts[s]|
  {
    var t := texts[s];
    if t[q..] == needles[i] {
      assert Linked(needles, texts, nodes[s].f, s);
      var u := texts[nodes[s].f];
      assert Starts(needles, t[q..]);
      assert |u| >= |needles[i]|;
      var d := |t| - |u|;
      assert u[q - d..] == t[q..];
      if q > d {
        NoInnerNeedle(needles, texts, edges, nodes, nodes[s].f, q - d, i);
      }
    }
  }

  lemma LinksMakeIndependent(needles: seq<Text>, texts: seq<Text>, edges: map<nat, nat>, nodes: seq<Node>)
    requires Trie(needles, texts, edges) && AllLinked(needles, texts, nodes) && PrefixFree(needles, |needles|)
    ensures Independent(needles)
  {
    forall i, j | 0 <= i < |needles| && 0 <= j < |needles| && Occurs(needles[i], needles[j]) ensures i == j {
      var x, y := needles[i], needles[j];
      var q: nat :| OccursAt(x, y, q);
      if q == 0 {
        assert x <= y;
      } else {
        var u := y[..q + |x|];
        assert u <= y;
        assert u[q..] == x;
        var s := StateOf(needles, texts, edges, u);
        NoInnerNeedle(needles, texts, edges, nodes, s, q, i);
      }
    }
  }

  // ---- Algorithm 3 ----

  /** The links that exist so far: those of the states shallower than d. */
  ghost predicate LinkedBelow(needles: seq<Text>, texts: seq<Text>, nodes: seq<Node>, d: nat) {
    |nodes| == |texts| && forall s :: 0 < s < |texts| && |texts[s]| < d ==> Linked(needles, texts, nodes[s].f, s)
  }

  /** The failure state of the child of r for symbol a. */
  method FailureState(ghost needles: seq<Text>, r: nat, a: byte, gTable: array<nat>, nodes: seq<Node>,
      ghost texts: seq<Text>, ghost edges: map<nat, nat>)
    returns (f: nat)
    requires Trie(needles, texts, edges) && Table(gTable[..], edges)
    requires 0 < r < |texts| && LinkedBelow(needles, texts, nodes, |texts[r]|) && Linked(needles, texts, nodes[r].f, r)
    ensures f < |texts| && LongestProperSuffix(needles, texts[r] + [a], texts[f])
  {
    var state: nat := nodes[r].f;
    FirstCandidate(needles, texts[r], a, texts[state]);
    while true
      invariant state < |texts| && Candidate(needles, texts[r], a, texts[state])
      decreases |texts[state]|
    {
      var word := Lookup(gTable, edges, state, a);
      assert EdgeAt(needles, texts, edges, state, a);
      if KeyOf(word) == state * 256 + a || (word == 0 && state == 0) {
        FoundCandidate(needles, texts, edges, r, a, state);
        return CodeOf(word);
      }
      assert Linked(needles, texts, nodes[state].f, state);
      NextCandidate(needles, texts[r], a, texts[state], texts[nodes[state].f]);
      state := nodes[state].f;
    }
  }

  lemma FoundCandidate(needles: seq<Text>, texts: seq<Text>, edges: map<nat, nat>, r: nat, a: byte, state: nat)
    requires Trie(needles, texts, edges) && r < |texts| && state < |texts|
             && Candidate(needles, texts[r], a, texts[state])
    requires state * 256 + a in edges || state == 0
    ensures var f := if state * 256 + a in edges then edges[state * 256 + a] else 0;
            f < |texts| && LongestProperSuffix(needles, texts[r] + [a], texts[f])
  {
    assert EdgeAt(needles, texts, edges, state, a);
    if state * 256 + a in edges {
      CandidateAbsorbs(needles, texts[r], a, texts[state]);
    } else {
      assert [] + [a] == [a];
      NoneAbsorbs(needles, texts[r], a);
    }
  }

  lemma WithLink(needles: seq<Text>, nodes: seq<Node>, texts: seq<Text>, s: nat, f: nat)
    requires Labels(needles, |needles|, nodes, texts) && s < |nodes|
    ensures Labels(needles, |needles|, nodes[s := nodes[s].(f := f)], texts)
  {
    var nodes' := nodes[s := nodes[s].(f := f)];
    forall t | 0 <= t < |nodes'| ensures LabelAt(needles, |needles|, nodes'[t], texts[t]) {
      assert LabelAt(needles, |needles|, nodes[t], texts[t]);
    }
  }

  /** Links the child of r for symbol a, unless the link leads to a complete needle. */
  method LinkChild(needles: seq<Text>, r: nat, a: byte, gTable: array<nat>, nodes: seq<Node>, ghost texts: seq<Text>,
      ghost edges: map<nat, nat>)
    returns (error: Option<BuildError>, s: nat, nodes': seq<Node>)
    requires Trie(needles, texts, edges) && Labels(needles, |needles|, nodes, texts) && PrefixFree(needles, |needles|)
    requires Table(gTable[..], edges) && nodes[0].needleIndex == 0
    requires 0 < r < |texts| && LinkedBelow(needles, texts, nodes, |texts[r]|) && Linked(needles, texts, nodes[r].f, r)
    requires r * 256 + a in edges
    ensures error.Some? ==> Holds(needles, error.value)
    ensures s == edges[r * 256 + a] && 0 < s < |texts| && texts[s] == texts[r] + [a]
    ensures error.None? ==>
              && |nodes'| == |nodes| && Linked(needles, texts, nodes'[s].f, s)
              && nodes' == nodes[s := nodes[s].(f := nodes'[s].f)] && Labels(needles, |needles|, nodes', texts)
  {
    assert EdgeAt(needles, texts, edges, r, a);
    var gRA := Lookup(gTable, edges, r, a);
    s := CodeOf(gRA);
    var f := FailureState(needles, r, a, gTable, nodes, texts, edges);
    nodes' := nodes[s := nodes[s].(f := f)];
    WithLink(needles, nodes, texts, s, f);
    assert LabelAt(needles, |needles|, nodes'[f], texts[f]) && LabelAt(needles, |needles|, nodes'[s], texts[s]);
    var node := nodes'[f];
    if |needles[node.needleIndex]| == node.needleLength && node.needleIndex != nodes'[s].needleIndex {
      CompleteIsContained(needles, node, nodes'[s]);
      return Some(ContainedNeedle(node.needleIndex, nodes'[s].needleIndex)), s, nodes';
    }
    NotContained(needles, node, nodes'[s]);
    error := None;
  }

  /** Every state queued so far is linked. */
  ghost predicate OrderLinked(needles: seq<Text>, texts: seq<Text>, nodes: seq<Node>, order: seq<nat>)
    requires InRange(order, |texts|)
  {
    |nodes| == |texts| && forall i :: 0 <= i < |order| ==> Linked(needles, texts, nodes[order[i]].f, order[i])
  }

  /** The state of Algorithm 3 while r is being expanded. */
  ghost predicate Linking(needles: seq<Text>, texts: seq<Text>, edges: map<nat, nat>, nodes: seq<Node>, order: seq<nat>,
      expanded: set<nat>, r: nat, bs: seq<byte>) {
    var whole :=
      && BreadthFirst(texts, edges, order, expanded, r, bs)
      && Labels(needles, |needles|, nodes, texts) && nodes[0].needleIndex == 0
         && OrderLinked(needles, texts, nodes, order);
    whole
  }

  lemma ChildLinked(needles: seq<Text>, texts: seq<Text>, edges: map<nat, nat>, nodes: seq<Node>, order: seq<nat>,
      expanded: set<nat>, r: nat, bs: seq<byte>, b: byte, f: nat)
    requires Trie(needles, texts, edges) && Linking(needles, texts, edges, nodes, order, expanded, r, bs)
    requires r !in expanded && b !in bs && r * 256 + b in edges && edges[r * 256 + b] < |texts|
    requires Linked(needles, texts, f, edges[r * 256 + b]) && LinkedBelow(needles, texts, nodes, |texts[r]|)
    ensures var s := edges[r * 256 + b];
            var nodes' := nodes[s := nodes[s].(f := f)];
            && Linking(needles, texts, edges, nodes', order + [s], expanded, r, bs + [b])
            && LinkedBelow(needles, texts, nodes', |texts[r]|)
  {
    var s := edges[r * 256 + b];
    assert QueuedAt(edges, order, expanded, r, bs, r, b);
    Enqueue(needles, texts, edges, order, expanded, r, bs, b);
    WithLink(needles, nodes, texts, s, f);
  }

  lemma NextSymbol(symbols: seq<byte>, edges: map<nat, nat>, r: nat, i: nat)
    requires SymbolsAt(symbols, edges, r) && i < |symbols|
    ensures r * 256 + symbols[i] in edges && symbols[i] !in symbols[..i]
    ensures symbols[..i] + [symbols[i]] == symbols[..i + 1]
  {
    assert symbols[i] in symbols;
  }

  /** Both sequences grew by the same states. */
  ghost predicate Appended(queue: seq<nat>, order: seq<nat>, queue': seq<nat>, order': seq<nat>) {
    |order| <= |order'| && order'[..|order|] == order && queue' == queue + order'[|order|..]
  }

  lemma AppendOne(queue: seq<nat>, order: seq<nat>, queue': seq<nat>, order': seq<nat>, s: nat)
    requires Appended(queue, order, queue', order')
    ensures Appended(queue, order, queue' + [s], order' + [s])
  {
    assert (order' + [s])[..|order|] == order'[..|order|];
    assert (order' + [s])[|order|..] == order'[|order|..] + [s];
  }

  /** Links one child of r. */
  method LinkNext(needles: seq<Text>, r: nat, b: byte, gTable: array<nat>, nodes: seq<Node>, ghost g: Graph,
      ghost order: seq<nat>, ghost expanded: set<nat>, ghost bs: seq<byte>)
    returns (error: Option<BuildError>, s: nat, nodes': seq<Node>)
    requires Trie(needles, g.texts, g.edges) && PrefixFree(needles, |needles|) && Table(gTable[..], g.edges)
    requires Linking(needles, g.texts, g.edges, nodes, order, expanded, r, bs) && r in order && r !in expanded
    requires LinkedBelow(needles, g.texts, nodes, |g.texts[r]|) && r * 256 + b in g.edges && b !in bs
    ensures error.Some? ==> Holds(needles, error.value)
    ensures error.None? ==>
              && Linking(needles, g.texts, g.edges, nodes', order + [s], expanded, r, bs + [b])
              && LinkedBelow(needles, g.texts, nodes', |g.texts[r]|)
  {
    error, s, nodes' := LinkChild(needles, r, b, gTable, nodes, g.texts, g.edges);
    if error.None? {
      ChildLinked(needles, g.texts, g.edges, nodes, order, expanded, r, bs, b, nodes'[s].f);
    }
  }

  /** Links all children of r and queues them. */
  method Expand(needles: seq<Text>, r: nat, gTable: array<nat>, nodes: seq<Node>, symbols: seq<byte>, queue: seq<nat>,
      ghost g: Graph, ghost order: seq<nat>, ghost expanded: set<nat>)
    returns (error: Option<BuildError>, nodes': seq<Node>, queue': seq<nat>, ghost order': seq<nat>)
    requires Trie(needles, g.texts, g.edges) && PrefixFree(needles, |needles|) && Table(gTable[..], g.edges)
    requires Linking(needles, g.texts, g.edges, nodes, order, expanded, r, []) && r in order && r !in expanded
    requires LinkedBelow(needles, g.texts, nodes, |g.texts[r]|) && SymbolsAt(symbols, g.edges, r)
    ensures error.Some? ==> Holds(needles, error.value)
    ensures error.None? ==> Linking(needles, g.texts, g.edges, nodes', order', expanded, r, symbols)
    ensures error.None? ==> Appended(queue, order, queue', order')
  {
    nodes', queue', order' := nodes, queue, order;
    ghost var bs: seq<byte> := [];
    for i := 0 to |symbols|
      invariant Linking(needles, g.texts, g.edges, nodes', order', expanded, r, bs) && r in order'
      invariant LinkedBelow(needles, g.texts, nodes', |g.texts[r]|)
      invariant bs == symbols[..i] && Appended(queue, order, queue', order')
    {
      NextSymbol(symbols, g.edges, r, i);
      var s;
      error, s, nodes' := LinkNext(needles, r, symbols[i], gTable, nodes', g, order', expanded, bs);
      if error.Some? {
        return;
      }
      AppendOne(queue, order, queue', order', s);
      bs := bs + [symbols[i]];
      queue', order' := queue' + [s], order' + [s];
    }
    assert bs == symbols;
    error := None;
  }

  // ---- The queue ----

  /** The children of the initial state keep the failure link they were created with. */
  lemma RootChildLinked(needles: seq<Text>, g: Graph, order: seq<nat>, bs: seq<byte>, b: byte)
    requires Built(needles, |needles|, needles, g) && PrefixFree(needles, |needles|)
    requires Linking(needles, g.texts, g.edges, g.nodes, order, {}, 0, bs) && b !in bs && b in g.edges
    ensures Linking(needles, g.texts, g.edges, g.nodes, order + [g.edges[b]], {}, 0, bs + [b])
  {
    Enqueue(needles, g.texts, g.edges, order, {}, 0, bs, b);
    assert EdgeAt(needles, g.texts, g.edges, 0, b);
    var s := g.edges[b];
    assert g.texts[s][1..] == [];
    assert Linked(needles, g.texts, g.nodes[s].f, s);
  }

  /** Queues the children of the initial state. */
  method QueueRoot(ghost needles: seq<Text>, gTable: array<nat>, symbols: seq<byte>, ghost g: Graph)
      returns (queue: seq<nat>)
    requires Built(needles, |needles|, needles, g) && PrefixFree(needles, |needles|) && Table(gTable[..], g.edges)
    requires SymbolsAt(symbols, g.edges, 0)
    ensures Linking(needles, g.texts, g.edges, g.nodes, queue, {}, 0, symbols)
  {
    queue := [];
    ghost var bs: seq<byte> := [];
    for i := 0 to |symbols|
      invariant Linking(needles, g.texts, g.edges, g.nodes, queue, {}, 0, bs) && bs == symbols[..i]
    {
      NextSymbol(symbols, g.edges, 0, i);
      RootChildLinked(needles, g, queue, bs, symbols[i]);
      var word := Lookup(gTable, g.edges, 0, symbols[i]);
      queue, bs := queue + [CodeOf(word)], bs + [symbols[i]];
    }
    assert bs == symbols;
  }

  lemma {:induction false} OrderShort(order: seq<nat>, n: nat)
    requires InRange(order, n) && OrderDistinct(order)
    ensures |order| <= n
  {
    DistinctSize(order);
    SubsetNotLarger(set i | 0 <= i < |order| :: order[i], Below(n));
  }

  lemma {:induction false} DistinctSize(order: seq<nat>)
    requires OrderDistinct(order)
    ensures |set i | 0 <= i < |order| :: order[i]| == |order|
  {
    if order != [] {
      var n := |order| - 1;
      DistinctSize(order[..n]);
      assert (set i | 0 <= i < |order| :: order[i]) == (set i | 0 <= i < n :: order[..n][i]) + {order[n]};
    }
  }

  lemma NotExpanded(order: seq<nat>, h: nat, n: nat)
    requires InRange(order, n) && OrderDistinct(order) && h < |order|
    ensures order[h] !in Expanded(order, h)
  {
  }

  lemma ExpandedNext(order: seq<nat>, order': seq<nat>, h: nat)
    requires h < |order| && |order| <= |order'| && order'[..|order|] == order
    ensures order'[h] == order[h] && Expanded(order', h + 1) == Expanded(order, h) + {order[h]}
  {
    forall i | 0 <= i <= h ensures order'[i] == order[i] {
      assert order'[i] == order'[..|order|][i];
    }
  }

  lemma ShallowLinked(needles: seq<Text>, texts: seq<Text>, edges: map<nat, nat>, nodes: seq<Node>, order: seq<nat>,
      h: nat, r: nat)
    requires Trie(needles, texts, edges) && h < |order| && r == order[h]
    requires BreadthFirst(texts, edges, order, Expanded(order, h), r, []) && OrderLinked(needles, texts, nodes, order)
    ensures LinkedBelow(needles, texts, nodes, |texts[r]|)
  {
    forall v | 0 < v < |texts| && |texts[v]| < |texts[r]| ensures Linked(needles, texts, nodes[v].f, v) {
      Reached(needles, texts, edges, order, h, r, [], v);
    }
  }

  /** The next state to expand: queued, not yet expanded, and all shallower states are linked. */
  lemma NextInQueue(needles: seq<Text>, g: Graph, nodes: seq<Node>, order: seq<nat>, h: nat)
    requires Trie(needles, g.texts, g.edges) && h < |order|
    requires Linking(needles, g.texts, g.edges, nodes, order, Expanded(order, h), order[h], [])
    ensures order[h] !in Expanded(order, h) && LinkedBelow(needles, g.texts, nodes, |g.texts[order[h]]|)
            && h < |g.texts|
  {
    OrderShort(order, |g.texts|);
    NotExpanded(order, h, |g.texts|);
    ShallowLinked(needles, g.texts, g.edges, nodes, order, h, order[h]);
  }

  /** The queue moves on after r was expanded. */
  lemma Advance(needles: seq<Text>, g: Graph, nodes: seq<Node>, order: seq<nat>, order': seq<nat>, h: nat,
      symbols: seq<byte>, r': nat)
    requires h < |order| && |order| <= |order'| && order'[..|order|] == order
    requires Linking(needles, g.texts, g.edges, nodes, order', Expanded(order, h), order[h], symbols)
    requires SymbolsAt(symbols, g.edges, order[h])
    requires r' == if h + 1 < |order'| then order'[h + 1] else order[h]
    ensures Linking(needles, g.texts, g.edges, nodes, order', Expanded(order', h + 1), r', [])
  {
    ExpandedNext(order, order', h);
    Dequeue(g.texts, g.edges, order', Expanded(order, h), order[h], symbols, r');
  }

  lemma QueueTail(queue: seq<nat>, order: seq<nat>, queue': seq<nat>, order': seq<nat>, h: nat)
    requires h < |order| && queue == order[h..] && Appended(queue[1..], order, queue', order')
    ensures queue' == order'[h + 1..]
  {
    assert forall i :: 0 <= i < |order| ==> order'[i] == order'[..|order|][i] == order[i];
  }

  lemma EverythingLinked(needles: seq<Text>, g: Graph, nodes: seq<Node>, order: seq<nat>, r: nat)
    requires Trie(needles, g.texts, g.edges)
    requires Linking(needles, g.texts, g.edges, nodes, order, Expanded(order, |order|), r, [])
    ensures AllLinked(needles, g.texts, nodes)
  {
    forall v | 0 < v < |g.texts| ensures Linked(needles, g.texts, nodes[v].f, v) {
      Reached(needles, g.texts, g.edges, order, |order|, r, [], v);
    }
  }

  /** The queue holds the states from h on, of which r is next. */
  ghost predicate Walking(needles: seq<Text>, g: Graph, nodes: seq<Node>, queue: seq<nat>, order: seq<nat>, h: nat,
      r: nat) {
    var whole :=
      && h <= |order| && queue == order[h..] && (h < |order| ==> r == order[h])
      && Linking(needles, g.texts, g.edges, nodes, order, Expanded(order, h), r, []);
    whole
  }

  /** Takes the next state from the queue and expands it. */
  method ExpandFirst(needles: seq<Text>, gTable: array<nat>, nodes: seq<Node>, gSet: seq<seq<byte>>, queue: seq<nat>,
      ghost g: Graph, ghost order: seq<nat>, ghost h: nat, ghost r: nat)
    returns (error: Option<BuildError>, nodes': seq<Node>, queue': seq<nat>, ghost order': seq<nat>, ghost r': nat)
    requires Trie(needles, g.texts, g.edges) && PrefixFree(needles, |needles|) && Table(gTable[..], g.edges)
    requires Symbols(gSet, g.edges, |g.texts|) && queue != [] && Walking(needles, g, nodes, queue, order, h, r)
    ensures error.Some? ==> Holds(needles, error.value)
    ensures error.None? ==> Walking(needles, g, nodes', queue', order', h + 1, r') && h < |g.texts|
  {
    var first := queue[0];
    ghost var expanded := Expanded(order, h);
    r' := r;
    NextInQueue(needles, g, nodes, order, h);
    assert SymbolsAt(gSet[first], g.edges, first);
    error, nodes', queue', order' := Expand(needles, first, gTable, nodes, gSet[first], queue[1..], g, order, expanded);
    if error.None? {
      r' := Moved(needles, g, nodes', queue, order, queue', order', h, gSet[first]);
    }
  }

  lemma Moved(needles: seq<Text>, g: Graph, nodes: seq<Node>, queue: seq<nat>, order: seq<nat>, queue': seq<nat>,
      order': seq<nat>, h: nat, symbols: seq<byte>)
    returns (r': nat)
    requires h < |order| && queue == order[h..] && Appended(queue[1..], order, queue', order')
    requires Linking(needles, g.texts, g.edges, nodes, order', Expanded(order, h), order[h], symbols)
    requires SymbolsAt(symbols, g.edges, order[h])
    ensures Walking(needles, g, nodes, queue', order', h + 1, r')
  {
    r' := if h + 1 < |order'| then order'[h + 1] else order[h];
    Advance(needles, g, nodes, order, order', h, symbols, r');
    QueueTail(queue, order, queue', order', h);
  }

  /** Algorithm 3: construction of the failure function. */
  method BuildFailure(needles: seq<Text>, gTable: array<nat>, nodes: seq<Node>, gSet: seq<seq<byte>>, ghost g: Graph)
    returns (error: Option<BuildError>, nodes': seq<Node>)
    requires Built(needles, |needles|, needles, g) && PrefixFree(needles, |needles|) && Table(gTable[..], g.edges)
    requires nodes == g.nodes && gSet == g.gSet
    ensures error.Some? ==> Holds(needles, error.value)
    ensures error.None? ==>
              AllLinked(needles, g.texts, nodes') && Labels(needles, |needles|, nodes', g.texts)
              && nodes'[0].needleIndex == 0
  {
    assert SymbolsAt(gSet[0], g.edges, 0);
    var queue := QueueRoot(needles, gTable, gSet[0], g);
    ghost var order, h, r := queue, 0, if queue == [] then 0 else queue[0];
    Dequeue(g.texts, g.edges, order, {}, 0, gSet[0], r);
    assert Expanded(order, 0) == {} + {0};
    nodes' := nodes;
    while queue != []
      invariant Walking(needles, g, nodes', queue, order, h, r)
      decreases |g.texts| - h
    {
      error, nodes', queue, order, r := ExpandFirst(needles, gTable, nodes', gSet, queue, g, order, h, r);
      if error.Some? {
        return;
      }
      h := h + 1;
    }
    EverythingLinked(needles, g, nodes', order, r);
    error := None;
  }

  /** What NewMultiSearchAndReplacer accepts. */
  ghost predicate Accepted(needles: seq<Text>) {
    Independent(needles) && |Prefixes(needles)| <= CODE_LIMIT
  }

  lemma ErrorMeansRejected(needles: seq<Text>, e: BuildError)
    requires Holds(needles, e)
    ensures !Accepted(needles)
  {
    if e.PrefixNeedle? {
      assert OccursAt(needles[e.inner], needles[e.outer], 0);
      assert Occurs(needles[e.inner], needles[e.outer]);
    }
  }

  lemma Finished(needles: seq<Text>, g: Graph, nodes: seq<Node>)
    requires Built(needles, |needles|, needles, g) && PrefixFree(needles, |needles|)
    requires AllLinked(needles, g.texts, nodes) && Labels(needles, |needles|, nodes, g.texts)
             && nodes[0].needleIndex == 0
    ensures Accepted(needles) && Automaton(needles, nodes, g.edges)
  {
    LinksMakeIndependent(needles, g.texts, g.edges, nodes);
    StateCount(needles, g.texts, g.edges);
    assert forall s :: 0 <= s < |nodes| ==> LabelAt(needles, |needles|, nodes[s], g.texts[s]);
    forall s: nat, a: byte | s < |nodes| ensures GotoAt(needles, nodes, g.edges, s, a) {
      assert EdgeAt(needles, g.texts, g.edges, s, a);
    }
    forall s | 0 < s < |nodes| ensures FailureAt(needles, nodes, s) {
      assert Linked(needles, g.texts, nodes[s].f, s);
    }
  }

  /** Builds the automaton. It fails exactly when a needle is empty or contained in another, or
      the needles have more different starts than there are state numbers; the error is true. */
  method NewMultiSearchAndReplacer(needles: seq<Text>) returns (error: Option<BuildError>, s: MultiSearchAndReplacer?)
    ensures error.None? <==> Accepted(needles)
    ensures error.Some? ==> Holds(needles, error.value)
    ensures error.None? ==> s != null && s.Valid() && s.needles == needles
  {
    s := null;
    var gTable, nodes, gSet;
    ghost var g;
    error, gTable, nodes, gSet, g := BuildGoto(needles);
    if error.Some? {
      ErrorMeansRejected(needles, error.value);
      return;
    }
    var linked;
    error, linked := BuildFailure(needles, gTable, nodes, gSet, g);
    if error.Some? {
      ErrorMeansRejected(needles, error.value);
      return;
    }
    Finished(needles, g, linked);
    s := new MultiSearchAndReplacer(needles, gTable, linked, g.edges);
  }
}
