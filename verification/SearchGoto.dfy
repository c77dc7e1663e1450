/** Construction of the goto function: needles are inserted into the trie one by one,
    and rejected when one is empty, starts another, or needs too many states. */
module SearchGoto {
  import opened Arithmetic
  import opened Folding
  import opened Options
  import opened ProbeTable
  import opened SearchText
  import opened SearchTrie
  import opened SearchAutomaton

  datatype BuildError =
    | EmptyNeedle(index: nat)
    | PrefixNeedle(inner: nat, outer: nat)
    | ContainedNeedle(inner: nat, outer: nat)
    | TooManyStates

  /** The error says something true about the needles. */
  ghost predicate Holds(needles: seq<Text>, e: BuildError) {
    match e
    case EmptyNeedle(i) => i < |needles| && needles[i] == []
    case PrefixNeedle(i, j) => i < |needles| && j < |needles| && i != j && needles[i] <= needles[j]
    case ContainedNeedle(i, j) => i < |needles| && j < |needles| && i != j && Occurs(needles[i], needles[j])
    case TooManyStates => |Prefixes(needles)| > CODE_LIMIT
  }

  /** The node of a state names a needle that was inserted and starts with the state's text. */
  ghost predicate LabelAt(needles: seq<Text>, k: nat, node: Node, text: Text) {
    Labelled(needles, node) && TextOf(needles, node) == text && (text != [] ==> node.needleIndex < k)
  }

  ghost predicate Labels(needles: seq<Text>, k: nat, nodes: seq<Node>, texts: seq<Text>) {
    && |nodes| == |texts|
    && (forall s :: 0 <= s < |nodes| ==> LabelAt(needles, k, nodes[s], texts[s]))
  }

  ghost predicate NoDuplicates(bs: seq<byte>) {
    forall i, j :: 0 <= i < j < |bs| ==> bs[i] != bs[j]
  }

  /** The symbols listed for a state are those it has an edge for. */
  ghost predicate SymbolsAt(bs: seq<byte>, edges: map<nat, nat>, s: nat) {
    NoDuplicates(bs) && forall b: byte :: b in bs <==> s * 256 + b in edges
  }

  ghost predicate Symbols(gSet: seq<seq<byte>>, edges: map<nat, nat>, n: nat) {
    |gSet| == n && forall s :: 0 <= s < n ==> SymbolsAt(gSet[s], edges, s)
  }

  lemma AddedSymbols(gSet: seq<seq<byte>>, edges: map<nat, nat>, n: nat, state: nat, b: byte)
    requires Symbols(gSet, edges, n) && KeysBelow(edges, n) && state < n && state * 256 + b !in edges
    ensures Symbols(gSet[state := gSet[state] + [b]] + [[]], edges[state * 256 + b := n], n + 1)
  {
    var gSet', edges' := gSet[state := gSet[state] + [b]] + [[]], edges[state * 256 + b := n];
    forall s | 0 <= s < n + 1 ensures SymbolsAt(gSet'[s], edges', s) {
      if s < n {
        assert SymbolsAt(gSet[s], edges, s);
        assert s == state ==> b !in gSet[s];
      }
    }
  }

  lemma AddedLabels(needles: seq<Text>, k: nat, nodes: seq<Node>, texts: seq<Text>, node: Node, text: Text)
    requires Labels(needles, k, nodes, texts) && LabelAt(needles, k, node, text)
    ensures Labels(needles, k, nodes + [node], texts + [text])
  {
    forall s | 0 <= s < |nodes| + 1 ensures LabelAt(needles, k, (nodes + [node])[s], (texts + [text])[s]) {
      if s < |nodes| {
        assert LabelAt(needles, k, nodes[s], texts[s]);
      }
    }
  }

  /** The goto graph under construction: the nodes and symbol lists the program keeps,
      and the texts and edges they stand for. */
  datatype Graph = Graph(nodes: seq<Node>, gSet: seq<seq<byte>>, texts: seq<Text>, edges: map<nat, nat>)

  /** What Algorithm 2 has built from the texts known so far, of which k needles. */
  ghost predicate Built(needles: seq<Text>, k: nat, known: seq<Text>, g: Graph) {
    var whole :=
      && Trie(known, g.texts, g.edges) && Labels(needles, k, g.nodes, g.texts) && Symbols(g.gSet, g.edges, |g.texts|)
      && |g.nodes| <= CODE_LIMIT && g.nodes[0].needleIndex == 0
         && (forall s :: 0 <= s < |g.nodes| ==> g.nodes[s].f == 0);
    whole
  }

  ghost predicate Table(t: seq<nat>, edges: map<nat, nat>) {
    TableOf(t, edges) && |edges| < |t|
  }

  /** Walks the part of a needle that already exists in the goto graph. */
  method Walk(a: Text, gTable: array<nat>, ghost known: seq<Text>, ghost texts: seq<Text>, ghost edges: map<nat, nat>)
    returns (state: nat, j: nat)
    requires Trie(known, texts, edges) && Table(gTable[..], edges)
    ensures j <= |a| && state < |texts| && texts[state] == a[..j]
    ensures j < |a| ==> !Starts(known, a[..j + 1])
  {
    state, j := 0, 0;
    while j < |a|
      invariant j <= |a| && state < |texts| && texts[state] == a[..j]
    {
      var word := Lookup(gTable, edges, state, a[j]);
      assert EdgeAt(known, texts, edges, state, a[j]);
      assert a[..j + 1] == a[..j] + [a[j]];
      if word == 0 {
        return;
      }
      state, j := CodeOf(word), j + 1;
    }
  }

  /** Doubles the table until it has room for the new states. */
  method Grow(gTable: array<nat>, ghost edges: map<nat, nat>, states: nat) returns (t: array<nat>)
    requires Table(gTable[..], edges) && |edges| < states
    ensures t == gTable || fresh(t)
    ensures TableOf(t[..], edges) && t.Length >= states * 4
  {
    assert Opened(OfTable);
    var minimum := states * 4;
    if gTable.Length < minimum {
      var size := gTable.Length;
      while size < minimum
        invariant size > 0 && PowerOfTwo(size)
      {
        DoublePower(size);
        size := size * 2;
      }
      t := Rehash(gTable, edges, size);
    } else {
      t := gTable;
    }
  }

  lemma DoublePower(n: nat)
    requires PowerOfTwo(n)
    ensures PowerOfTwo(n * 2)
  {
    var k: nat :| n == Pow2(k);
    assert Pow2(k + 1) == n * 2;
  }

  lemma StartExisting(needles: seq<Text>, k: nat, j: nat, g: Graph)
    requires k < |needles| && j <= |needles[k]| && Starts(needles[..k], needles[k][..j])
    requires Built(needles, k, needles[..k], g)
    ensures Built(needles, k + 1, needles[..k] + [needles[k][..j]], g)
  {
    NameExisting(needles[..k], g.texts, g.edges, needles[k][..j]);
    forall s | 0 <= s < |g.nodes| ensures LabelAt(needles, k + 1, g.nodes[s], g.texts[s]) {
      assert LabelAt(needles, k, g.nodes[s], g.texts[s]);
    }
  }

  /** With all state numbers taken, one more start of a needle is one too many. */
  lemma OutOfStates(needles: seq<Text>, k: nat, p: nat, texts: seq<Text>, edges: map<nat, nat>)
    requires k < |needles| && p < |needles[k]|
    requires Trie(needles[..k] + [needles[k][..p]], texts, edges) && !Starts(needles[..k], needles[k][..p + 1])
    requires |texts| >= CODE_LIMIT
    ensures |Prefixes(needles)| > CODE_LIMIT
  {
    var x, b := needles[k][..p], needles[k][p];
    assert needles[k][..p + 1] == x + [b];
    AddedIsDistinct(needles[..k], texts, x, b);
    var all := texts + [x + [b]];
    forall s | 0 <= s < |all| ensures all[s] in Prefixes(needles) {
      if s < |texts| {
        StartsKnown(needles[..k], x, texts[s]);
        if Starts(needles[..k], texts[s]) {
          StartsMore(needles, k, texts[s]);
        } else {
          assert texts[s] <= needles[k];
        }
      } else {
        assert all[s] <= needles[k];
      }
    }
    DistinctCount(all, Prefixes(needles));
  }

  lemma StartsMore(needles: seq<Text>, k: nat, u: Text)
    requires k <= |needles| && Starts(needles[..k], u)
    ensures Starts(needles, u)
  {
    if u != [] {
      var i :| 0 <= i < k && u <= needles[..k][i];
      assert u <= needles[i];
    }
  }

  /** A text that starts no known needle does not start to do so when it grows. */
  lemma StillNew(known: seq<Text>, a: Text, p: nat)
    requires p + 1 < |a| && !Starts(known, a[..p + 1])
    ensures !Starts(known, a[..p + 2])
  {
    if Starts(known, a[..p + 2]) {
      assert a[..p + 1] <= a[..p + 2];
      StartsPrefix(known, a[..p + 1], a[..p + 2]);
    }
  }

  /** The states for the first p symbols of needle k exist, the last of them is `state`.
      Kept folded. */
  ghost predicate Inserting(needles: seq<Text>, k: nat, p: nat, state: nat, g: Graph)
    requires k < |needles| && p <= |needles[k]|
  {
    var folded := forall f: Fold {:trigger Opened(f)} :: Opened(f) && f == OfInsertion ==>
      && Built(needles, k + 1, needles[..k] + [needles[k][..p]], g)
      && state < |g.gSet| == |g.texts| && g.texts[state] == needles[k][..p]
      && (p < |needles[k]| ==> !Starts(needles[..k], needles[k][..p + 1]));
    folded
  }

  /** The graph with one more state, below `state`. */
  ghost function WithState(g: Graph, state: nat, b: byte, node: Node, text: Text): Graph {
    if state >= |g.gSet| then g else Graph(g.nodes + [node], g.gSet[state := g.gSet[state] + [b]] + [[]],
      g.texts + [text], g.edges[state * 256 + b := |g.nodes|])
  }

  lemma Grown(needles: seq<Text>, k: nat, known: seq<Text>, x: Text, b: byte, state: nat, node: Node, g: Graph,
      g': Graph)
    requires Built(needles, k, known + [x], g) && |g.nodes| < CODE_LIMIT
    requires state < |g.texts| && x == g.texts[state] && !Starts(known, x + [b])
    requires LabelAt(needles, k, node, x + [b]) && node.f == 0
    requires g' == WithState(g, state, b, node, x + [b])
    ensures state * 256 + b !in g.edges && |g.edges| == |g.nodes| - 1
    ensures Built(needles, k, known + [x + [b]], g')
  {
    AddState(known, g.texts, g.edges, state, b, x);
    AddedSymbols(g.gSet, g.edges, |g.texts|, state, b);
    AddedLabels(needles, k, g.nodes, g.texts, node, x + [b]);
  }

  lemma Inserted(needles: seq<Text>, k: nat, p: nat, state: nat, g: Graph, g': Graph)
    requires k < |needles| && p < |needles[k]| && |g.nodes| < CODE_LIMIT
    requires Inserting(needles, k, p, state, g)
    requires g' == WithState(g, state, needles[k][p], Node(k, p + 1, 0), needles[k][..p + 1])
    ensures state * 256 + needles[k][p] !in g.edges && |g.edges| == |g.nodes| - 1
    ensures Inserting(needles, k, p + 1, |g.nodes|, g')
  {
    assert Opened(OfInsertion);
    assert needles[k][..p + 1] == needles[k][..p] + [needles[k][p]];
    Grown(needles, k + 1, needles[..k], needles[k][..p], needles[k][p], state, Node(k, p + 1, 0), g, g');
    if p + 1 < |needles[k]| {
      StillNew(needles[..k], needles[k], p);
    }
  }

  /** Writes the edge to a new state into the table. */
  method AddEdge(gTable: array<nat>, ghost edges: map<nat, nat>, key: nat, next: nat)
    requires Table(gTable[..], edges) && key !in edges && 0 < next < CODE_LIMIT
    modifies gTable
    ensures TableOf(gTable[..], edges[key := next])
  {
    assert Opened(OfTable);
    PackedParts(key, next);
    Place(gTable, edges, Pack(key, next));
  }

  /** Inserting, together with the variables that hold the graph. */
  ghost predicate Holding(needles: seq<Text>, k: nat, p: nat, state: nat, g: Graph, nodes: seq<Node>,
      gSet: seq<seq<byte>>, table: seq<nat>)
    requires k < |needles| && p <= |needles[k]|
  {
    var whole := Inserting(needles, k, p, state, g) && nodes == g.nodes && gSet == g.gSet && TableOf(table, g.edges);
    whole
  }

  /** Creates the state for the next symbol of needle k, if there is a number left for it. */
  method AddOne(needles: seq<Text>, k: nat, p: nat, state: nat, gTable: array<nat>, nodes: seq<Node>,
      gSet: seq<seq<byte>>, ghost g: Graph)
    returns (ok: bool, nodes': seq<Node>, gSet': seq<seq<byte>>, ghost g': Graph)
    requires k < |needles| && p < |needles[k]| && Holding(needles, k, p, state, g, nodes, gSet, gTable[..])
    requires |nodes| <= gTable.Length
    modifies gTable
    ensures ok ==> Holding(needles, k, p + 1, |nodes|, g', nodes', gSet', gTable[..]) && |nodes'| == |nodes| + 1
    ensures !ok ==> |Prefixes(needles)| > CODE_LIMIT
  {
    assert Opened(OfInsertion);
    if |nodes| >= CODE_LIMIT {
      OutOfStates(needles, k, p, g.texts, g.edges);
      return false, nodes, gSet, g;
    }
    var b, node := needles[k][p], Node(k, p + 1, 0);
    g' := WithState(g, state, b, node, needles[k][..p + 1]);
    Inserted(needles, k, p, state, g, g');
    AddEdge(gTable, g.edges, state * 256 + b, |nodes|);
    ok, nodes', gSet' := true, nodes + [node], gSet[state := gSet[state] + [b]] + [[]];
  }

  lemma WholeNeedle(needles: seq<Text>, k: nat, state: nat, g: Graph)
    requires k < |needles| && Inserting(needles, k, |needles[k]|, state, g)
    ensures Built(needles, k + 1, needles[..k] + [needles[k]], g) && |g.edges| < |g.nodes|
  {
    assert Opened(OfInsertion);
    assert needles[k][..|needles[k]|] == needles[k];
  }

  /** Creates the states of a newly observed suffix. */
  method AddSuffix(needles: seq<Text>, k: nat, j: nat, state: nat, gTable: array<nat>, nodes: seq<Node>,
      gSet: seq<seq<byte>>, ghost g: Graph)
    returns (ok: bool, last: nat, nodes': seq<Node>, gSet': seq<seq<byte>>, ghost g': Graph)
    requires k < |needles| && j < |needles[k]| && Holding(needles, k, j, state, g, nodes, gSet, gTable[..])
    requires |nodes| + |needles[k]| - j <= gTable.Length
    modifies gTable
    ensures ok ==> Holding(needles, k, |needles[k]|, last, g', nodes', gSet', gTable[..]) && |nodes'| <= gTable.Length
    ensures !ok ==> |Prefixes(needles)| > CODE_LIMIT
  {
    var p := j;
    last, nodes', gSet', g' := state, nodes, gSet, g;
    while p < |needles[k]|
      invariant j <= p <= |needles[k]| && Holding(needles, k, p, last, g', nodes', gSet', gTable[..])
      invariant |nodes'| - p == |nodes| - j
    {
      var next := |nodes'|;
      ok, nodes', gSet', g' := AddOne(needles, k, p, last, gTable, nodes', gSet', g');
      if !ok {
        return;
      }
      last, p := next, p + 1;
    }
    ok := true;
  }

  /** The first k needles are not empty, and none starts another. */
  ghost predicate PrefixFree(needles: seq<Text>, k: nat)
    requires k <= |needles|
  {
    && (forall i :: 0 <= i < k ==> needles[i] != [])
    && (forall i, j :: 0 <= i < k && 0 <= j < k && needles[i] <= needles[j] ==> i == j)
  }

  /** The walk through the trie for needle k ended in `state`, after j symbols. */
  ghost predicate Walked(needles: seq<Text>, k: nat, j: nat, state: nat, g: Graph)
    requires k < |needles|
  {
    && j <= |needles[k]| && state < |g.texts| && g.texts[state] == needles[k][..j]
    && (j < |needles[k]| ==> !Starts(needles[..k], needles[k][..j + 1]))
  }

  /** The node where the walk ends names a needle that shares its first j symbols. */
  lemma Existing(needles: seq<Text>, k: nat, j: nat, state: nat, g: Graph)
    requires k < |needles| && needles[k] != [] && PrefixFree(needles, k)
    requires Built(needles, k, needles[..k], g) && Walked(needles, k, j, state, g)
    ensures var e := g.nodes[state].needleIndex;
            && e < |needles| && needles[e] != []
            && (j > 0 ==> e < k && j <= |needles[e]| && needles[e][..j] == needles[k][..j])
  {
    assert LabelAt(needles, k, g.nodes[state], g.texts[state]);
    if j == 0 {
      assert g.texts[0] == g.texts[state];
    }
  }

  lemma SharedStart(a: Text, j: nat, x: Text)
    requires j < |a| && (a <= x || (x <= a && j < |x|))
    ensures a[..j + 1] <= x
  {
  }

  lemma ShortPrefix(a: Text, j: nat, x: Text, y: Text)
    requires x <= a && |x| <= j <= |a| && j <= |y| && y[..j] == a[..j]
    ensures x <= y
  {
    assert x == a[..j][..|x|];
  }

  /** Known texts either share less than j symbols with a, or lie within its first j. */
  lemma KnownIsShort(known: seq<Text>, a: Text, j: nat, i: nat)
    requires j < |a| && !Starts(known, a[..j + 1]) && i < |known|
    ensures !(a <= known[i]) && (known[i] <= a ==> |known[i]| <= j)
  {
    if a <= known[i] || (known[i] <= a && j < |known[i]|) {
      SharedStart(a, j, known[i]);
    }
  }

  /** A needle that passes both checks starts no other needle, and no other needle starts it. */
  lemma StillPrefixFree(needles: seq<Text>, k: nat, j: nat, state: nat, g: Graph)
    requires k < |needles| && needles[k] != [] && PrefixFree(needles, k)
    requires Built(needles, k, needles[..k], g) && Walked(needles, k, j, state, g)
    requires j < |needles[k]| && g.nodes[state].needleIndex < |needles| && |needles[g.nodes[state].needleIndex]| != j
    ensures PrefixFree(needles, k + 1)
  {
    Existing(needles, k, j, state, g);
    var e := g.nodes[state].needleIndex;
    forall i | 0 <= i < k ensures !(needles[i] <= needles[k]) && !(needles[k] <= needles[i]) {
      KnownIsShort(needles[..k], needles[k], j, i);
      if needles[i] <= needles[k] {
        ShortPrefix(needles[k], j, needles[i], needles[e]);
      }
    }
  }

  /** Inserts needle k into the goto graph. */
  method InsertNeedle(needles: seq<Text>, k: nat, gTable: array<nat>, nodes: seq<Node>, gSet: seq<seq<byte>>,
      ghost g: Graph)
    returns (error: Option<BuildError>, gTable': array<nat>, nodes': seq<Node>, gSet': seq<seq<byte>>, ghost g': Graph)
    requires k < |needles| && PrefixFree(needles, k) && Built(needles, k, needles[..k], g)
    requires nodes == g.nodes && gSet == g.gSet && Table(gTable[..], g.edges)
    modifies gTable
    ensures gTable' == gTable || fresh(gTable')
    ensures error.Some? ==> Holds(needles, error.value)
    ensures error.None? ==> PrefixFree(needles, k + 1) && Built(needles, k + 1, needles[..k] + [needles[k]], g')
    ensures error.None? ==> nodes' == g'.nodes && gSet' == g'.gSet && Table(gTable'[..], g'.edges)
  {
    error, gTable', nodes', gSet', g' := None, gTable, nodes, gSet, g;
    var a := needles[k];
    if |a| == 0 {
      return Some(EmptyNeedle(k)), gTable, nodes, gSet, g;
    }
    var state, j := Walk(a, gTable, needles[..k], g.texts, g.edges);
    Existing(needles, k, j, state, g);
    var existing := nodes[state].needleIndex;
    if |needles[existing]| == j {
      return Some(PrefixNeedle(existing, k)), gTable, nodes, gSet, g;
    }
    if |a| == j {
      return Some(PrefixNeedle(k, existing)), gTable, nodes, gSet, g;
    }
    StillPrefixFree(needles, k, j, state, g);
    gTable' := Grow(gTable, g.edges, |nodes| + |a| - j);
    StartExisting(needles, k, j, g);
    var ok, last;
    ok, last, nodes', gSet', g' := AddSuffix(needles, k, j, state, gTable', nodes, gSet, g);
    if !ok {
      return Some(TooManyStates), gTable', nodes', gSet', g';
    }
    WholeNeedle(needles, k, last, g');
    error := None;
  }

  lemma EmptyGraph(needles: seq<Text>)
    ensures Built(needles, 0, needles[..0], Graph([Node(0, 0, 0)], [[]], [[]], map[]))
  {
    EmptyTrie();
  }

  lemma InitialTable(t: seq<nat>)
    requires |t| == 0x100 && forall s :: 0 <= s < |t| ==> t[s] == 0
    ensures Table(t, map[])
  {
    assert Pow2(8) == 0x100;
    EmptyStores(t);
  }

  /** Algorithm 2: construction of the goto function. */
  method BuildGoto(needles: seq<Text>)
    returns (error: Option<BuildError>, gTable: array<nat>, nodes: seq<Node>, gSet: seq<seq<byte>>, ghost g: Graph)
    ensures fresh(gTable)
    ensures error.Some? ==> Holds(needles, error.value)
    ensures error.None? ==> PrefixFree(needles, |needles|) && Built(needles, |needles|, needles, g)
    ensures error.None? ==> nodes == g.nodes && gSet == g.gSet && Table(gTable[..], g.edges)
  {
    gTable := new nat[0x100](_ => 0);
    nodes, gSet, g := [Node(0, 0, 0)], [[]], Graph([Node(0, 0, 0)], [[]], [[]], map[]);
    EmptyGraph(needles);
    InitialTable(gTable[..]);
    for k := 0 to |needles|
      invariant fresh(gTable) && PrefixFree(needles, k) && Built(needles, k, needles[..k], g)
      invariant nodes == g.nodes && gSet == g.gSet && Table(gTable[..], g.edges)
    {
      error, gTable, nodes, gSet, g := InsertNeedle(needles, k, gTable, nodes, gSet, g);
      if error.Some? {
        return;
      }
      assert needles[..k] + [needles[k]] == needles[..k + 1];
    }
    assert needles[..|needles|] == needles;
    error := None;
  }
}
