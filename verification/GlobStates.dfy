/** The automaton: states in an array, each reached by one path of tokens from the first. */
module GlobStates {
  import opened Folding
  import opened GlobPattern

  /** Whether paths that lead to a state match. Patterns never give the last one; bytes may. */
  datatype End = NoEnd | Positive | Negative | Undefined

  /** The numbers that the source gives to ends. */
  function EndNumber(e: End): (n: nat)
    ensures n < 4
  {
    match e
    case NoEnd => 0
    case Positive => 1
    case Negative => 2
    case Undefined => 3
  }

  function EndNumbered(n: nat): (e: End)
    requires n < 4
    ensures EndNumber(e) == n
  {
    if n == 0 then NoEnd else if n == 1 then Positive else if n == 2 then Negative else Undefined
  }

  /** A state. An index of zero means that there is no such edge; regular characters are kept in a
      list of siblings, in the order of their runes. */
  datatype State = State(star: nat, starStarSlash: nat, hasPositive: bool, end: End, first: nat, next: nat, rune: nat)

  const BLANK := State(0, 0, false, NoEnd, 0, 0, 0)

  const STATE_MASK: nat := 0x1f_ffff

  /** The paths that lead to the states, and the children of each for regular characters, in order. */
  datatype Shape = Shape(paths: seq<Path>, kids: seq<seq<nat>>)

  ghost predicate Distinct(paths: seq<Path>) {
    forall i, j :: 0 <= i < |paths| && 0 <= j < |paths| && paths[i] == paths[j] ==> i == j
  }

  /** Different paths of a set are at most as many as the set has, and as many if they are all of it. */
  lemma {:induction false} CountDistinct(ps: seq<Path>, all: set<Path>)
    requires Distinct(ps) && forall p :: p in ps ==> p in all
    ensures |ps| <= |all|
    ensures (forall p :: p in all ==> p in ps) ==> |ps| == |all|
  {
    if ps == [] {
      assert (forall p :: p in all ==> p in ps) ==> all == {};
    } else {
      var n := |ps| - 1;
      var front, rest := ps[..n], all - {ps[n]};
      assert ps == front + [ps[n]];
      forall p | p in front ensures p in rest {
        var k :| 0 <= k < n && front[k] == p;
        assert ps[k] == p;
      }
      CountDistinct(front, rest);
      if forall p :: p in all ==> p in ps {
        forall p | p in rest ensures p in front {
          var k :| 0 <= k < |ps| && ps[k] == p;
          assert front[k] == p;
        }
      }
    }
  }

  /** An index, or zero, that says where the child for a token is. */
  ghost predicate EdgeOk(paths: seq<Path>, i: nat, t: Token, j: nat)
    requires i < |paths|
  {
    if j == 0 then paths[i] + [t] !in paths else i < j < |paths| && paths[j] == paths[i] + [t]
  }

  function Sibling(list: seq<nat>, k: nat): nat {
    if k < |list| then list[k] else 0
  }

  /** The siblings of a list are linked one to the next. */
  ghost predicate Chained(states: seq<State>, first: nat, list: seq<nat>) {
    && first == Sibling(list, 0)
    && (forall k :: 0 <= k < |list| ==> list[k] < |states| && states[list[k]].next == Sibling(list, k + 1))
  }

  /** The children of i for regular characters: all of them, sorted by rune. */
  ghost predicate KidsOk(states: seq<State>, paths: seq<Path>, i: nat, list: seq<nat>)
    requires i < |paths| == |states|
  {
    && (forall k :: 0 <= k < |list| ==>
         i < list[k] < |states| && paths[list[k]] == paths[i] + [Rune(states[list[k]].rune)])
    && (forall k, l :: 0 <= k < l < |list| ==> states[list[k]].rune < states[list[l]].rune)
    && (forall j :: 0 <= j < |paths| && ChildForRune(paths[i], paths[j]) ==> j in list)
  }

  ghost predicate ChildForRune(p: Path, c: Path) {
    |c| == |p| + 1 && c[..|p|] == p && c[|p|].Rune?
  }

  ghost predicate NodeOk(states: seq<State>, s: Shape, i: nat)
    requires i < |states| == |s.paths| == |s.kids|
  {
    var whole :=
      && EdgeOk(s.paths, i, Star, states[i].star) && EdgeOk(s.paths, i, StarStarSlash, states[i].starStarSlash)
      && Chained(states, states[i].first, s.kids[i]) && KidsOk(states, s.paths, i, s.kids[i]);
    whole
  }

  /** Every path but the first leads through the state of its parent. */
  ghost predicate HasParent(paths: seq<Path>, j: nat)
    requires j < |paths|
  {
    paths[j] != [] && exists i :: 0 <= i < j && paths[i] == paths[j][..|paths[j]| - 1]
  }

  /** The automaton is a tree of paths. Kept folded. */
  ghost predicate Nfa(states: seq<State>, s: Shape) {
    && 0 < |states| <= STATE_MASK + 1 && |s.paths| == |states| && |s.kids| == |states|
    && var folded := forall f: Fold {:trigger Opened(f)} :: Opened(f) && f == OfNfa ==>
         && s.paths[0] == [] && Distinct(s.paths)
         && (forall j :: 0 < j < |states| ==> HasParent(s.paths, j))
         && (forall i {:trigger NodeOk(states, s, i)} :: 0 <= i < |states| ==> NodeOk(states, s, i));
       folded
  }

  lemma FirstState()
    ensures Nfa([BLANK], Shape([[]], [[]]))
  {
    assert Opened(OfNfa);
    var paths: seq<Path> := [[]];
    assert forall j :: 0 <= j < |paths| ==> !ChildForRune(paths[0], paths[j]);
    assert NodeOk([BLANK], Shape(paths, [[]]), 0);
  }

  /** The automaton grew: old paths keep their states and ends, new states have no end. */
  ghost predicate Grown(states: seq<State>, s: Shape, states': seq<State>, s': Shape) {
    && |states| == |s.paths| && |states'| == |s'.paths| && s.paths <= s'.paths
    && (forall i :: 0 <= i < |states'| ==> states'[i].end == if i < |states| then states[i].end else NoEnd)
    && (forall i :: 0 <= i < |states'| ==> !states'[i].hasPositive || (i < |states| && states[i].hasPositive))
  }

  // ---- Adding a state ----

  lemma SamePath(p: Path, t: Token, q: Path, u: Token)
    ensures p + [t] == q + [u] <==> p == q && t == u
  {
    if p + [t] == q + [u] {
      assert (p + [t])[..|p|] == p && (q + [u])[..|q|] == q && (p + [t])[|p|] == t && (q + [u])[|q|] == u;
    }
  }

  /** Edges of other states are not concerned by a new path below one of them. */
  lemma EdgeKept(paths: seq<Path>, cur: nat, t: Token, i: nat, u: Token, j: nat)
    requires cur < |paths| && i < |paths| && Distinct(paths) && EdgeOk(paths, i, u, j) && (i != cur || u != t)
    ensures EdgeOk(paths + [paths[cur] + [t]], i, u, j)
  {
    SamePath(paths[i], u, paths[cur], t);
  }

  lemma ParentKnown(states: seq<State>, s: Shape, j: nat)
    requires Nfa(states, s) && j < |states| && s.paths[j] != []
    ensures s.paths[j][..|s.paths[j]| - 1] in s.paths
  {
    assert Opened(OfNfa);
    assert HasParent(s.paths, j);
  }

  /** A new state has no children. */
  lemma NewIsLeaf(states: seq<State>, s: Shape, cur: nat, t: Token, u: Token)
    requires Nfa(states, s) && cur < |states| && s.paths[cur] + [t] !in s.paths
    ensures var p := s.paths[cur] + [t]; p + [u] !in s.paths + [p]
  {
    var p := s.paths[cur] + [t];
    assert (p + [u])[..|p|] == p;
    if p + [u] in s.paths {
      var j :| 0 <= j < |s.paths| && s.paths[j] == p + [u];
      ParentKnown(states, s, j);
    }
  }

  /** A new path, not for a regular character, leaves the lists of children as they are. */
  lemma KidsKept(states: seq<State>, states': seq<State>, paths: seq<Path>, i: nat, list: seq<nat>, p: Path)
    requires i < |paths| == |states| && KidsOk(states, paths, i, list) && !ChildForRune(paths[i], p)
    requires |states'| == |states| + 1 && forall k :: 0 <= k < |states| ==> states'[k].rune == states[k].rune
    ensures KidsOk(states', paths + [p], i, list)
  {
  }

  lemma ChainKept(states: seq<State>, states': seq<State>, first: nat, list: seq<nat>)
    requires Chained(states, first, list) && |states| <= |states'|
    requires forall k :: 0 <= k < |list| ==> states'[list[k]].next == states[list[k]].next
    ensures Chained(states', first, list)
  {
  }

  /** What all ways of adding a state have in common. */
  lemma AddedPath(states: seq<State>, s: Shape, cur: nat, t: Token)
    requires Nfa(states, s) && cur < |states| && s.paths[cur] + [t] !in s.paths
    ensures var paths' := s.paths + [s.paths[cur] + [t]];
            && paths'[0] == [] && Distinct(paths') && forall j :: 0 < j < |paths'| ==> HasParent(paths', j)
  {
    assert Opened(OfNfa);
    var p := s.paths[cur] + [t];
    var paths' := s.paths + [p];
    forall j | 0 < j < |paths'| ensures HasParent(paths', j) {
      if j < |s.paths| {
        assert HasParent(s.paths, j);
        var i :| 0 <= i < j && s.paths[i] == s.paths[j][..|s.paths[j]| - 1];
        assert paths'[i] == paths'[j][..|paths'[j]| - 1];
      } else {
        assert p[..|p| - 1] == s.paths[cur] == paths'[cur];
      }
    }
  }

  ghost function WithPath(s: Shape, p: Path): Shape {
    Shape(s.paths + [p], s.kids + [[]])
  }

  function WithWildcard(states: seq<State>, cur: nat, t: Token): (states': seq<State>)
    requires cur < |states|
    ensures |states'| == |states| + 1
  {
    states[cur := if t.Star? then states[cur].(star := |states|) else states[cur].(starStarSlash := |states|)] + [BLANK]
  }

  lemma WildcardEdges(states: seq<State>, paths: seq<Path>, cur: nat, t: Token, i: nat)
    requires |states| == |paths| && Distinct(paths) && cur < |states| && i < |states| && !t.Rune?
             && paths[cur] + [t] !in paths
    requires EdgeOk(paths, i, Star, states[i].star) && EdgeOk(paths, i, StarStarSlash, states[i].starStarSlash)
    ensures EdgeOk(paths + [paths[cur] + [t]], i, Star, WithWildcard(states, cur, t)[i].star)
    ensures EdgeOk(paths + [paths[cur] + [t]], i, StarStarSlash, WithWildcard(states, cur, t)[i].starStarSlash)
  {
    if i != cur || !t.Star? {
      EdgeKept(paths, cur, t, i, Star, states[i].star);
    }
    if i != cur || t.Star? {
      EdgeKept(paths, cur, t, i, StarStarSlash, states[i].starStarSlash);
    }
  }

  /** Adding a wildcard changes no list of siblings. */
  ghost predicate ListsKept(states: seq<State>, states': seq<State>) {
    && |states'| == |states| + 1
    && forall k :: 0 <= k < |states| ==>
         states'[k].rune == states[k].rune && states'[k].next == states[k].next && states'[k].first == states[k].first
  }

  lemma WildcardKeepsLists(states: seq<State>, cur: nat, t: Token)
    requires cur < |states|
    ensures ListsKept(states, WithWildcard(states, cur, t))
  {
  }

  lemma WildcardKids(states: seq<State>, states': seq<State>, paths: seq<Path>, cur: nat, t: Token, i: nat,
      list: seq<nat>)
    requires |states| == |paths| && cur < |states| && i < |states| && !t.Rune? && ListsKept(states, states')
    requires Chained(states, states[i].first, list) && KidsOk(states, paths, i, list)
    ensures Chained(states', states'[i].first, list) && KidsOk(states', paths + [paths[cur] + [t]], i, list)
  {
    NotForRune(paths[i], paths[cur], t);
    KidsKept(states, states', paths, i, list, paths[cur] + [t]);
    ChainKept(states, states', states[i].first, list);
  }

  lemma NotForRune(p: Path, q: Path, t: Token)
    requires !t.Rune? || p != q
    ensures !ChildForRune(p, q + [t])
  {
    if |p| == |q| {
      assert (q + [t])[..|p|] == q && (q + [t])[|p|] == t;
    }
  }

  /** A new state below cur, for a wildcard. */
  lemma WildcardAdded(states: seq<State>, s: Shape, cur: nat, t: Token)
    requires Nfa(states, s) && cur < |states| <= STATE_MASK && !t.Rune? && s.paths[cur] + [t] !in s.paths
    ensures Nfa(WithWildcard(states, cur, t), WithPath(s, s.paths[cur] + [t]))
    ensures Grown(states, s, WithWildcard(states, cur, t), WithPath(s, s.paths[cur] + [t]))
  {
    assert Opened(OfNfa);
    var states', s' := WithWildcard(states, cur, t), WithPath(s, s.paths[cur] + [t]);
    AddedPath(states, s, cur, t);
    forall i | 0 <= i < |states'| ensures NodeOk(states', s', i) {
      if i < |states| {
        assert NodeOk(states, s, i);
        WildcardEdges(states, s.paths, cur, t, i);
        WildcardKeepsLists(states, cur, t);
        WildcardKids(states, states', s.paths, cur, t, i, s.kids[i]);
      } else {
        LeafOk(states, s, cur, t, states', |states|);
      }
    }
  }

  lemma LeafOk(states: seq<State>, s: Shape, cur: nat, t: Token, states': seq<State>, n: nat)
    requires Nfa(states, s) && cur < |states| && s.paths[cur] + [t] !in s.paths && n == |states|
    requires |states'| == n + 1 && states'[n].star == 0 && states'[n].starStarSlash == 0 && states'[n].first == 0
    ensures NodeOk(states', WithPath(s, s.paths[cur] + [t]), n)
  {
    var p := s.paths[cur] + [t];
    var s' := WithPath(s, p);
    NewIsLeaf(states, s, cur, t, Star);
    NewIsLeaf(states, s, cur, t, StarStarSlash);
    forall j | 0 <= j < |s'.paths| ensures !ChildForRune(p, s'.paths[j]) {
      if ChildForRune(p, s'.paths[j]) {
        assert s'.paths[j] == p + [s'.paths[j][|p|]];
        NewIsLeaf(states, s, cur, t, s'.paths[j][|p|]);
      }
    }
  }

  // ---- Adding a state for a regular character ----

  ghost function Inserted(list: seq<nat>, pos: nat, n: nat): seq<nat>
    requires pos <= |list|
  {
    list[..pos] + [n] + list[pos..]
  }

  /** The state of r joins the siblings at the given place. */
  ghost function WithRune(states: seq<State>, cur: nat, list: seq<nat>, pos: nat, r: nat): (states': seq<State>)
    requires cur < |states| && pos <= |list| && forall k :: 0 <= k < |list| ==> list[k] < |states|
    ensures |states'| == |states| + 1
  {
    var n := |states|;
    var linked := if pos == 0 then states[cur := states[cur].(first := n)]
      else states[list[pos - 1] := states[list[pos - 1]].(next := n)];
    linked + [BLANK.(next := Sibling(list, pos), rune := r)]
  }

  /** The place for r among the siblings. */
  ghost predicate PlaceFor(states: seq<State>, list: seq<nat>, pos: nat, r: nat) {
    && pos <= |list| && (forall k :: 0 <= k < |list| ==> list[k] < |states|)
    && (forall k :: 0 <= k < pos ==> states[list[k]].rune < r)
       && (forall k :: pos <= k < |list| ==> states[list[k]].rune > r)
  }

  ghost function WithKid(s: Shape, cur: nat, pos: nat, p: Path): Shape
    requires cur < |s.kids| && pos <= |s.kids[cur]|
  {
    Shape(s.paths + [p], s.kids[cur := Inserted(s.kids[cur], pos, |s.paths|)] + [[]])
  }

  lemma InsertedChain(states: seq<State>, cur: nat, list: seq<nat>, pos: nat, r: nat)
    requires cur < |states| && Chained(states, states[cur].first, list) && pos <= |list|
    requires forall k, l :: 0 <= k < l < |list| ==> list[k] != list[l]
    ensures Chained(WithRune(states, cur, list, pos, r), WithRune(states, cur, list, pos, r)[cur].first,
            Inserted(list, pos, |states|))
  {
    var states', list' := WithRune(states, cur, list, pos, r), Inserted(list, pos, |states|);
    forall k | 0 <= k < |list'| ensures list'[k] < |states'| && states'[list'[k]].next == Sibling(list', k + 1) {
      if k < pos {
        assert list'[k] == list[k];
      } else if k > pos {
        assert list'[k] == list[k - 1];
      }
    }
  }

  lemma InsertedAt(list: seq<nat>, pos: nat, n: nat, k: nat)
    requires pos <= |list| && k <= |list|
    ensures |Inserted(list, pos, n)| == |list| + 1
    ensures Inserted(list, pos, n)[k] == if k < pos then list[k] else if k == pos then n else list[k - 1]
  {
  }

  lemma InsertedMembers(list: seq<nat>, pos: nat, n: nat, j: nat)
    requires pos <= |list| && (j == n || j in list)
    ensures j in Inserted(list, pos, n)
  {
    if j != n {
      var k :| 0 <= k < |list| && list[k] == j;
      InsertedAt(list, pos, n, if k < pos then k else k + 1);
    } else {
      InsertedAt(list, pos, n, pos);
    }
  }

  lemma RunesKept(states: seq<State>, cur: nat, list: seq<nat>, pos: nat, r: nat)
    requires cur < |states| && PlaceFor(states, list, pos, r)
    ensures forall k :: 0 <= k < |states| ==> WithRune(states, cur, list, pos, r)[k].rune == states[k].rune
    ensures WithRune(states, cur, list, pos, r)[|states|].rune == r
  {
  }

  lemma InsertedSorted(states: seq<State>, states': seq<State>, list: seq<nat>, pos: nat, r: nat)
    requires PlaceFor(states, list, pos, r) && forall k, l :: 0 <= k < l < |list| ==>
               states[list[k]].rune < states[list[l]].rune
    requires |states'| == |states| + 1 && states'[|states|].rune == r && forall k :: 0 <= k < |states| ==>
               states'[k].rune == states[k].rune
    ensures forall k :: 0 <= k <= |list| ==> Inserted(list, pos, |states|)[k] <= |states|
    ensures forall k, l :: 0 <= k < l <= |list| ==>
              states'[Inserted(list, pos, |states|)[k]].rune < states'[Inserted(list, pos, |states|)[l]].rune
  {
    var list' := Inserted(list, pos, |states|);
    forall k | 0 <= k <= |list| ensures list'[k] == if k < pos then list[k] else if k == pos then |states|
      else list[k - 1] {
      InsertedAt(list, pos, |states|, k);
    }
  }

  lemma InsertedPaths(states: seq<State>, states': seq<State>, paths: seq<Path>, cur: nat, list: seq<nat>, pos: nat,
      r: nat, k: nat)
    requires cur < |states| == |paths| && KidsOk(states, paths, cur, list) && PlaceFor(states, list, pos, r)
             && k <= |list|
    requires |states'| == |states| + 1 && states'[|states|].rune == r && forall k :: 0 <= k < |states| ==>
               states'[k].rune == states[k].rune
    ensures var j := Inserted(list, pos, |states|)[k];
            cur < j <= |states| && (paths + [paths[cur] + [Rune(r)]])[j] == paths[cur] + [Rune(states'[j].rune)]
  {
    InsertedAt(list, pos, |states|, k);
  }

  lemma InsertedKids(states: seq<State>, paths: seq<Path>, cur: nat, list: seq<nat>, pos: nat, r: nat)
    requires cur < |states| == |paths| && KidsOk(states, paths, cur, list) && PlaceFor(states, list, pos, r)
    ensures KidsOk(WithRune(states, cur, list, pos, r), paths + [paths[cur] + [Rune(r)]], cur,
            Inserted(list, pos, |states|))
  {
    var n, states', list' := |states|, WithRune(states, cur, list, pos, r), Inserted(list, pos, |states|);
    var paths' := paths + [paths[cur] + [Rune(r)]];
    RunesKept(states, cur, list, pos, r);
    InsertedSorted(states, states', list, pos, r);
    forall k | 0 <= k < |list'| ensures cur < list'[k] < |states'|
      && paths'[list'[k]] == paths'[cur] + [Rune(states'[list'[k]].rune)] {
      InsertedPaths(states, states', paths, cur, list, pos, r, k);
    }
    forall j | 0 <= j < |paths'| && ChildForRune(paths'[cur], paths'[j]) ensures j in list' {
      InsertedMembers(list, pos, n, j);
    }
  }

  /** Lists of other parents share no child with that of cur. */
  lemma OtherKids(states: seq<State>, paths: seq<Path>, i: nat, list: seq<nat>, cur: nat, other: seq<nat>)
    requires i < |states| == |paths| && cur < |states| && i != cur && Distinct(paths) && KidsOk(states, paths, i, list)
             && KidsOk(states, paths, cur, other)
    ensures forall k, l :: 0 <= k < |list| && 0 <= l < |other| ==> list[k] != other[l]
  {
    forall k, l | 0 <= k < |list| && 0 <= l < |other| ensures list[k] != other[l] {
      SamePath(paths[i], Rune(states[list[k]].rune), paths[cur], Rune(states[other[l]].rune));
    }
  }

  lemma RuneEdges(states: seq<State>, paths: seq<Path>, cur: nat, list: seq<nat>, pos: nat, r: nat, i: nat)
    requires |states| == |paths| && Distinct(paths) && cur < |states| && i < |states| && PlaceFor(states, list, pos, r)
    requires EdgeOk(paths, i, Star, states[i].star) && EdgeOk(paths, i, StarStarSlash, states[i].starStarSlash)
    ensures EdgeOk(paths + [paths[cur] + [Rune(r)]], i, Star, WithRune(states, cur, list, pos, r)[i].star)
    ensures EdgeOk(paths + [paths[cur] + [Rune(r)]], i, StarStarSlash,
            WithRune(states, cur, list, pos, r)[i].starStarSlash)
  {
    EdgeKept(paths, cur, Rune(r), i, Star, states[i].star);
    EdgeKept(paths, cur, Rune(r), i, StarStarSlash, states[i].starStarSlash);
  }

  lemma RuneKids(states: seq<State>, paths: seq<Path>, cur: nat, list: seq<nat>, pos: nat, r: nat, i: nat,
      other: seq<nat>)
    requires |states| == |paths| && Distinct(paths) && cur < |states| && i < |states| && i != cur
             && PlaceFor(states, list, pos, r)
    requires Chained(states, states[i].first, other) && KidsOk(states, paths, i, other)
             && KidsOk(states, paths, cur, list)
    ensures Chained(WithRune(states, cur, list, pos, r), WithRune(states, cur, list, pos, r)[i].first, other)
    ensures KidsOk(WithRune(states, cur, list, pos, r), paths + [paths[cur] + [Rune(r)]], i, other)
  {
    var p, states' := paths[cur] + [Rune(r)], WithRune(states, cur, list, pos, r);
    OtherKids(states, paths, i, other, cur, list);
    NotForRune(paths[i], paths[cur], Rune(r));
    KidsKept(states, states', paths, i, other, p);
    ChainKept(states, states', states[i].first, other);
  }

  lemma KidsDiffer(states: seq<State>, paths: seq<Path>, i: nat, list: seq<nat>)
    requires i < |states| == |paths| && KidsOk(states, paths, i, list)
    ensures forall k, l :: 0 <= k < l < |list| ==> list[k] != list[l]
  {
  }

  lemma RuneNode(states: seq<State>, s: Shape, cur: nat, pos: nat, r: nat, i: nat)
    requires |states| == |s.paths| == |s.kids| && Distinct(s.paths) && cur < |states| && i < |states|
    requires NodeOk(states, s, i) && NodeOk(states, s, cur) && PlaceFor(states, s.kids[cur], pos, r)
    ensures NodeOk(WithRune(states, cur, s.kids[cur], pos, r), WithKid(s, cur, pos, s.paths[cur] + [Rune(r)]), i)
  {
    RuneEdges(states, s.paths, cur, s.kids[cur], pos, r, i);
    if i == cur {
      KidsDiffer(states, s.paths, cur, s.kids[cur]);
      InsertedChain(states, cur, s.kids[cur], pos, r);
      InsertedKids(states, s.paths, cur, s.kids[cur], pos, r);
    } else {
      RuneKids(states, s.paths, cur, s.kids[cur], pos, r, i, s.kids[i]);
    }
  }

  /** A new state below cur, for a regular character. */
  lemma RuneAdded(states: seq<State>, s: Shape, cur: nat, pos: nat, r: nat)
    requires Nfa(states, s) && cur < |states| <= STATE_MASK && PlaceFor(states, s.kids[cur], pos, r)
             && s.paths[cur] + [Rune(r)] !in s.paths
    ensures Nfa(WithRune(states, cur, s.kids[cur], pos, r), WithKid(s, cur, pos, s.paths[cur] + [Rune(r)]))
    ensures Grown(states, s, WithRune(states, cur, s.kids[cur], pos, r), WithKid(s, cur, pos, s.paths[cur] + [Rune(r)]))
  {
    assert Opened(OfNfa);
    var states', s' := WithRune(states, cur, s.kids[cur], pos, r), WithKid(s, cur, pos, s.paths[cur] + [Rune(r)]);
    AddedPath(states, s, cur, Rune(r));
    forall i | 0 <= i < |states'| ensures NodeOk(states', s', i) {
      if i < |states| {
        assert NodeOk(states, s, cur) && NodeOk(states, s, i);
        RuneNode(states, s, cur, pos, r, i);
      } else {
        LeafOk(states, s, cur, Rune(r), states', |states|);
        assert NodeOk(states', WithPath(s, s.paths[cur] + [Rune(r)]), i);
      }
    }
  }

  // ---- The loops ----

  /** What getOrAdd promises: the state for one more token, in an automaton that may have grown by it. */
  ghost predicate Extended(states: seq<State>, s: Shape, cur: nat, t: Token, states': seq<State>, s': Shape, i: nat) {
    && Nfa(states', s') && Grown(states, s, states', s')
    && cur < |s.paths| && i < |s'.paths| && s'.paths[i] == s.paths[cur] + [t]
    && (s'.paths == s.paths || s'.paths == s.paths + [s.paths[cur] + [t]])
  }

  lemma NothingAdded(states: seq<State>, s: Shape)
    requires |states| == |s.paths|
    ensures Grown(states, s, states, s)
  {
  }

  lemma EdgeFound(states: seq<State>, s: Shape, cur: nat)
    requires Nfa(states, s) && cur < |states|
    ensures EdgeOk(s.paths, cur, Star, states[cur].star)
            && EdgeOk(s.paths, cur, StarStarSlash, states[cur].starStarSlash)
    ensures Chained(states, states[cur].first, s.kids[cur]) && KidsOk(states, s.paths, cur, s.kids[cur])
  {
    assert Opened(OfNfa);
    assert NodeOk(states, s, cur);
  }

  lemma WildcardExtended(states: seq<State>, s: Shape, cur: nat, t: Token)
    requires Nfa(states, s) && cur < |states| <= STATE_MASK && !t.Rune? && s.paths[cur] + [t] !in s.paths
    ensures Extended(states, s, cur, t, WithWildcard(states, cur, t), WithPath(s, s.paths[cur] + [t]), |states|)
  {
    WildcardAdded(states, s, cur, t);
  }

  /** getOrAddStar. It fails when there is no index left for the new state. */
  method GetOrAddStar(states: seq<State>, cur: nat, ghost s: Shape)
      returns (ok: bool, states': seq<State>, i: nat, ghost s': Shape)
    requires Nfa(states, s) && cur < |states|
    ensures ok ==> Extended(states, s, cur, Star, states', s', i)
    ensures !ok ==> |states| > STATE_MASK && s.paths[cur] + [Star] !in s.paths
  {
    EdgeFound(states, s, cur);
    NothingAdded(states, s);
    states', s', i := states, s, states[cur].star;
    if i != 0 {
      return true, states', i, s';
    }
    if |states| > STATE_MASK {
      return false, states', i, s';
    }
    WildcardExtended(states, s, cur, Star);
    i := |states|;
    states' := (states + [BLANK])[cur := states[cur].(star := i)];
    assert states' == WithWildcard(states, cur, Star);
    ok, s' := true, WithPath(s, s.paths[cur] + [Star]);
  }

  method GetOrAddStarStarSlash(states: seq<State>, cur: nat, ghost s: Shape)
      returns (ok: bool, states': seq<State>, i: nat, ghost s': Shape)
    requires Nfa(states, s) && cur < |states|
    ensures ok ==> Extended(states, s, cur, StarStarSlash, states', s', i)
    ensures !ok ==> |states| > STATE_MASK && s.paths[cur] + [StarStarSlash] !in s.paths
  {
    EdgeFound(states, s, cur);
    NothingAdded(states, s);
    states', s', i := states, s, states[cur].starStarSlash;
    if i != 0 {
      return true, states', i, s';
    }
    if |states| > STATE_MASK {
      return false, states', i, s';
    }
    WildcardExtended(states, s, cur, StarStarSlash);
    i := |states|;
    states' := (states + [BLANK])[cur := states[cur].(starStarSlash := i)];
    assert states' == WithWildcard(states, cur, StarStarSlash);
    ok, s' := true, WithPath(s, s.paths[cur] + [StarStarSlash]);
  }

  /** Finds the place of r among the siblings. */
  method FindPlace(states: seq<State>, cur: nat, r: nat, ghost s: Shape)
      returns (found: bool, previous: nat, compare: nat, ghost pos: nat)
    requires Nfa(states, s) && cur < |states|
    ensures found ==> compare < |states| && s.paths[compare] == s.paths[cur] + [Rune(r)]
    ensures !found ==>
              PlaceFor(states, s.kids[cur], pos, r) && s.paths[cur] + [Rune(r)] !in s.paths
              && compare == Sibling(s.kids[cur], pos)
    ensures !found ==> if pos == 0 then previous == 0 else previous == s.kids[cur][pos - 1] > 0
  {
    EdgeFound(states, s, cur);
    ghost var list := s.kids[cur];
    previous, compare, pos := 0, states[cur].first, 0;
    while compare != 0
      invariant pos <= |list| && compare == Sibling(list, pos)
      invariant if pos == 0 then previous == 0 else previous == list[pos - 1] > 0
      invariant forall k :: 0 <= k < pos ==> states[list[k]].rune < r
      decreases |list| - pos
    {
      if states[compare].rune == r {
        return true, previous, compare, pos;
      }
      if states[compare].rune > r {
        break;
      }
      previous, compare, pos := compare, states[compare].next, pos + 1;
    }
    NoSuchRune(states, s.paths, cur, list, pos, r);
    found := false;
  }

  lemma NoSuchRune(states: seq<State>, paths: seq<Path>, cur: nat, list: seq<nat>, pos: nat, r: nat)
    requires cur < |states| == |paths| && KidsOk(states, paths, cur, list) && pos <= |list|
    requires (forall k :: 0 <= k < pos ==> states[list[k]].rune < r) && (pos < |list| ==> states[list[pos]].rune > r)
    ensures PlaceFor(states, list, pos, r) && paths[cur] + [Rune(r)] !in paths
  {
    forall k | pos <= k < |list| ensures states[list[k]].rune > r {
    }
    var p := paths[cur] + [Rune(r)];
    assert p[..|paths[cur]|] == paths[cur];
    forall j | 0 <= j < |paths| ensures paths[j] != p {
      if ChildForRune(paths[cur], paths[j]) {
        var k :| 0 <= k < |list| && list[k] == j;
        SamePath(paths[cur], Rune(states[j].rune), paths[cur], Rune(r));
      }
    }
  }

  method GetOrAddRune(states: seq<State>, cur: nat, r: nat, ghost s: Shape)
      returns (ok: bool, states': seq<State>, i: nat, ghost s': Shape)
    requires Nfa(states, s) && cur < |states|
    ensures ok ==> Extended(states, s, cur, Rune(r), states', s', i)
    ensures !ok ==> |states| > STATE_MASK && s.paths[cur] + [Rune(r)] !in s.paths
  {
    NothingAdded(states, s);
    var found, previous, compare;
    ghost var pos;
    found, previous, compare, pos := FindPlace(states, cur, r, s);
    states', s', i := states, s, compare;
    if found {
      return true, states', i, s';
    }
    if |states| > STATE_MASK {
      return false, states', i, s';
    }
    RuneAdded(states, s, cur, pos, r);
    i := |states|;
    states' := states + [BLANK];
    if previous == 0 {
      states' := states'[cur := states'[cur].(first := i)];
    } else {
      states' := states'[previous := states'[previous].(next := i)];
    }
    states' := states'[i := states'[i].(next := compare, rune := r)];
    assert states' == WithRune(states, cur, s.kids[cur], pos, r);
    ok, s' := true, WithKid(s, cur, pos, s.paths[cur] + [Rune(r)]);
  }
}
