/** The finished automaton of lists of patterns. */
module GlobNfa {
  import opened Folding
  import opened GlobPattern
  import opened GlobStates
  import opened GlobCompile

  /** The ends of all patterns of a list. */
  ghost function EndsOfAll(patterns: seq<Text>): set<Path> {
    set k, p | 0 <= k < |patterns| && p in Ends(patterns[k]) :: p
  }

  // ---- Which states can still match ----

  /** Some state at or below i is a positive end. */
  ghost predicate Hopeful(states: seq<State>, paths: seq<Path>, i: nat)
    requires i < |states| == |paths|
  {
    exists j :: 0 <= j < |states| && states[j].end == Positive && paths[i] <= paths[j]
  }

  /** The states from k on are marked as having a positive end at or below exactly when they do. The first state never
      is. */
  ghost predicate Marked(states: seq<State>, paths: seq<Path>, k: nat) {
    && |states| == |paths|
    && forall i :: 0 <= i < |states| ==> (states[i].hasPositive <==> 0 < i && k <= i && Hopeful(states, paths, i))
  }

  /** Only the marks differ. */
  ghost predicate SameBut(states: seq<State>, states': seq<State>) {
    && |states| == |states'|
    && forall i :: 0 <= i < |states| ==> states'[i] == states[i].(hasPositive := states'[i].hasPositive)
  }

  lemma MarksKeepNfa(states: seq<State>, states': seq<State>, s: Shape)
    requires Nfa(states, s) && SameBut(states, states')
    ensures Nfa(states', s)
  {
    assert Opened(OfNfa);
    forall j | 0 <= j < |states'| ensures NodeOk(states', s, j) {
      assert NodeOk(states, s, j);
      assert Chained(states', states'[j].first, s.kids[j]);
      assert KidsOk(states', s.paths, j, s.kids[j]);
    }
  }

  /** Every start of a path is a path. */
  lemma {:induction false} PrefixKnown(states: seq<State>, s: Shape, j: nat, p: Path) returns (i: nat)
    requires Nfa(states, s) && j < |states| && p <= s.paths[j]
    ensures i < |states| && s.paths[i] == p
    decreases |s.paths[j]|
  {
    if p == s.paths[j] {
      i := j;
    } else {
      ParentKnown(states, s, j);
      var q := s.paths[j][..|s.paths[j]| - 1];
      var k :| 0 <= k < |s.paths| && s.paths[k] == q;
      assert p <= q;
      i := PrefixKnown(states, s, k, p);
    }
  }

  /** The child of i for a token, or zero. */
  ghost predicate IsChild(states: seq<State>, s: Shape, i: nat, c: nat)
    requires Nfa(states, s) && i < |states|
  {
    c != 0 && (c == states[i].star || c == states[i].starStarSlash || c in s.kids[i])
  }

  lemma ChildIsBelow(states: seq<State>, s: Shape, i: nat, c: nat)
    requires Nfa(states, s) && i < |states| && IsChild(states, s, i, c)
    ensures i < c < |states| && s.paths[i] <= s.paths[c]
  {
    EdgeFound(states, s, i);
    if c in s.kids[i] {
      var k :| 0 <= k < |s.kids[i]| && s.kids[i][k] == c;
    }
  }

  /** A path below i goes through a child of i. */
  lemma ThroughChild(states: seq<State>, s: Shape, i: nat, j: nat) returns (c: nat)
    requires Nfa(states, s) && i < |states| && j < |states| && s.paths[i] <= s.paths[j] && i != j
    ensures IsChild(states, s, i, c) && c < |states| && s.paths[c] <= s.paths[j]
  {
    var p := s.paths[i];
    assert s.paths[i] != s.paths[j] by {
      assert Opened(OfNfa);
    }
    var t := s.paths[j][|p|];
    assert p + [t] <= s.paths[j];
    c := PrefixKnown(states, s, j, p + [t]);
    EdgeFound(states, s, i);
    assert s.paths[c] in s.paths;
    RootIsEmpty(states, s, c);
    match t {
      case Star => Same(states, s, c, states[i].star);
      case StarStarSlash => Same(states, s, c, states[i].starStarSlash);
      case Rune(r) => assert ChildForRune(p, s.paths[c]);
    }
  }

  lemma Same(states: seq<State>, s: Shape, i: nat, j: nat)
    requires Nfa(states, s) && i < |states| && j < |states| && s.paths[i] == s.paths[j]
    ensures i == j
  {
    assert Opened(OfNfa);
  }

  /** A state is hopeful when it is a positive end or has a hopeful child. */
  lemma HopefulByChildren(states: seq<State>, s: Shape, i: nat)
    requires Nfa(states, s) && i < |states|
    ensures Hopeful(states, s.paths, i) <==>
            states[i].end == Positive || exists c ::
                0 <= c < |states| && IsChild(states, s, i, c) && Hopeful(states, s.paths, c)
  {
    if Hopeful(states, s.paths, i) && states[i].end != Positive {
      var j :| 0 <= j < |states| && states[j].end == Positive && s.paths[i] <= s.paths[j];
      var c := ThroughChild(states, s, i, j);
      assert Hopeful(states, s.paths, c);
    }
    if exists c :: 0 <= c < |states| && IsChild(states, s, i, c) && Hopeful(states, s.paths, c) {
      var c :| 0 <= c < |states| && IsChild(states, s, i, c) && Hopeful(states, s.paths, c);
      var j :| 0 <= j < |states| && states[j].end == Positive && s.paths[c] <= s.paths[j];
      ChildIsBelow(states, s, i, c);
      assert s.paths[i] <= s.paths[j];
    }
  }

  /** Whether a state is hopeful does not depend on the marks. */
  lemma HopefulKept(states: seq<State>, states': seq<State>, paths: seq<Path>, i: nat)
    requires SameBut(states, states') && i < |states| == |paths|
    ensures Hopeful(states, paths, i) <==> Hopeful(states', paths, i)
  {
    if Hopeful(states, paths, i) {
      var j :| 0 <= j < |states| && states[j].end == Positive && paths[i] <= paths[j];
      assert states'[j].end == Positive;
    }
    if Hopeful(states', paths, i) {
      var j :| 0 <= j < |states'| && states'[j].end == Positive && paths[i] <= paths[j];
      assert states[j].end == Positive;
    }
  }

  /** The edges and lists of siblings stay within the automaton. This is all that marking relies on. */
  ghost predicate Sound(states: seq<State>, kids: seq<seq<nat>>) {
    && |states| == |kids| && |states| > 0
    && forall i :: 0 <= i < |states| ==> SoundAt(states, kids, i)
  }

  ghost predicate SoundAt(states: seq<State>, kids: seq<seq<nat>>, i: nat)
    requires i < |states| == |kids|
  {
    && states[i].star < |states| && states[i].starStarSlash < |states| && Chained(states, states[i].first, kids[i])
    && forall k :: 0 <= k < |kids[i]| ==> kids[i][k] > 0
  }

  lemma NfaIsSound(states: seq<State>, s: Shape)
    requires Nfa(states, s)
    ensures Sound(states, s.kids)
  {
    forall i | 0 <= i < |states| ensures SoundAt(states, s.kids, i) {
      EdgeFound(states, s, i);
    }
  }

  lemma MarksKeepSound(states: seq<State>, states': seq<State>, kids: seq<seq<nat>>)
    requires Sound(states, kids) && SameBut(states, states')
    ensures Sound(states', kids)
  {
    forall i | 0 <= i < |states'| ensures SoundAt(states', kids, i) {
      assert SoundAt(states, kids, i);
    }
  }

  /** The loop over the siblings: whether a child for a regular character is marked. */
  method AnyKidMarked(states: seq<State>, i: nat, ghost kids: seq<seq<nat>>) returns (found: bool)
    requires Sound(states, kids) && i < |states|
    ensures found <==> exists k :: 0 <= k < |kids[i]| && kids[i][k] < |states| && states[kids[i][k]].hasPositive
  {
    assert SoundAt(states, kids, i);
    ghost var list, k := kids[i], 0;
    var index := states[i].first;
    while index != 0
      invariant k <= |list| && index == Sibling(list, k)
      invariant forall l :: 0 <= l < k ==> !states[list[l]].hasPositive
      decreases |list| - k
    {
      if states[index].hasPositive {
        return true;
      }
      index, k := states[index].next, k + 1;
    }
    found := false;
  }

  /** One state of the walk in reverse order. */
  method MarkOne(states: seq<State>, i: nat, ghost kids: seq<seq<nat>>) returns (states': seq<State>, ghost mark: bool)
    requires Sound(states, kids) && 0 < i < |states|
    ensures states[i].star < |states| && states[i].starStarSlash < |states|
    ensures mark <==>
              || states[i].end == Positive || states[states[i].star].hasPositive
              || states[states[i].starStarSlash].hasPositive
                      || exists k :: 0 <= k < |kids[i]| && kids[i][k] < |states| && states[kids[i][k]].hasPositive
    ensures states' == if mark then states[i := states[i].(hasPositive := true)] else states
    ensures Sound(states', kids)
  {
    assert SoundAt(states, kids, i);
    var kid := AnyKidMarked(states, i, kids);
    var marked := states[i].end == Positive || states[states[i].star].hasPositive
      || states[states[i].starStarSlash].hasPositive || kid;
    states' := if marked then states[i := states[i].(hasPositive := true)] else states;
    mark := marked;
    MarksKeepSound(states, states', kids);
  }

  lemma MarkedOne(states: seq<State>, states': seq<State>, s: Shape, i: nat, mark: bool)
    requires Nfa(states, s) && 0 < i < |states| && Marked(states, s.paths, i + 1)
    requires states[i].star < |states| && states[i].starStarSlash < |states|
    requires mark <==>
               || states[i].end == Positive || states[states[i].star].hasPositive
               || states[states[i].starStarSlash].hasPositive
                       || exists k ::
                            0 <= k < |s.kids[i]| && s.kids[i][k] < |states| && states[s.kids[i][k]].hasPositive
    requires states' == if mark then states[i := states[i].(hasPositive := true)] else states
    ensures Nfa(states', s) && Marked(states', s.paths, i)
  {
    if mark {
      MarkedChild(states, s, i);
    } else {
      UnmarkedChildren(states, s, i);
    }
    MarkedMore(states, states', s, i, mark);
  }

  lemma MarkedMore(states: seq<State>, states': seq<State>, s: Shape, i: nat, mark: bool)
    requires Nfa(states, s) && 0 < i < |states| && Marked(states, s.paths, i + 1) && mark == Hopeful(states, s.paths, i)
    requires states' == if mark then states[i := states[i].(hasPositive := true)] else states
    ensures Nfa(states', s) && Marked(states', s.paths, i) && SameBut(states, states')
  {
    MarksKeepNfa(states, states', s);
    forall j | 0 <= j < |states| ensures Hopeful(states, s.paths, j) <==> Hopeful(states', s.paths, j) {
      HopefulKept(states, states', s.paths, j);
    }
  }

  lemma MarkedChild(states: seq<State>, s: Shape, i: nat)
    requires Nfa(states, s) && 0 < i < |states| && Marked(states, s.paths, i + 1)
    requires states[i].star < |states| && states[i].starStarSlash < |states|
    requires states[i].end == Positive || states[states[i].star].hasPositive
             || states[states[i].starStarSlash].hasPositive
             || exists k :: 0 <= k < |s.kids[i]| && s.kids[i][k] < |states| && states[s.kids[i][k]].hasPositive
    ensures Hopeful(states, s.paths, i)
  {
    HopefulByChildren(states, s, i);
    if states[i].end == Positive {
    } else if states[states[i].star].hasPositive {
      assert IsChild(states, s, i, states[i].star);
    } else if states[states[i].starStarSlash].hasPositive {
      assert IsChild(states, s, i, states[i].starStarSlash);
    } else {
      var k :| 0 <= k < |s.kids[i]| && s.kids[i][k] < |states| && states[s.kids[i][k]].hasPositive;
      assert IsChild(states, s, i, s.kids[i][k]);
    }
  }

  lemma UnmarkedChildren(states: seq<State>, s: Shape, i: nat)
    requires Nfa(states, s) && 0 < i < |states| && Marked(states, s.paths, i + 1)
    requires states[i].star < |states| && states[i].starStarSlash < |states|
    requires states[i].end != Positive && !states[states[i].star].hasPositive
             && !states[states[i].starStarSlash].hasPositive
    requires !exists k :: 0 <= k < |s.kids[i]| && s.kids[i][k] < |states| && states[s.kids[i][k]].hasPositive
    ensures !Hopeful(states, s.paths, i)
  {
    HopefulByChildren(states, s, i);
    forall c | 0 <= c < |states| && IsChild(states, s, i, c) ensures !Hopeful(states, s.paths, c) {
      ChildIsBelow(states, s, i, c);
    }
  }

  ghost predicate Unmarked(states: seq<State>) {
    forall i :: 0 <= i < |states| ==> !states[i].hasPositive
  }

  /** propagateHasPositiveEndState. It marks what a tree of paths says; on other input it only stays in bounds. */
  method Propagate(states: seq<State>, ghost s: Shape) returns (states': seq<State>)
    requires Sound(states, s.kids)
    ensures SameBut(states, states')
    ensures Nfa(states, s) && Unmarked(states) ==> Nfa(states', s) && Marked(states', s.paths, 0)
  {
    states' := states;
    var i := |states| - 1;
    ghost var known := Nfa(states, s) && Unmarked(states);
    while i > 0
      invariant 0 <= i < |states| && Sound(states', s.kids) && SameBut(states, states')
      invariant known ==> Nfa(states', s) && Marked(states', s.paths, i + 1)
    {
      ghost var before, mark := states', false;
      states', mark := MarkOne(states', i, s.kids);
      if known {
        MarkedOne(before, states', s, i, mark);
      }
      i := i - 1;
    }
  }

  // ---- All patterns ----

  /** The pattern is accepted; kept folded. */
  ghost predicate IsAccepted(pattern: Text) {
    var folded := forall f: Fold {:trigger Opened(f)} :: Opened(f) && f == OfPatterns ==> Accepted(Components(pattern));
    folded
  }

  ghost predicate AllAccepted(patterns: seq<Text>) {
    forall k :: 0 <= k < |patterns| ==> IsAccepted(patterns[k])
  }

  /** The finished automaton for includes and excludes with the given ends. */
  ghost predicate NfaOf(states: seq<State>, s: Shape, includes: set<Path>, excludes: set<Path>) {
    && Nfa(states, s) && AllTidy(s.paths) && Covers(s.paths, includes + excludes) && Marked(states, s.paths, 0)
    && (forall i :: 0 <= i < |states| ==> states[i].end == EndOf(includes, excludes, s.paths[i]))
  }

  lemma EndsOfMore(patterns: seq<Text>, n: nat)
    requires n < |patterns|
    ensures EndsOfAll(patterns[..n + 1]) == EndsOfAll(patterns[..n]) + Ends(patterns[n])
  {
    var more, fewer := patterns[..n + 1], patterns[..n];
    assert forall k :: 0 <= k < n ==> more[k] == fewer[k];
    forall p ensures p in EndsOfAll(more) <==> p in EndsOfAll(fewer) + Ends(patterns[n]) {
      if p in EndsOfAll(fewer) {
        var k :| 0 <= k < |fewer| && p in Ends(fewer[k]);
        assert p in Ends(more[k]);
      }
      if p in Ends(patterns[n]) {
        assert p in Ends(more[n]);
      }
    }
  }

  lemma FirstCompiled()
    ensures Compiled([BLANK], Shape([[]], [[]]), {}, {})
  {
    FirstState();
  }

  /** These are the ends of the first n patterns; kept folded. */
  ghost predicate EndsOfFirst(patterns: seq<Text>, n: nat, ends: set<Path>) {
    var folded := forall f: Fold {:trigger Opened(f)} :: Opened(f) && f == OfPatterns ==>
        n <= |patterns| && ends == EndsOfAll(patterns[..n]);
    folded
  }

  /** The automaton after the first n patterns of a list; kept folded. */
  ghost predicate AddedSoFar(states: seq<State>, s: Shape, patterns: seq<Text>, n: nat, end: End, includes: set<Path>,
      excludes: set<Path>, ends: set<Path>) {
    && n <= |patterns|
    && var folded := forall f: Fold {:trigger Opened(f)} :: Opened(f) && f == OfList ==>
         && EndsOfFirst(patterns, n, ends) && (forall k :: 0 <= k < n ==> IsAccepted(patterns[k]))
         && Compiled(states, s, IncludedAll(includes, end, ends), ExcludedAll(excludes, end, ends));
       folded
  }

  /** Adds one pattern of a list. */
  method AddNthPattern(states: seq<State>, patterns: seq<Text>, n: nat, end: End, ghost s: Shape,
      ghost includes: set<Path>, ghost excludes: set<Path>, ghost ends: set<Path>)
    returns (o: Outcome, states': seq<State>, ghost s': Shape, ghost ends': set<Path>)
    requires n < |patterns| && (end.Positive? || end.Negative?) && (end == Positive ==> excludes == {})
    requires AddedSoFar(states, s, patterns, n, end, includes, excludes, ends)
    ensures o.Added? ==> AddedSoFar(states', s', patterns, n + 1, end, includes, excludes, ends')
    ensures o.Invalid? ==> !AllAccepted(patterns)
    ensures o.TooManyStates? ==> TooMany(includes + excludes + EndsOfAll(patterns))
  {
    assert Opened(OfList);
    EndsOfMore(patterns, n);
    MoreEnds(includes, excludes, end, ends, Ends(patterns[n]));
    o, states', s' := AddPattern(states, patterns[n], end, s, IncludedAll(includes, end, ends),
      ExcludedAll(excludes, end, ends));
    ends' := ends + Ends(patterns[n]);
    NextEnds(patterns, n, ends);
    AcceptedIs(patterns[n]);
    if o.TooManyStates? {
      FirstEnds(patterns, n, ends);
      TooManyGrows(IncludedAll(includes, end, ends) + ExcludedAll(excludes, end, ends) + Ends(patterns[n]),
        includes + excludes + EndsOfAll(patterns));
    }
  }

  lemma FirstEnds(patterns: seq<Text>, n: nat, ends: set<Path>)
    requires n < |patterns| && EndsOfFirst(patterns, n, ends)
    ensures ends <= EndsOfAll(patterns) && Ends(patterns[n]) <= EndsOfAll(patterns)
  {
    assert Opened(OfPatterns);
    forall p | p in ends ensures p in EndsOfAll(patterns) {
      var k :| 0 <= k < n && p in Ends(patterns[..n][k]);
      assert p in Ends(patterns[k]);
    }
  }

  lemma AcceptedIs(pattern: Text)
    ensures IsAccepted(pattern) <==> Accepted(Components(pattern))
  {
    assert Opened(OfPatterns);
  }

  lemma NextEnds(patterns: seq<Text>, n: nat, ends: set<Path>)
    requires n < |patterns| && EndsOfFirst(patterns, n, ends)
             && EndsOfAll(patterns[..n + 1]) == EndsOfAll(patterns[..n]) + Ends(patterns[n])
    ensures EndsOfFirst(patterns, n + 1, ends + Ends(patterns[n]))
  {
    assert Opened(OfPatterns);
  }

  lemma ListStarts(states: seq<State>, s: Shape, patterns: seq<Text>, end: End, includes: set<Path>,
      excludes: set<Path>)
    requires Compiled(states, s, includes, excludes)
    ensures AddedSoFar(states, s, patterns, 0, end, includes, excludes, {})
  {
    assert EndsOfAll(patterns[..0]) == {};
    assert includes + {} == includes && excludes + {} == excludes;
  }

  lemma ListEnds(states: seq<State>, s: Shape, patterns: seq<Text>, end: End, includes: set<Path>, excludes: set<Path>,
      ends: set<Path>)
    requires AddedSoFar(states, s, patterns, |patterns|, end, includes, excludes, ends)
    ensures AllAccepted(patterns) && ends == EndsOfAll(patterns)
    ensures Compiled(states, s, IncludedAll(includes, end, ends), ExcludedAll(excludes, end, ends))
  {
    assert Opened(OfList);
    AllEnds(patterns, ends);
  }

  lemma AllEnds(patterns: seq<Text>, ends: set<Path>)
    requires EndsOfFirst(patterns, |patterns|, ends)
    ensures ends == EndsOfAll(patterns)
  {
    assert Opened(OfPatterns);
    assert patterns[..|patterns|] == patterns;
  }

  /** Adds all patterns of a list, in order. */
  method AddPatterns(states: seq<State>, patterns: seq<Text>, end: End, ghost s: Shape, ghost includes: set<Path>,
      ghost excludes: set<Path>)
    returns (o: Outcome, states': seq<State>, ghost s': Shape, ghost ends: set<Path>)
    requires Compiled(states, s, includes, excludes) && (end.Positive? || end.Negative?)
             && (end == Positive ==> excludes == {})
    ensures o.Added? ==> AllAccepted(patterns) && ends == EndsOfAll(patterns)
    ensures o.Added? ==> Compiled(states', s', IncludedAll(includes, end, ends), ExcludedAll(excludes, end, ends))
    ensures o.Invalid? ==> !AllAccepted(patterns)
    ensures o.TooManyStates? ==> TooMany(includes + excludes + EndsOfAll(patterns))
  {
    states', s', ends := states, s, {};
    ListStarts(states, s, patterns, end, includes, excludes);
    for n := 0 to |patterns|
      invariant AddedSoFar(states', s', patterns, n, end, includes, excludes, ends)
    {
      o, states', s', ends := AddNthPattern(states', patterns, n, end, s', includes, excludes, ends);
      if !o.Added? {
        return;
      }
    }
    ListEnds(states', s', patterns, end, includes, excludes, ends);
    o := Added;
  }

  lemma MoreEnds(includes: set<Path>, excludes: set<Path>, end: End, ends: set<Path>, more: set<Path>)
    ensures IncludedAll(IncludedAll(includes, end, ends), end, more) == IncludedAll(includes, end, ends + more)
    ensures ExcludedAll(ExcludedAll(excludes, end, ends), end, more) == ExcludedAll(excludes, end, ends + more)
  {
    assert includes + ends + more == includes + (ends + more) && excludes + ends + more == excludes + (ends + more);
  }

  /** A compiled automaton has no more states than can be numbered. */
  lemma CompiledFits(states: seq<State>, s: Shape, includes: set<Path>, excludes: set<Path>)
    requires Compiled(states, s, includes, excludes)
    ensures |states| == |StartsOf(includes + excludes)| && !TooMany(includes + excludes)
  {
    var ends := includes + excludes;
    forall p | OnTheWay(ends, p) ensures p in s.paths {
      if p == [] {
        assert Opened(OfNfa);
      } else {
        var e :| e in ends && p <= e;
        var j :| 0 <= j < |s.paths| && s.paths[j] == e;
        var i := PrefixKnown(states, s, j, p);
      }
    }
    assert Distinct(s.paths) by {
      assert Opened(OfNfa);
    }
    CoversCount(s.paths, ends);
  }

  /** What can be compiled: well-formed patterns that need no more states than can be numbered. */
  ghost predicate Compilable(includes: seq<Text>, excludes: seq<Text>) {
    AllAccepted(includes) && AllAccepted(excludes) && !TooMany(EndsOfAll(includes) + EndsOfAll(excludes))
  }

  /** NewNFAFromPatterns. */
  method NewNFAFromPatterns(includes: seq<Text>, excludes: seq<Text>)
      returns (o: Outcome, states: seq<State>, ghost s: Shape)
    ensures o.Added? <==> Compilable(includes, excludes)
    ensures o.Added? ==> NfaOf(states, s, EndsOfAll(includes), EndsOfAll(excludes))
    ensures o.Invalid? ==> !(AllAccepted(includes) && AllAccepted(excludes))
    ensures o.TooManyStates? ==> TooMany(EndsOfAll(includes) + EndsOfAll(excludes))
  {
    FirstCompiled();
    states, s := [BLANK], Shape([[]], [[]]);
    ghost var inc, exc := EndsOfAll(includes), EndsOfAll(excludes);
    ghost var ends;
    o, states, s, ends := AddPatterns(states, includes, Positive, s, {}, {});
    if !o.Added? {
      if o.TooManyStates? {
        TooManyGrows({} + {} + inc, inc + exc);
      }
      return;
    }
    assert {} + inc == inc;
    o, states, s, ends := AddPatterns(states, excludes, Negative, s, inc, {});
    if !o.Added? {
      assert inc + {} + exc == inc + exc;
      return;
    }
    assert {} + exc == exc;
    CompiledFits(states, s, inc, exc);
    NfaIsSound(states, s);
    states := Propagate(states, s);
  }
}
