/** Matching a text against the automaton, rune by rune. */
module GlobMatcher {
  import opened Folding
  import opened GlobPattern
  import opened GlobStates
  import opened GlobCompile
  import opened GlobNfa

  /** A set of states, and whether one of them still leads to a positive end. */
  datatype StatesSet = StatesSet(states: set<nat>, hasPositive: bool)

  const NOTHING := StatesSet({}, false)

  ghost predicate FlagOk(states: seq<State>, ss: StatesSet) {
    (forall i :: i in ss.states ==> i < |states|)
      && (ss.hasPositive <==> exists i :: i in ss.states && states[i].hasPositive)
  }

  function Plus(states: seq<State>, ss: StatesSet, i: nat): (ss': StatesSet)
    requires i < |states|
    ensures ss'.states == ss.states + {i} && (FlagOk(states, ss) ==> FlagOk(states, ss'))
  {
    StatesSet(ss.states + {i}, ss.hasPositive || states[i].hasPositive)
  }

  function Some(i: nat): set<nat> {
    if i == 0 then {} else {i}
  }

  /** The states that active wildcards make of x: those after "*", those after "**", and all. */
  function StarsOf(states: seq<State>, x: nat): set<nat> {
    if x >= |states| then {}
    else Some(states[x].star) + if 0 < states[x].starStarSlash < |states|
      then Some(states[states[x].starStarSlash].star) else {}
  }

  function DoublesOf(states: seq<State>, x: nat): set<nat> {
    if x >= |states| then {} else Some(states[x].starStarSlash)
  }

  function ClosureOf(states: seq<State>, x: nat): set<nat> {
    {x} + StarsOf(states, x) + DoublesOf(states, x)
  }


  /** The three sets after expanding all of xs. */
  ghost predicate ExpandedAll(states: seq<State>, xs: set<nat>, a: Active, b: Active) {
    && (forall i :: i in b.current.states <==>
         i in a.current.states || exists x :: x in xs && i in ClosureOf(states, x))
    && (forall i :: i in b.stars.states <==> i in a.stars.states || exists x :: x in xs && i in StarsOf(states, x))
    && (forall i :: i in b.doubles.states <==>
         i in a.doubles.states || exists x :: x in xs && i in DoublesOf(states, x))
  }

  /** The sets of a matcher: active states, and states after an active "*" or "**". */
  datatype Active = Active(current: StatesSet, stars: StatesSet, doubles: StatesSet)

  ghost predicate FlagsOk(states: seq<State>, a: Active) {
    FlagOk(states, a.current) && FlagOk(states, a.stars) && FlagOk(states, a.doubles)
  }

  /** Edges lead to states. */
  ghost predicate EdgesIn(states: seq<State>) {
    |states| > 0 && forall i :: 0 <= i < |states| ==> states[i].star < |states| && states[i].starStarSlash < |states|
  }

  lemma NfaEdgesIn(states: seq<State>, s: Shape)
    requires Nfa(states, s)
    ensures EdgesIn(states)
  {
    forall i | 0 <= i < |states| ensures states[i].star < |states| && states[i].starStarSlash < |states| {
      EdgeFound(states, s, i);
    }
  }

  /** expandState2. */
  method Expand2(states: seq<State>, a: Active, x: nat) returns (b: Active)
    requires EdgesIn(states) && x < |states| && FlagsOk(states, a)
    ensures FlagsOk(states, b) && b.doubles == a.doubles
    ensures b.current.states == a.current.states + {x} + Some(states[x].star)
            && b.stars.states == a.stars.states + Some(states[x].star)
  {
    b := a.(current := Plus(states, a.current, x));
    var y := states[x].star;
    if y != 0 {
      b := b.(stars := Plus(states, b.stars, y), current := Plus(states, b.current, y));
    }
  }

  /** expandState3. */
  method Expand3(states: seq<State>, a: Active, x: nat) returns (b: Active)
    requires EdgesIn(states) && x < |states| && FlagsOk(states, a)
    ensures FlagsOk(states, b) && b.current.states == a.current.states + ClosureOf(states, x)
    ensures b.stars.states == a.stars.states + StarsOf(states, x)
            && b.doubles.states == a.doubles.states + DoublesOf(states, x)
  {
    b := Expand2(states, a, x);
    var y := states[x].starStarSlash;
    if y != 0 {
      b := b.(doubles := Plus(states, b.doubles, y));
      b := Expand2(states, b, y);
    }
  }

  /** Expands a set of states, in any order. */
  method ExpandAll(states: seq<State>, a: Active, xs: set<nat>) returns (b: Active)
    requires EdgesIn(states) && FlagsOk(states, a) && forall x :: x in xs ==> x < |states|
    ensures FlagsOk(states, b) && ExpandedAll(states, xs, a, b)
  {
    b := a;
    var rest := xs;
    ghost var done: set<nat> := {};
    while rest != {}
      invariant done + rest == xs && FlagsOk(states, b) && ExpandedAll(states, done, a, b)
    {
      var x :| x in rest;
      ghost var mid := b;
      b := Expand3(states, b, x);
      ExpandedMore(states, done, x, a, mid, b);
      done, rest := done + {x}, rest - {x};
    }
    assert done == xs;
  }

  lemma ExpandedMore(states: seq<State>, xs: set<nat>, x: nat, a: Active, mid: Active, b: Active)
    requires ExpandedAll(states, xs, a, mid)
    requires b.current.states == mid.current.states + ClosureOf(states, x)
    requires b.stars.states == mid.stars.states + StarsOf(states, x)
             && b.doubles.states == mid.doubles.states + DoublesOf(states, x)
    ensures ExpandedAll(states, xs + {x}, a, b)
  {
  }

  // ---- What the sets mean ----

  ghost predicate EndsIn(p: Path, t: Token) {
    p != [] && p[|p| - 1] == t
  }

  ghost function Front(p: Path): Path
    requires p != []
  {
    p[..|p| - 1]
  }

  /** After reading w, the active states are those whose path denotes w, and the wildcards those that can go on. */
  ghost predicate Tracks(states: seq<State>, paths: seq<Path>, a: Active, w: Text) {
    && |states| == |paths|
    && (forall i: nat :: i in a.current.states <==> i < |states| && Denotes(paths[i], w))
    && (forall i: nat :: i in a.stars.states <==> i < |states| && EndsIn(paths[i], Star) && Denotes(paths[i], w))
    && (forall i: nat :: i in a.doubles.states <==>
         i < |states| && EndsIn(paths[i], StarStarSlash) && Reached(Front(paths[i]), w))
  }

  /** The states that read the rune c themselves: after "*", after "**", or by a regular character. */
  ghost predicate Reads(states: seq<State>, s: Shape, a: Active, c: nat, x: nat) {
    && x < |s.paths|
    && (|| (c != SLASH && x in a.stars.states) || (c == SLASH && x in a.doubles.states)
        || (EndsIn(s.paths[x], Rune(c)) && exists i ::
             i in a.current.states && i < |s.paths| && s.paths[i] == Front(s.paths[x])))
  }

  lemma FrontOf(p: Path, t: Token)
    ensures EndsIn(p + [t], t) && Front(p + [t]) == p
  {
  }

  /** A state whose last token reads the rune denotes the longer text. */
  lemma ReadsDenotes(states: seq<State>, s: Shape, a: Active, w: Text, c: nat, x: nat)
    requires Tracks(states, s.paths, a, w) && Reads(states, s, a, c, x)
    ensures Denotes(s.paths[x], w + [c])
  {
    var p := s.paths[x];
    var f := Front(p);
    assert p == f + [p[|p| - 1]];
    if c != SLASH && x in a.stars.states {
      StarStep(f, w, c);
    } else if c == SLASH && x in a.doubles.states {
      StarStarSlashStep(f, w, c);
    } else {
      RuneStep(f, c, w, c);
    }
  }

  /** A state denotes the longer text when its last token reads the rune, or is a wildcard that
      stands for nothing after a state that does. */
  lemma DenotesReads(states: seq<State>, s: Shape, a: Active, w: Text, c: nat, i: nat)
    requires Nfa(states, s) && Tracks(states, s.paths, a, w) && i < |states| && Denotes(s.paths[i], w + [c])
    ensures s.paths[i] != []
    ensures Reads(states, s, a, c, i) || (!s.paths[i][|s.paths[i]| - 1].Rune? && Denotes(Front(s.paths[i]), w + [c]))
  {
    var p := s.paths[i];
    assert p != [];
    var f, t := Front(p), p[|p| - 1];
    assert p == f + [t];
    match t {
      case Star => StarStep(f, w, c);
      case StarStarSlash => StarStarSlashStep(f, w, c);
      case Rune(r) =>
        RuneStep(f, r, w, c);
        ParentKnown(states, s, i);
        var j :| 0 <= j < |s.paths| && s.paths[j] == f;
        assert j in a.current.states;
    }
  }

  // ---- One rune ----

  /** Wildcards may stand for nothing. */
  lemma WildcardEmpty(p: Path, t: Token, u: Text)
    requires Denotes(p, u) && !t.Rune?
    ensures Denotes(p + [t], u) && Reached(p, u)
  {
    DenotesSnoc(p, t, u);
    assert u[..|u|] == u && u[|u|..] == [];
  }

  lemma EdgeTo(states: seq<State>, s: Shape, x: nat, t: Token, i: nat)
    requires Nfa(states, s) && x < |states| && i < |states| && !t.Rune?
    ensures var e := if t.Star? then states[x].star else states[x].starStarSlash;
            i in Some(e) <==> s.paths[i] == s.paths[x] + [t]
  {
    EdgeFound(states, s, x);
    RootIsEmpty(states, s, i);
    var e := if t.Star? then states[x].star else states[x].starStarSlash;
    if s.paths[i] == s.paths[x] + [t] {
      assert s.paths[x] + [t] in s.paths;
      Same(states, s, i, e);
    }
  }

  /** What the three sets of a state are, as paths. */
  lemma ClosurePaths(states: seq<State>, s: Shape, x: nat, i: nat)
    requires Nfa(states, s) && x < |states| && i < |states|
    ensures i in DoublesOf(states, x) <==> s.paths[i] == s.paths[x] + [StarStarSlash]
    ensures i in StarsOf(states, x) <==>
            s.paths[i] == s.paths[x] + [Star]
              || (s.paths[i] == s.paths[x] + [StarStarSlash] + [Star] && s.paths[x] + [StarStarSlash] in s.paths)
  {
    EdgeTo(states, s, x, Star, i);
    EdgeTo(states, s, x, StarStarSlash, i);
    EdgeFound(states, s, x);
    var y := states[x].starStarSlash;
    if y != 0 {
      EdgeTo(states, s, y, Star, i);
    }
  }

  lemma ClosureIn(states: seq<State>, x: nat, i: nat)
    requires EdgesIn(states) && x < |states| && i in ClosureOf(states, x)
    ensures i < |states|
  {
  }

  /** The state after reading one more rune. */
  ghost predicate Read(states: seq<State>, s: Shape, a: Active, c: nat, xs: set<nat>, b: Active) {
    && (forall x: nat :: x in xs <==> Reads(states, s, a, c, x))
    && ExpandedAll(states, xs, Active(NOTHING, if c == SLASH then NOTHING else a.stars, a.doubles), b)
  }

  /** All states that denote the longer text come from one that reads the rune. */
  lemma Origin(states: seq<State>, s: Shape, a: Active, w: Text, c: nat, i: nat) returns (x: nat)
    requires Nfa(states, s) && AllTidy(s.paths) && Tracks(states, s.paths, a, w) && i < |states|
             && Denotes(s.paths[i], w + [c])
    ensures Reads(states, s, a, c, x) && s.paths[i] != []
    ensures var p, q := s.paths[x], s.paths[i];
            || x == i || q == p + [Star] || q == p + [StarStarSlash]
               || (q == p + [StarStarSlash] + [Star] && p + [StarStarSlash] in s.paths)
  {
    DenotesReads(states, s, a, w, c, i);
    if Reads(states, s, a, c, i) {
      return i;
    }
    var q := s.paths[i];
    var j := ParentOf(states, s, i);
    DenotesReads(states, s, a, w, c, j);
    if Reads(states, s, a, c, j) {
      return j;
    }
    var p := s.paths[j];
    assert Tidy(q) && MayFollow(q[|q| - 2], q[|q| - 1]) && q[|q| - 2] == p[|p| - 1];
    var g := ParentOf(states, s, j);
    DenotesReads(states, s, a, w, c, g);
    var o := s.paths[g];
    assert Tidy(p) && MayFollow(p[|p| - 2], p[|p| - 1]) && p[|p| - 2] == o[|o| - 1];
    assert o + [StarStarSlash] == p;
    x := g;
  }

  lemma ParentOf(states: seq<State>, s: Shape, i: nat) returns (j: nat)
    requires Nfa(states, s) && i < |states| && s.paths[i] != []
    ensures j < |states| && s.paths[j] == Front(s.paths[i]) && s.paths[i] == s.paths[j] + [s.paths[i][|s.paths[i]| - 1]]
  {
    ParentKnown(states, s, i);
    j :| 0 <= j < |s.paths| && s.paths[j] == Front(s.paths[i]);
  }

  /** Every state in the closure of a state that denotes u denotes u. */
  lemma ClosureDenotes(states: seq<State>, s: Shape, x: nat, i: nat, u: Text)
    requires Nfa(states, s) && x < |states| && i < |states| && i in ClosureOf(states, x) && Denotes(s.paths[x], u)
    ensures Denotes(s.paths[i], u)
    ensures i in StarsOf(states, x) ==> EndsIn(s.paths[i], Star)
    ensures i in DoublesOf(states, x) ==> EndsIn(s.paths[i], StarStarSlash) && Reached(Front(s.paths[i]), u)
  {
    var p := s.paths[x];
    ClosurePaths(states, s, x, i);
    WildcardEmpty(p, Star, u);
    WildcardEmpty(p, StarStarSlash, u);
    WildcardEmpty(p + [StarStarSlash], Star, u);
    FrontOf(p, StarStarSlash);
  }

  lemma CurrentStep(states: seq<State>, s: Shape, a: Active, w: Text, c: nat, xs: set<nat>, b: Active, i: nat)
    requires Nfa(states, s) && AllTidy(s.paths) && Tracks(states, s.paths, a, w) && Read(states, s, a, c, xs, b)
    ensures i in b.current.states <==> i < |states| && Denotes(s.paths[i], w + [c])
  {
    NfaEdgesIn(states, s);
    if i in b.current.states {
      var x :| x in xs && i in ClosureOf(states, x);
      ReadsDenotes(states, s, a, w, c, x);
      ClosureIn(states, x, i);
      ClosureDenotes(states, s, x, i, w + [c]);
    }
    if i < |states| && Denotes(s.paths[i], w + [c]) {
      var x := Origin(states, s, a, w, c, i);
      ClosurePaths(states, s, x, i);
      assert x in xs && i in ClosureOf(states, x);
    }
  }

  lemma StarsStep(states: seq<State>, s: Shape, a: Active, w: Text, c: nat, xs: set<nat>, b: Active, i: nat)
    requires Nfa(states, s) && AllTidy(s.paths) && Tracks(states, s.paths, a, w) && Read(states, s, a, c, xs, b)
    ensures i in b.stars.states <==> i < |states| && EndsIn(s.paths[i], Star) && Denotes(s.paths[i], w + [c])
  {
    NfaEdgesIn(states, s);
    if i in b.stars.states {
      if c != SLASH && i in a.stars.states {
        ReadsDenotes(states, s, a, w, c, i);
      } else {
        var x :| x in xs && i in StarsOf(states, x);
        ReadsDenotes(states, s, a, w, c, x);
        ClosureIn(states, x, i);
        ClosureDenotes(states, s, x, i, w + [c]);
      }
    }
    if i < |states| && EndsIn(s.paths[i], Star) && Denotes(s.paths[i], w + [c]) {
      var x := Origin(states, s, a, w, c, i);
      ClosurePaths(states, s, x, i);
      assert x in xs && (x == i || i in StarsOf(states, x));
    }
  }

  lemma DoublesStep(states: seq<State>, s: Shape, a: Active, w: Text, c: nat, xs: set<nat>, b: Active, i: nat)
    requires Nfa(states, s) && AllTidy(s.paths) && Tracks(states, s.paths, a, w) && Read(states, s, a, c, xs, b)
    ensures i in b.doubles.states <==>
              i < |states| && EndsIn(s.paths[i], StarStarSlash) && Reached(Front(s.paths[i]), w + [c])
  {
    NfaEdgesIn(states, s);
    if i in b.doubles.states {
      if i in a.doubles.states {
        ReachedStep(Front(s.paths[i]), w, c);
      } else {
        var x :| x in xs && i in DoublesOf(states, x);
        ReadsDenotes(states, s, a, w, c, x);
        ClosureIn(states, x, i);
        ClosureDenotes(states, s, x, i, w + [c]);
      }
    }
    if i < |states| && EndsIn(s.paths[i], StarStarSlash) && Reached(Front(s.paths[i]), w + [c]) {
      var f := Front(s.paths[i]);
      ReachedStep(f, w, c);
      if Denotes(f, w + [c]) {
        var j := ParentOf(states, s, i);
        DoubleOrigin(states, s, a, w, c, i, j);
        ClosurePaths(states, s, j, i);
        assert j in xs && i in DoublesOf(states, j);
      }
    }
  }

  /** The state before "**" reads the rune itself, as no wildcard comes before "**". */
  lemma DoubleOrigin(states: seq<State>, s: Shape, a: Active, w: Text, c: nat, i: nat, j: nat)
    requires Nfa(states, s) && AllTidy(s.paths) && Tracks(states, s.paths, a, w) && i < |states| && j < |states|
    requires s.paths[i] == s.paths[j] + [StarStarSlash] && Denotes(s.paths[j], w + [c])
    ensures Reads(states, s, a, c, j)
  {
    DenotesReads(states, s, a, w, c, j);
    var q, p := s.paths[i], s.paths[j];
    assert Tidy(q) && MayFollow(q[|q| - 2], q[|q| - 1]) && q[|q| - 2] == p[|p| - 1];
  }

  lemma TracksStep(states: seq<State>, s: Shape, a: Active, w: Text, c: nat, xs: set<nat>, b: Active)
    requires Nfa(states, s) && AllTidy(s.paths) && Tracks(states, s.paths, a, w) && Read(states, s, a, c, xs, b)
    ensures Tracks(states, s.paths, b, w + [c])
  {
    forall i: nat ensures i in b.current.states <==> i < |states| && Denotes(s.paths[i], w + [c]) {
      CurrentStep(states, s, a, w, c, xs, b, i);
    }
    forall i: nat ensures i in b.stars.states <==>
        i < |states| && EndsIn(s.paths[i], Star) && Denotes(s.paths[i], w + [c]) {
      StarsStep(states, s, a, w, c, xs, b, i);
    }
    forall i: nat ensures i in b.doubles.states <==>
        i < |states| && EndsIn(s.paths[i], StarStarSlash) && Reached(Front(s.paths[i]), w + [c]) {
      DoublesStep(states, s, a, w, c, xs, b, i);
    }
  }

  // ---- The start ----

  lemma StartDenoted()
    ensures Denotes([], []) && Denotes([Star], []) && Denotes([StarStarSlash], []) && Denotes([StarStarSlash, Star], [])
  {
    EmptyText([], Star);
    EmptyText([], StarStarSlash);
    EmptyText([StarStarSlash], Star);
    assert [] + [Star] == [Star] && [] + [StarStarSlash] == [StarStarSlash]
      && [StarStarSlash] + [Star] == [StarStarSlash, Star];
  }

  lemma StartOnly(p: Path, f: Path, t: Token)
    requires Tidy(p) && p == f + [t] && Denotes(p, [])
    ensures p == [Star] || p == [StarStarSlash] || p == [StarStarSlash, Star]
  {
    EmptyText(f, t);
    if f == [] {
      assert p == [t];
    } else {
      StartTwo(p, f, t);
    }
  }

  /** A path that denotes the empty text is one of the first wildcards. */
  lemma StartPath(p: Path)
    requires Tidy(p)
    ensures Denotes(p, []) <==> p == [] || p == [Star] || p == [StarStarSlash] || p == [StarStarSlash, Star]
  {
    StartDenoted();
    if p != [] && Denotes(p, []) {
      StartOnly(p, Front(p), p[|p| - 1]);
    }
  }

  lemma StartClosure(states: seq<State>, s: Shape, i: nat)
    requires Nfa(states, s) && i < |states|
    ensures i in ClosureOf(states, 0) <==> var p := s.paths[i];
            p == [] || p == [Star] || p == [StarStarSlash] || p == [StarStarSlash, Star]
    ensures i in StarsOf(states, 0) <==> var p := s.paths[i]; p == [Star] || p == [StarStarSlash, Star]
    ensures i in DoublesOf(states, 0) <==> s.paths[i] == [StarStarSlash]
  {
    RootIsEmpty(states, s, 0);
    RootIsEmpty(states, s, i);
    ClosurePaths(states, s, 0, i);
    assert [] + [Star] == [Star] && [] + [StarStarSlash] == [StarStarSlash]
      && [StarStarSlash] + [Star] == [StarStarSlash, Star];
    if s.paths[i] == [StarStarSlash, Star] {
      ParentKnown(states, s, i);
      assert s.paths[i][..1] == [StarStarSlash];
    }
  }

  lemma StartFront(p: Path)
    requires Tidy(p) && EndsIn(p, StarStarSlash)
    ensures Reached(Front(p), []) <==> p == [StarStarSlash]
  {
    var f := Front(p);
    assert p == f + [StarStarSlash];
    EmptyText(f, StarStarSlash);
    StartPath(p);
  }

  /** Before anything is read, only wildcards can have been passed. */
  lemma Start(states: seq<State>, s: Shape, i: nat)
    requires Nfa(states, s) && AllTidy(s.paths) && i < |states|
    ensures Denotes(s.paths[i], []) <==> i in ClosureOf(states, 0)
    ensures EndsIn(s.paths[i], Star) && Denotes(s.paths[i], []) <==> i in StarsOf(states, 0)
    ensures EndsIn(s.paths[i], StarStarSlash) && Reached(Front(s.paths[i]), []) <==> i in DoublesOf(states, 0)
  {
    StartPath(s.paths[i]);
    StartClosure(states, s, i);
    if EndsIn(s.paths[i], StarStarSlash) {
      StartFront(s.paths[i]);
    }
  }

  /** The only two wildcards in a row are "**" and "*". */
  lemma StartTwo(p: Path, f: Path, t: Token)
    requires Tidy(p) && p == f + [t] && f != [] && !t.Rune?
    ensures Denotes(f, []) ==> p == [] + [StarStarSlash] + [Star] && f == [StarStarSlash]
  {
    var g, v := Front(f), f[|f| - 1];
    assert f == g + [v];
    EmptyText(g, v);
    assert MayFollow(p[|p| - 2], p[|p| - 1]) && (|p| > 2 ==> MayFollow(p[|p| - 3], p[|p| - 2]));
    if g != [] {
      var h, u := Front(g), g[|g| - 1];
      assert g == h + [u];
      EmptyText(h, u);
    }
  }

  // ---- Giving up early ----

  /** Texts that start with u and are denoted by a state lead through a state that is active after u. */
  lemma {:induction false} Descends(states: seq<State>, s: Shape, a: Active, u: Text, v: Text, i: nat) returns (j: nat)
    requires Nfa(states, s) && Tracks(states, s.paths, a, u) && i < |states| && Denotes(s.paths[i], u + v)
    ensures j < |states| && s.paths[j] <= s.paths[i] && (j in a.current.states || j in a.doubles.states)
    decreases |s.paths[i]|
  {
    var p, w := s.paths[i], u + v;
    if v == [] {
      assert w == u;
      return i;
    }
    assert p != [];
    var f, t := Front(p), p[|p| - 1];
    assert p == f + [t];
    DenotesSnoc(f, t, w);
    var k :| 0 <= k <= |w| && Denotes(f, w[..k]) && TokenMatches(t, w[k..]);
    var parent := ParentOf(states, s, i);
    if k > |u| {
      assert w[..k] == u + v[..k - |u|];
      j := Descends(states, s, a, u, v[..k - |u|], parent);
    } else {
      assert w[..k] == u[..k];
      match t {
        case Rune(r) =>
          assert k == |u| && u[..k] == u;
          j := parent;
        case Star =>
          assert u[k..] == w[k..][..|u| - k];
          DenotesSnoc(f, Star, u);
          j := i;
        case StarStarSlash =>
          j := i;
      }
    }
  }

  /** Once no active state leads to a positive end, no longer text matches. */
  lemma Hopeless(states: seq<State>, s: Shape, a: Active, u: Text, v: Text, i: nat)
    requires Nfa(states, s) && Marked(states, s.paths, 0) && FlagsOk(states, a) && Tracks(states, s.paths, a, u)
             && u != []
    requires !a.current.hasPositive && !a.doubles.hasPositive
    requires i < |states| && Denotes(s.paths[i], u + v)
    ensures states[i].end != Positive
  {
    var j := Descends(states, s, a, u, v, i);
    RootIsEmpty(states, s, j);
    assert states[i].end == Positive ==> Hopeful(states, s.paths, j);
  }

  // ---- The matcher ----

  /** The child of i for the rune c, found by walking the sorted siblings. */
  method RuneChild(states: seq<State>, i: nat, c: nat, ghost s: Shape) returns (x: nat)
    requires Nfa(states, s) && i < |states|
    ensures x < |states| && forall y: nat :: y < |states| ==>
              (s.paths[y] == s.paths[i] + [Rune(c)] <==> x != 0 && y == x)
  {
    EdgeFound(states, s, i);
    ghost var list, k := s.kids[i], 0;
    x := states[i].first;
    while x != 0
      invariant k <= |list| && x == Sibling(list, k)
      invariant forall l :: 0 <= l < k ==> states[list[l]].rune < c
      decreases |list| - k
    {
      if states[x].rune == c {
        OnlyChild(states, s, i, c, x);
        return;
      }
      if c < states[x].rune {
        break;
      }
      x, k := states[x].next, k + 1;
    }
    NoSuchRune(states, s.paths, i, list, k, c);
    x := 0;
  }

  lemma OnlyChild(states: seq<State>, s: Shape, i: nat, c: nat, x: nat)
    requires Nfa(states, s) && i < |states| && 0 < x < |states| && s.paths[x] == s.paths[i] + [Rune(c)]
    ensures forall y: nat :: y < |states| ==> (s.paths[y] == s.paths[i] + [Rune(c)] <==> y == x)
  {
    assert Opened(OfNfa);
  }

  /** The states reached from the given ones by a regular character. */
  method RuneChildren(states: seq<State>, previous: set<nat>, c: nat, ghost s: Shape) returns (xs: set<nat>)
    requires Nfa(states, s) && forall i :: i in previous ==> i < |states|
    ensures forall x: nat :: x in xs <==>
              x < |states| && exists i :: i in previous && s.paths[x] == s.paths[i] + [Rune(c)]
  {
    xs := {};
    var rest := previous;
    ghost var done: set<nat> := {};
    while rest != {}
      invariant done + rest == previous
      invariant forall x: nat :: x in xs <==>
                  x < |states| && exists i :: i in done && s.paths[x] == s.paths[i] + [Rune(c)]
    {
      var i :| i in rest;
      var x := RuneChild(states, i, c, s);
      if x != 0 {
        xs := xs + {x};
      }
      done, rest := done + {i}, rest - {i};
    }
    assert done == previous;
  }

  /** Expanding the wildcards and then the regular characters reads the rune. */
  lemma ReadAll(states: seq<State>, s: Shape, a: Active, c: nat, wild: set<nat>, kids: set<nat>, start: Active,
      mid: Active, b: Active)
    requires |s.paths| == |states|
             && (forall i :: i in a.stars.states || i in a.doubles.states || i in a.current.states ==> i < |states|)
    requires wild == if c == SLASH then a.doubles.states else a.stars.states
    requires forall x: nat :: x in kids <==>
               x < |states| && exists i :: i in a.current.states && s.paths[x] == s.paths[i] + [Rune(c)]
    requires start == Active(NOTHING, if c == SLASH then NOTHING else a.stars, a.doubles)
    requires ExpandedAll(states, wild, start, mid) && ExpandedAll(states, kids, mid, b)
    ensures Read(states, s, a, c, wild + kids, b)
  {
    forall x: nat ensures x in wild + kids <==> Reads(states, s, a, c, x) {
      ReadsBy(states, s, a, c, x);
    }
  }

  /** A rune is read by following its edges from the current states, or by staying at a wildcard. */
  lemma ReadsBy(states: seq<State>, s: Shape, a: Active, c: nat, x: nat)
    requires |s.paths| == |states|
             && (forall i :: i in a.stars.states || i in a.doubles.states || i in a.current.states ==> i < |states|)
    ensures Reads(states, s, a, c, x) <==>
            || x in (if c == SLASH then a.doubles.states else a.stars.states)
            || (x < |states| && exists i :: i in a.current.states && s.paths[x] == s.paths[i] + [Rune(c)])
  {
    if x < |states| && EndsIn(s.paths[x], Rune(c)) {
      assert s.paths[x] == Front(s.paths[x]) + [Rune(c)];
    }
    if x < |states| && exists i :: i in a.current.states && s.paths[x] == s.paths[i] + [Rune(c)] {
      var i :| i in a.current.states && s.paths[x] == s.paths[i] + [Rune(c)];
      FrontOf(s.paths[i], Rune(c));
    }
  }

  /** The text leads to some state with the given end. */
  ghost predicate EndsAt(states: seq<State>, s: Shape, w: Text, end: End) {
    |states| == |s.paths| && exists i: nat :: i < |states| && Denotes(s.paths[i], w) && states[i].end == end
  }

  /** Without a mark on any active state, no text that starts with what was read leads to a positive end. */
  lemma NothingToHope(states: seq<State>, s: Shape, a: Active, u: Text)
    requires Nfa(states, s) && AllTidy(s.paths) && Marked(states, s.paths, 0) && FlagsOk(states, a) && u != []
    requires Tracks(states, s.paths, a, u)
    requires !a.current.hasPositive && !a.stars.hasPositive && !a.doubles.hasPositive
    ensures forall v: Text :: !EndsAt(states, s, u + v, Positive)
  {
    forall v: Text ensures !EndsAt(states, s, u + v, Positive) {
      forall i: nat | i < |states| && Denotes(s.paths[i], u + v) ensures states[i].end != Positive {
        Hopeless(states, s, a, u, v, i);
      }
    }
  }

  class Matcher {
    var states: seq<State>
    var active: Active

    /** The paths of the states, and the text read so far. */
    ghost var shape: Shape
    ghost var text: Text

    ghost predicate Valid()
      reads this
    {
      && Nfa(states, shape) && AllTidy(shape.paths) && Marked(states, shape.paths, 0)
      && FlagsOk(states, active) && Tracks(states, shape.paths, active, text)
    }

    /** Initialize. */
    constructor (states: seq<State>, ghost s: Shape)
      requires Nfa(states, s) && AllTidy(s.paths) && Marked(states, s.paths, 0)
      ensures Valid() && this.states == states && shape == s && text == []
    {
      NfaEdgesIn(states, s);
      var start := Active(NOTHING, NOTHING, NOTHING);
      var first := Expand3(states, start, 0);
      forall i: nat | i < |states|
        ensures Denotes(s.paths[i], []) <==> i in ClosureOf(states, 0)
        ensures EndsIn(s.paths[i], Star) && Denotes(s.paths[i], []) <==> i in StarsOf(states, 0)
        ensures EndsIn(s.paths[i], StarStarSlash) && Reached(Front(s.paths[i]), []) <==> i in DoublesOf(states, 0)
      {
        Start(states, s, i);
      }
      this.states, active, shape, text := states, first, s, [];
    }

    /** The states that are active after one rune more: those reached by staying at a wildcard or over an edge. */
    method Advance(r: nat) returns (next: Active, ghost xs: set<nat>)
      requires Valid()
      ensures FlagsOk(states, next) && Read(states, shape, active, r, xs, next)
    {
      NfaEdgesIn(states, shape);
      var start := Active(NOTHING, if r == SLASH then NOTHING else active.stars, active.doubles);
      var wild := if r == SLASH then active.doubles.states else active.stars.states;
      var mid := ExpandAll(states, start, wild);
      var kids := RuneChildren(states, active.current.states, r, shape);
      next := ExpandAll(states, mid, kids);
      ReadAll(states, shape, active, r, wild, kids, start, mid, next);
      xs := wild + kids;
    }

    /** WriteRune: reads one rune. When it returns false, no text that starts with what was read matches. */
    method WriteRune(r: nat) returns (more: bool)
      requires Valid()
      modifies this`active, this`text
      ensures Valid() && text == old(text) + [r]
      ensures !more ==> forall v: Text :: !EndsAt(states, shape, text + v, Positive)
    {
      var next;
      ghost var xs;
      next, xs := Advance(r);
      TracksStep(states, shape, active, text, r, xs, next);
      active := next;
      text := text + [r];
      more := active.current.hasPositive || active.stars.hasPositive || active.doubles.hasPositive;
      if !more {
        NothingToHope(states, shape, active, text);
      }
    }

    /** IsMatch: the strongest end among the active states is positive. */
    method IsMatch() returns (matches: bool)
      requires Valid()
      ensures matches <==>
                EndsAt(states, shape, text, Positive) && !EndsAt(states, shape, text, Negative)
                && !EndsAt(states, shape, text, Undefined)
    {
      var strongest := NoEnd;
      var rest := active.current.states;
      ghost var done: set<nat> := {};
      while rest != {}
        invariant done + rest == active.current.states
        invariant forall i :: i in done ==> EndNumber(states[i].end) <= EndNumber(strongest)
        invariant strongest == NoEnd || exists i :: i in done && states[i].end == strongest
      {
        var i :| i in rest;
        var end := states[i].end;
        if EndNumber(strongest) < EndNumber(end) {
          strongest := end;
        }
        done, rest := done + {i}, rest - {i};
      }
      assert done == active.current.states;
      matches := strongest == Positive;
    }
  }
}
