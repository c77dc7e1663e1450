/** Compiling patterns: the automaton has a state for every start of a pattern's tokens, and ends
    where a pattern does. */
module GlobCompile {
  import opened Folding
  import opened GlobPattern
  import opened GlobStates

  ghost predicate AllTidy(paths: seq<Path>) {
    forall i :: 0 <= i < |paths| ==> Tidy(paths[i])
  }

  /** The path is the start of a pattern's tokens. */
  ghost predicate OnTheWay(ends: set<Path>, p: Path) {
    p == [] || exists e :: e in ends && p <= e
  }

  /** There are states for the given paths and those on the way to them, and no others. */
  ghost predicate Covers(paths: seq<Path>, ends: set<Path>) {
    (forall e :: e in ends ==> e in paths) && (forall i :: 0 <= i < |paths| ==> OnTheWay(ends, paths[i]))
  }

  function EndOf(includes: set<Path>, excludes: set<Path>, p: Path): End {
    if p in excludes then Negative else if p in includes then Positive else NoEnd
  }

  /** Excludes win over includes. */
  ghost predicate EndsOk(states: seq<State>, paths: seq<Path>, includes: set<Path>, excludes: set<Path>) {
    |states| == |paths| && forall i :: 0 <= i < |paths| ==>
        states[i].end == EndOf(includes, excludes, paths[i]) && !states[i].hasPositive
  }

  /** The automaton for patterns with these ends. */
  ghost predicate Compiled(states: seq<State>, s: Shape, includes: set<Path>, excludes: set<Path>) {
    var whole := Nfa(states, s) && AllTidy(s.paths) && Covers(s.paths, includes + excludes)
      && EndsOk(states, s.paths, includes, excludes);
    whole
  }

  /** The automaton while the tokens `path` of a further pattern are being added. */
  ghost predicate Compiling(states: seq<State>, s: Shape, includes: set<Path>, excludes: set<Path>, cur: nat,
      path: Path) {
    var whole :=
      && Nfa(states, s) && AllTidy(s.paths) && EndsOk(states, s.paths, includes, excludes)
      && (forall e :: e in includes + excludes ==> e in s.paths)
      && (forall i :: 0 <= i < |s.paths| ==> OnTheWay(includes + excludes, s.paths[i]) || s.paths[i] <= path)
      && cur < |s.paths| && s.paths[cur] == path;
    whole
  }

  lemma StartCompiling(states: seq<State>, s: Shape, includes: set<Path>, excludes: set<Path>)
    requires Compiled(states, s, includes, excludes)
    ensures Compiling(states, s, includes, excludes, 0, [])
  {
    assert Opened(OfNfa);
  }

  /** Following or adding an edge. */
  lemma Advanced(states: seq<State>, s: Shape, includes: set<Path>, excludes: set<Path>, cur: nat, path: Path, t: Token,
      states': seq<State>, s': Shape, i: nat)
    requires Compiling(states, s, includes, excludes, cur, path) && Extended(states, s, cur, t, states', s', i)
             && Tidy(path + [t])
    ensures Compiling(states', s', includes, excludes, i, path + [t])
  {
    var ends, next := includes + excludes, path + [t];
    forall j | 0 <= j < |s'.paths|
      ensures Tidy(s'.paths[j]) && states'[j].end == EndOf(includes, excludes, s'.paths[j]) && !states'[j].hasPositive
      ensures OnTheWay(ends, s'.paths[j]) || s'.paths[j] <= next
    {
      if j < |s.paths| {
        assert s'.paths[j] == s.paths[j];
        assert s.paths[j] <= path ==> s.paths[j] <= next;
      } else {
        assert s'.paths[j] == next;
        assert Opened(OfNfa);
        NewIsNoEnd(states, s, s', includes, excludes, cur, path, next, j);
      }
    }
    forall e | e in ends ensures e in s'.paths {
      var j :| 0 <= j < |s.paths| && s.paths[j] == e;
      assert s'.paths[j] == e;
    }
  }

  lemma NewIsNoEnd(states: seq<State>, s: Shape, s': Shape, includes: set<Path>, excludes: set<Path>, cur: nat,
      path: Path, p: Path, j: nat)
    requires Compiling(states, s, includes, excludes, cur, path) && s.paths <= s'.paths && Distinct(s'.paths)
    requires |s.paths| <= j < |s'.paths| && s'.paths[j] == p
    ensures p !in includes && p !in excludes
  {
    forall k | 0 <= k < |s.paths| ensures s.paths[k] != p {
      assert s'.paths[k] == s.paths[k];
    }
    assert p !in s.paths;
    assert p !in includes + excludes;
  }

  // ---- Ends ----

  ghost function Included(includes: set<Path>, end: End, p: Path): set<Path> {
    if end == Positive then includes + {p} else includes
  }

  ghost function Excluded(excludes: set<Path>, end: End, p: Path): set<Path> {
    if end == Negative then excludes + {p} else excludes
  }

  lemma EndKeepsNfa(states: seq<State>, s: Shape, i: nat, end: End)
    requires Nfa(states, s) && i < |states|
    ensures Nfa(states[i := states[i].(end := end)], s)
  {
    assert Opened(OfNfa);
    var states' := states[i := states[i].(end := end)];
    forall j | 0 <= j < |states'| ensures NodeOk(states', s, j) {
      assert NodeOk(states, s, j);
      assert Chained(states', states'[j].first, s.kids[j]);
      assert KidsOk(states', s.paths, j, s.kids[j]);
    }
  }

  /** Marking a state at which the pattern ends. */
  lemma EndSet(states: seq<State>, s: Shape, includes: set<Path>, excludes: set<Path>, cur: nat, path: Path, i: nat,
      end: End)
    requires Compiling(states, s, includes, excludes, cur, path) && i < |states| && (end.Positive? || end.Negative?)
             && (end == Positive ==> excludes == {})
    ensures Compiling(states[i := states[i].(end := end)], s, Included(includes, end, s.paths[i]),
            Excluded(excludes, end, s.paths[i]), cur, path)
  {
    var states', p := states[i := states[i].(end := end)], s.paths[i];
    var includes', excludes' := Included(includes, end, p), Excluded(excludes, end, p);
    EndKeepsNfa(states, s, i, end);
    assert Distinct(s.paths) by {
      assert Opened(OfNfa);
    }
    forall j | 0 <= j < |s.paths| ensures states'[j].end == EndOf(includes', excludes', s.paths[j])
      && !states'[j].hasPositive {
    }
    forall j | 0 <= j < |s.paths| ensures OnTheWay(includes' + excludes', s.paths[j]) || s.paths[j] <= path {
      if s.paths[j] != [] && OnTheWay(includes + excludes, s.paths[j]) {
        var e :| e in includes + excludes && s.paths[j] <= e;
        assert e in includes' + excludes';
      }
    }
  }

  /** Once the pattern's own end is marked, nothing else is on the way. */
  lemma PatternAdded(states: seq<State>, s: Shape, includes: set<Path>, excludes: set<Path>, cur: nat, path: Path)
    requires Compiling(states, s, includes, excludes, cur, path) && path in includes + excludes
    ensures Compiled(states, s, includes, excludes)
  {
    forall j | 0 <= j < |s.paths| ensures OnTheWay(includes + excludes, s.paths[j]) {
    }
  }

  // ---- addPattern ----

  datatype Outcome = Added | Invalid | TooManyStates

  /** The starts of the given paths: the states that an automaton for them needs. */
  ghost function StartsOf(ends: set<Path>): set<Path> {
    {[]} + set e, k | e in ends && 0 <= k <= |e| :: e[..k]
  }

  lemma InStarts(ends: set<Path>, p: Path)
    ensures p in StartsOf(ends) <==> OnTheWay(ends, p)
  {
    if OnTheWay(ends, p) && p != [] {
      var e :| e in ends && p <= e;
      assert p == e[..|p|];
    }
  }

  /** There are more states than can be numbered. */
  ghost predicate TooMany(ends: set<Path>) {
    |StartsOf(ends)| > STATE_MASK + 1
  }

  lemma TooManyGrows(ends: set<Path>, ends': set<Path>)
    requires TooMany(ends) && ends <= ends'
    ensures TooMany(ends')
  {
    var a, b := StartsOf(ends), StartsOf(ends');
    forall p | p in a ensures p in b {
      InStarts(ends, p);
      InStarts(ends', p);
    }
    SubsetOf(a, b);
  }

  lemma {:induction false} SubsetOf(a: set<Path>, b: set<Path>)
    requires a <= b
    ensures |a| <= |b|
  {
    if a != {} {
      var p :| p in a;
      SubsetOf(a - {p}, b - {p});
    }
  }

  /** The states of an automaton are counted by its ends. */
  lemma CoversCount(paths: seq<Path>, ends: set<Path>)
    requires Distinct(paths) && Covers(paths, ends) && forall p :: OnTheWay(ends, p) ==> p in paths
    ensures |paths| == |StartsOf(ends)|
  {
    forall p ensures p in paths <==> p in StartsOf(ends) {
      InStarts(ends, p);
    }
    CountDistinct(paths, StartsOf(ends));
  }

  /** There is no number left for a state on the way to q. */
  ghost predicate Overfull(s: Shape, ends: set<Path>, q: Path) {
    && |s.paths| > STATE_MASK && Distinct(s.paths) && (exists m :: m <= q && m !in s.paths)
    && forall i :: 0 <= i < |s.paths| ==> OnTheWay(ends, s.paths[i]) || s.paths[i] <= q
  }

  lemma OverfullOn(s: Shape, ends: set<Path>, q: Path, ends': set<Path>, q': Path)
    requires Overfull(s, ends, q) && ends <= ends' && q <= q'
    ensures Overfull(s, ends', q')
  {
    var m :| m <= q && m !in s.paths;
    assert m <= q';
    forall i | 0 <= i < |s.paths| ensures OnTheWay(ends', s.paths[i]) || s.paths[i] <= q' {
      if s.paths[i] != [] && OnTheWay(ends, s.paths[i]) {
        var e :| e in ends && s.paths[i] <= e;
        assert e in ends';
      }
    }
  }

  /** Then the paths that are needed are too many. */
  lemma OverfullIsTooMany(s: Shape, ends: set<Path>, q: Path, e: Path)
    requires Overfull(s, ends, q) && e in ends && q <= e
    ensures TooMany(ends)
  {
    var m :| m <= q && m !in s.paths;
    var all := s.paths + [m];
    assert Distinct(all);
    forall p | p in all ensures p in StartsOf(ends) {
      assert p <= e || OnTheWay(ends, p);
      InStarts(ends, p);
    }
    CountDistinct(all, StartsOf(ends));
  }

  /** Follows the edge for a token, or adds it. */
  method Follow(states: seq<State>, cur: nat, t: Token, ghost s: Shape, ghost includes: set<Path>,
      ghost excludes: set<Path>, ghost path: Path)
    returns (ok: bool, states': seq<State>, i: nat, ghost s': Shape)
    requires Compiling(states, s, includes, excludes, cur, path) && Tidy(path + [t])
    ensures ok ==> Compiling(states', s', includes, excludes, i, path + [t]) && s.paths <= s'.paths
    ensures !ok ==> Overfull(s, includes + excludes, path + [t])
  {
    match t {
      case Rune(r) => ok, states', i, s' := GetOrAddRune(states, cur, r, s);
      case Star => ok, states', i, s' := GetOrAddStar(states, cur, s);
      case StarStarSlash => ok, states', i, s' := GetOrAddStarStarSlash(states, cur, s);
    }
    if ok {
      Advanced(states, s, includes, excludes, cur, path, t, states', s', i);
    } else {
      NoneLeft(states, s, includes, excludes, cur, path, t);
    }
  }

  lemma NoneLeft(states: seq<State>, s: Shape, includes: set<Path>, excludes: set<Path>, cur: nat, path: Path, t: Token)
    requires Compiling(states, s, includes, excludes, cur, path) && |states| > STATE_MASK && path + [t] !in s.paths
    ensures Overfull(s, includes + excludes, path + [t])
  {
    assert Distinct(s.paths) by {
      assert Opened(OfNfa);
    }
    assert path + [t] <= path + [t] && path <= path + [t];
  }

  /** The state of addPattern after some runes of the pattern. */
  ghost predicate Building(states: seq<State>, s: Shape, includes: set<Path>, excludes: set<Path>, cur: nat,
      previous: nat, done: seq<Text>, c: Text, scan: Scan) {
    var whole :=
      && Compiling(states, s, includes, excludes, cur, scan.tokens) && Scanned(done, c, scan)
      && previous < |s.paths| && s.paths[previous] == scan.directory;
    whole
  }

  /** Adds the "*" at the end of a component, if there is one. */
  method FinishComponent(states: seq<State>, cur: nat, previous: nat, gotStars: nat, ghost s: Shape,
      ghost includes: set<Path>, ghost excludes: set<Path>, ghost done: seq<Text>, ghost c: Text, ghost scan: Scan)
    returns (ok: bool, states': seq<State>, i: nat, ghost s': Shape)
    requires Building(states, s, includes, excludes, cur, previous, done, c, scan) && gotStars == scan.gotStars < 2
    ensures ok ==> Compiling(states', s', includes, excludes, i, Finished(scan)) && Tidy(Finished(scan))
    ensures ok ==> previous < |s'.paths| && s'.paths[previous] == scan.directory
    ensures !ok ==> Overfull(s, includes + excludes, Finished(scan))
  {
    ScanTidy(done, c, scan);
    if gotStars == 1 {
      ok, states', i, s' := Follow(states, cur, Star, s, includes, excludes, scan.tokens);
    } else {
      assert scan.tokens + [] == scan.tokens;
      ok, states', i, s' := true, states, cur, s;
    }
  }

  /** A regular character. */
  method AddRune(states: seq<State>, cur: nat, previous: nat, gotStars: nat, r: nat, ghost s: Shape,
      ghost includes: set<Path>, ghost excludes: set<Path>, ghost done: seq<Text>, ghost c: Text, ghost scan: Scan)
    returns (ok: bool, states': seq<State>, i: nat, ghost s': Shape)
    requires Building(states, s, includes, excludes, cur, previous, done, c, scan) && gotStars == scan.gotStars < 2
             && r != ASTERISK && r != SLASH
    ensures ok ==>
              Building(states', s', includes, excludes, i, previous, done, c + [r],
              Scan(Finished(scan) + [Rune(r)], scan.directory, true, scan.gotStarStarSlash, 0))
    ensures !ok ==> Overfull(s', includes + excludes, Finished(scan) + [Rune(r)])
  {
    ScanRune(done, c, scan, r);
    ok, states', i, s' := FinishComponent(states, cur, previous, gotStars, s, includes, excludes, done, c, scan);
    if !ok {
      OverfullOn(s, includes + excludes, Finished(scan), includes + excludes, Finished(scan) + [Rune(r)]);
      return false, states, cur, s;
    }
    TidySnoc(Finished(scan), Rune(r));
    ghost var mid := s';
    var cur', finished := i, states';
    ok, states', i, s' := Follow(finished, cur', Rune(r), s', includes, excludes, Finished(scan));
    if !ok {
      return false, finished, cur', mid;
    }
  }

  /** A slash after a component that is not "**". */
  method AddSlash(states: seq<State>, cur: nat, previous: nat, gotStars: nat, gotRunes: bool, ghost s: Shape,
      ghost includes: set<Path>, ghost excludes: set<Path>, ghost done: seq<Text>, ghost c: Text, ghost scan: Scan)
    returns (ok: bool, states': seq<State>, i: nat, previous': nat, ghost s': Shape)
    requires Building(states, s, includes, excludes, cur, previous, done, c, scan) && gotStars == scan.gotStars < 2
             && gotRunes == scan.gotRunes
    requires !(gotStars == 0 && !gotRunes)
    ensures ok ==>
              Building(states', s', includes, excludes, i, previous', done + [c], [],
              Scan(Finished(scan) + [Rune(SLASH)], Finished(scan), false, false, 0))
    ensures !ok ==> Overfull(s', includes + excludes, Finished(scan) + [Rune(SLASH)])
  {
    ScanSlash(done, c, scan);
    ok, states', i, s' := FinishComponent(states, cur, previous, gotStars, s, includes, excludes, done, c, scan);
    previous' := i;
    if !ok {
      OverfullOn(s, includes + excludes, Finished(scan), includes + excludes, Finished(scan) + [Rune(SLASH)]);
      return false, states, cur, previous, s;
    }
    TidySnoc(Finished(scan), Rune(SLASH));
    ghost var mid := s';
    var finished := states';
    ok, states', i, s' := Follow(finished, previous', Rune(SLASH), s', includes, excludes, Finished(scan));
    if !ok {
      return false, finished, previous', previous', mid;
    }
    assert s'.paths[previous'] == mid.paths[previous'];
  }

  /** A slash after "**". */
  method AddDouble(states: seq<State>, cur: nat, previous: nat, ghost s: Shape, ghost includes: set<Path>,
      ghost excludes: set<Path>, ghost done: seq<Text>, ghost c: Text, ghost scan: Scan)
    returns (ok: bool, states': seq<State>, i: nat, ghost s': Shape)
    requires Building(states, s, includes, excludes, cur, previous, done, c, scan) && scan.gotStars == 2
             && !scan.gotStarStarSlash
    ensures ok ==>
              Building(states', s', includes, excludes, i, previous, done + [c], [],
              Scan(scan.tokens + [StarStarSlash], scan.directory, false, true, 0))
    ensures !ok ==> Overfull(s', includes + excludes, scan.tokens + [StarStarSlash])
  {
    ScanSlash(done, c, scan);
    ScanTidy(done, c, scan);
    ok, states', i, s' := Follow(states, cur, StarStarSlash, s, includes, excludes, scan.tokens);
    if !ok {
      return false, states, cur, s;
    }
  }

  ghost function IncludedAll(includes: set<Path>, end: End, ps: set<Path>): set<Path> {
    if end == Positive then includes + ps else includes
  }

  ghost function ExcludedAll(excludes: set<Path>, end: End, ps: set<Path>): set<Path> {
    if end == Negative then excludes + ps else excludes
  }

  /** The end of a pattern that does not end in "**". */
  method EndPlain(states: seq<State>, pattern: Text, end: End, cur: nat, previous: nat, gotStars: nat, ghost s: Shape,
      ghost includes: set<Path>, ghost excludes: set<Path>, ghost done: seq<Text>, ghost c: Text, ghost scan: Scan)
    returns (ok: bool, states': seq<State>, ghost s': Shape)
    requires Building(states, s, includes, excludes, cur, previous, done, c, scan) && gotStars == scan.gotStars < 2
    requires Parts(pattern, done, c) && Accepted(Components(pattern)) && (end.Positive? || end.Negative?)
             && (end == Positive ==> excludes == {})
    ensures ok ==>
              Compiled(states', s', IncludedAll(includes, end, Ends(pattern)),
              ExcludedAll(excludes, end, Ends(pattern)))
    ensures !ok ==> TooMany(includes + excludes + Ends(pattern))
  {
    ScanEnds(pattern, done, c, scan);
    var i;
    ok, states', i, s' := FinishComponent(states, cur, previous, gotStars, s, includes, excludes, done, c, scan);
    if !ok {
      OverfullOn(s, includes + excludes, Finished(scan), includes + excludes + Ends(pattern), Finished(scan));
      OverfullIsTooMany(s, includes + excludes + Ends(pattern), Finished(scan), Finished(scan));
      return false, states, s;
    }
    EndSet(states', s', includes, excludes, i, Finished(scan), i, end);
    states' := states'[i := states'[i].(end := end)];
    PatternAdded(states', s', Included(includes, end, Finished(scan)), Excluded(excludes, end, Finished(scan)), i,
      Finished(scan));
  }

  /** Adds the edges for any file below, and marks the end there. */
  method AddBelow(states: seq<State>, end: End, cur: nat, ghost s: Shape, ghost includes: set<Path>,
      ghost excludes: set<Path>, ghost path: Path)
    returns (ok: bool, states': seq<State>, ghost s': Shape)
    requires Compiling(states, s, includes, excludes, cur, path) && (end.Positive? || end.Negative?)
             && (end == Positive ==> excludes == {})
    requires Tidy(path + [StarStarSlash]) && Tidy(path + [StarStarSlash] + [Star])
    ensures var e := path + [StarStarSlash] + [Star];
            ok ==> Compiled(states', s', Included(includes, end, e), Excluded(excludes, end, e))
    ensures !ok ==> Overfull(s', includes + excludes, path + [StarStarSlash] + [Star])
  {
    ghost var p1, p2 := path + [StarStarSlash], path + [StarStarSlash] + [Star];
    var ok1, states1, i1;
    ghost var s1;
    ok1, states1, i1, s1 := Follow(states, cur, StarStarSlash, s, includes, excludes, path);
    if !ok1 {
      OverfullOn(s, includes + excludes, p1, includes + excludes, p2);
      return false, states, s;
    }
    var i2;
    ok, states', i2, s' := Follow(states1, i1, Star, s1, includes, excludes, p1);
    if !ok {
      return false, states1, s1;
    }
    EndSet(states', s', includes, excludes, i2, p2, i2, end);
    states' := states'[i2 := states'[i2].(end := end)];
    PatternAdded(states', s', Included(includes, end, p2), Excluded(excludes, end, p2), i2, p2);
  }

  /** Marks the directory before a trailing "**", if there is one. */
  method MarkDirectory(states: seq<State>, end: End, cur: nat, previous: nat, ghost s: Shape, ghost includes: set<Path>,
      ghost excludes: set<Path>, ghost path: Path)
    returns (states': seq<State>, ghost includes': set<Path>, ghost excludes': set<Path>)
    requires Compiling(states, s, includes, excludes, cur, path) && (end.Positive? || end.Negative?)
             && (end == Positive ==> excludes == {}) && previous < |states|
    ensures Compiling(states', s, includes', excludes', cur, path) && (end == Positive ==> excludes' == {})
    ensures var ps := if s.paths[previous] != [] then {s.paths[previous]} else {};
            includes' == IncludedAll(includes, end, ps) && excludes' == ExcludedAll(excludes, end, ps)
  {
    RootIsEmpty(states, s, previous);
    states', includes', excludes' := states, includes, excludes;
    if previous > 0 {
      EndSet(states, s, includes, excludes, cur, path, previous, end);
      states' := states'[previous := states'[previous].(end := end)];
      includes', excludes' := Included(includes, end, s.paths[previous]), Excluded(excludes, end, s.paths[previous]);
    }
  }

  /** The end of a pattern that ends in "**": any file below the directory, and the directory itself. */
  method EndDouble(states: seq<State>, pattern: Text, end: End, cur: nat, previous: nat, ghost s: Shape,
      ghost includes: set<Path>, ghost excludes: set<Path>, ghost done: seq<Text>, ghost c: Text, ghost scan: Scan)
    returns (ok: bool, states': seq<State>, ghost s': Shape)
    requires Building(states, s, includes, excludes, cur, previous, done, c, scan) && scan.gotStars == 2
             && !scan.gotStarStarSlash
    requires Parts(pattern, done, c) && Accepted(Components(pattern)) && (end.Positive? || end.Negative?)
             && (end == Positive ==> excludes == {})
    ensures ok ==>
              Compiled(states', s', IncludedAll(includes, end, Ends(pattern)),
              ExcludedAll(excludes, end, Ends(pattern)))
    ensures !ok ==> TooMany(includes + excludes + Ends(pattern))
  {
    ScanEnds(pattern, done, c, scan);
    ScanTidy(done, c, scan);
    var marked;
    ghost var inc, exc;
    marked, inc, exc := MarkDirectory(states, end, cur, previous, s, includes, excludes, scan.tokens);
    ok, states', s' := AddBelow(marked, end, cur, s, inc, exc, scan.tokens);
    ghost var e := scan.tokens + [StarStarSlash] + [Star];
    assert e == scan.tokens + [StarStarSlash, Star];
    BothEnds(includes, excludes, end, scan.directory, e, Ends(pattern), inc, exc);
    if !ok {
      assert inc + exc <= includes + excludes + Ends(pattern);
      OverfullOn(s', inc + exc, e, includes + excludes + Ends(pattern), e);
      OverfullIsTooMany(s', includes + excludes + Ends(pattern), e, e);
    }
  }

  lemma BothEnds(includes: set<Path>, excludes: set<Path>, end: End, directory: Path, e: Path, ends: set<Path>,
      inc: set<Path>, exc: set<Path>)
    requires ends == {e} + if directory != [] then {directory} else {}
    requires var ps := if directory != [] then {directory} else {};
             inc == IncludedAll(includes, end, ps) && exc == ExcludedAll(excludes, end, ps)
    ensures Included(inc, end, e) == IncludedAll(includes, end, ends)
            && Excluded(exc, end, e) == ExcludedAll(excludes, end, ends)
  {
  }

  lemma RootIsEmpty(states: seq<State>, s: Shape, i: nat)
    requires Nfa(states, s) && i < |states|
    ensures s.paths[i] == [] <==> i == 0
  {
    assert Opened(OfNfa);
  }

  /** The variables of addPattern's loop. */
  datatype Cursor = Cursor(cur: nat, previous: nat, gotRunes: bool, gotStarStarSlash: bool, gotStars: nat)

  ghost predicate At(states: seq<State>, s: Shape, includes: set<Path>, excludes: set<Path>, k: Cursor, done: seq<Text>,
      c: Text, scan: Scan) {
    && Building(states, s, includes, excludes, k.cur, k.previous, done, c, scan)
    && k.gotRunes == scan.gotRunes && k.gotStarStarSlash == scan.gotStarStarSlash && k.gotStars == scan.gotStars
  }

  /** One rune of the pattern. */
  method AddNext(states: seq<State>, k: Cursor, r: nat, ghost s: Shape, ghost includes: set<Path>,
      ghost excludes: set<Path>, ghost done: seq<Text>, ghost c: Text, ghost scan: Scan)
    returns (o: Outcome, states': seq<State>, k': Cursor, ghost s': Shape, ghost scan': Scan)
    requires At(states, s, includes, excludes, k, done, c, scan)
    ensures o.Added? ==> if r == SLASH then At(states', s', includes, excludes, k', done + [c], [], scan')
                         else At(states', s', includes, excludes, k', done, c + [r], scan')
    ensures o.Invalid? ==> if r == SLASH then Spoilt(done + [c], []) else Spoilt(done, c + [r])
    ensures o.TooManyStates? ==>
              r != ASTERISK && (r != SLASH ==> k.gotStars < 2) && Overfull(s', includes + excludes, Reaching(scan, r))
  {
    states', k', s', scan' := states, k, s, scan;
    var ok, i;
    if r == ASTERISK {
      ScanAsterisk(done, c, scan);
      if k.gotStars == 2 || (k.gotStars == 1 && k.gotRunes) {
        return Invalid, states', k', s', scan';
      }
      k', scan' := k.(gotStars := k.gotStars + 1), scan.(gotStars := scan.gotStars + 1);
    } else if r == SLASH {
      ScanSlash(done, c, scan);
      if k.gotStars == 2 {
        if k.gotStarStarSlash {
          return Invalid, states', k', s', scan';
        }
        ok, states', i, s' := AddDouble(states, k.cur, k.previous, s, includes, excludes, done, c, scan);
        k', scan' := Cursor(i, k.previous, false, true, 0),
          Scan(scan.tokens + [StarStarSlash], scan.directory, false, true, 0);
      } else {
        if k.gotStars == 0 && !k.gotRunes {
          return Invalid, states', k', s', scan';
        }
        var previous;
        ok, states', i, previous, s' :=
          AddSlash(states, k.cur, k.previous, k.gotStars, k.gotRunes, s, includes, excludes, done, c, scan);
        k', scan' := Cursor(i, previous, false, false, 0),
          Scan(Finished(scan) + [Rune(SLASH)], Finished(scan), false, false, 0);
      }
      if !ok {
        return TooManyStates, states', k', s', scan';
      }
    } else {
      ScanRune(done, c, scan, r);
      if k.gotStars == 2 {
        return Invalid, states', k', s', scan';
      }
      ok, states', i, s' := AddRune(states, k.cur, k.previous, k.gotStars, r, s, includes, excludes, done, c, scan);
      k', scan' := Cursor(i, k.previous, true, k.gotStarStarSlash, 0),
        Scan(Finished(scan) + [Rune(r)], scan.directory, true, scan.gotStarStarSlash, 0);
      if !ok {
        return TooManyStates, states', k', s', scan';
      }
    }
    o := Added;
  }

  /** Where the loop is after the first n runes of the pattern; kept folded. */
  ghost predicate AtRune(pattern: Text, n: nat, states: seq<State>, s: Shape, includes: set<Path>, excludes: set<Path>,
      k: Cursor, done: seq<Text>, c: Text, scan: Scan) {
    && n <= |pattern|
    && var folded := forall f: Fold {:trigger Opened(f)} :: Opened(f) && f == OfPatterns ==>
         Parts(pattern[..n], done, c) && At(states, s, includes, excludes, k, done, c, scan);
       folded
  }

  /** One round of the loop over the pattern. */
  method AddNth(pattern: Text, n: nat, states: seq<State>, k: Cursor, ghost s: Shape, ghost includes: set<Path>,
      ghost excludes: set<Path>, ghost done: seq<Text>, ghost c: Text, ghost scan: Scan)
    returns (o: Outcome, states': seq<State>, k': Cursor, ghost s': Shape, ghost done': seq<Text>, ghost c': Text,
      ghost scan': Scan)
    requires n < |pattern| && AtRune(pattern, n, states, s, includes, excludes, k, done, c, scan)
    ensures o.Added? ==> AtRune(pattern, n + 1, states', s', includes, excludes, k', done', c', scan')
    ensures o.Invalid? ==> !Accepted(Components(pattern))
    ensures o.TooManyStates? ==> TooMany(includes + excludes + Ends(pattern))
  {
    AtParts(pattern, n, states, s, includes, excludes, k, done, c, scan);
    var r := pattern[n];
    o, states', k', s', scan' := AddNext(states, k, r, s, includes, excludes, done, c, scan);
    done', c' := if r == SLASH then done + [c] else done, if r == SLASH then [] else c + [r];
    if o.Invalid? {
      NextParts(pattern, n, done, c, done', c');
      SpoiltForGood(pattern, n + 1, done', c');
    } else if o.TooManyStates? {
      NthTooMany(pattern, n, done, c, scan, s', includes + excludes);
    } else {
      NextParts(pattern, n, done, c, done', c');
      AtFrom(pattern, n + 1, states', s', includes, excludes, k', done', c', scan');
    }
  }

  lemma NextParts(pattern: Text, n: nat, done: seq<Text>, c: Text, done': seq<Text>, c': Text)
    requires n < |pattern| && Parts(pattern[..n], done, c)
    requires done' == (if pattern[n] == SLASH then done + [c] else done)
             && c' == if pattern[n] == SLASH then [] else c + [pattern[n]]
    ensures Parts(pattern[..n + 1], done', c')
  {
    PartsSnoc(pattern[..n], done, c, pattern[n]);
    assert pattern[..n] + [pattern[n]] == pattern[..n + 1];
  }

  lemma NthTooMany(pattern: Text, n: nat, done: seq<Text>, c: Text, scan: Scan, s: Shape, ends: set<Path>)
    requires n < |pattern| && Parts(pattern[..n], done, c) && Scanned(done, c, scan)
    requires pattern[n] != ASTERISK && (pattern[n] != SLASH ==> scan.gotStars < 2)
    requires Overfull(s, ends, Reaching(scan, pattern[n]))
    ensures TooMany(ends + Ends(pattern))
  {
    ReachingStarts(pattern, n, done, c, scan);
    MidTooMany(s, ends, pattern, Reaching(scan, pattern[n]));
  }

  lemma AtParts(pattern: Text, n: nat, states: seq<State>, s: Shape, includes: set<Path>, excludes: set<Path>,
      k: Cursor, done: seq<Text>, c: Text, scan: Scan)
    requires AtRune(pattern, n, states, s, includes, excludes, k, done, c, scan)
    ensures Parts(pattern[..n], done, c) && At(states, s, includes, excludes, k, done, c, scan)
  {
    assert Opened(OfPatterns);
  }

  lemma AtFrom(pattern: Text, n: nat, states: seq<State>, s: Shape, includes: set<Path>, excludes: set<Path>,
      k: Cursor, done: seq<Text>, c: Text, scan: Scan)
    requires n <= |pattern| && Parts(pattern[..n], done, c) && At(states, s, includes, excludes, k, done, c, scan)
    ensures AtRune(pattern, n, states, s, includes, excludes, k, done, c, scan)
  {
  }

  lemma MidTooMany(s: Shape, ends: set<Path>, pattern: Text, q: Path)
    requires Overfull(s, ends, q) && q <= Tokens(Components(pattern))
    ensures TooMany(ends + Ends(pattern))
  {
    var e := Tokens(Components(pattern));
    assert e in Ends(pattern);
    OverfullOn(s, ends, q, ends + Ends(pattern), q);
    OverfullIsTooMany(s, ends + Ends(pattern), q, e);
  }

  /** What follows the loop. */
  method EndPattern(pattern: Text, end: End, states: seq<State>, k: Cursor, ghost s: Shape, ghost includes: set<Path>,
      ghost excludes: set<Path>, ghost done: seq<Text>, ghost c: Text, ghost scan: Scan)
    returns (o: Outcome, states': seq<State>, ghost s': Shape)
    requires At(states, s, includes, excludes, k, done, c, scan) && Parts(pattern, done, c)
    requires (end.Positive? || end.Negative?) && (end == Positive ==> excludes == {})
    ensures o.Added? ==> Accepted(Components(pattern))
    ensures o.Added? ==>
              Compiled(states', s', IncludedAll(includes, end, Ends(pattern)),
              ExcludedAll(excludes, end, Ends(pattern)))
    ensures o.Invalid? ==> !Accepted(Components(pattern))
    ensures o.TooManyStates? ==> TooMany(includes + excludes + Ends(pattern))
  {
    ScanEnds(pattern, done, c, scan);
    states', s' := states, s;
    var ok;
    if k.gotStars == 2 {
      if k.gotStarStarSlash {
        return Invalid, states', s';
      }
      ok, states', s' := EndDouble(states', pattern, end, k.cur, k.previous, s', includes, excludes, done, c, scan);
    } else {
      if k.gotStars == 0 && !k.gotRunes {
        return Invalid, states', s';
      }
      ok, states', s' := EndPlain(states', pattern, end, k.cur, k.previous, k.gotStars, s', includes, excludes, done, c,
        scan);
    }
    o := if ok then Added else TooManyStates;
  }

  lemma AtStart(pattern: Text, states: seq<State>, s: Shape, includes: set<Path>, excludes: set<Path>)
    requires Compiled(states, s, includes, excludes)
    ensures AtRune(pattern, 0, states, s, includes, excludes, Cursor(0, 0, false, false, 0), [], [],
            Scan([], [], false, false, 0))
  {
    StartCompiling(states, s, includes, excludes);
    ScanStarts();
    assert pattern[..0] == [];
  }

  lemma AtEnd(pattern: Text, states: seq<State>, s: Shape, includes: set<Path>, excludes: set<Path>, k: Cursor,
      done: seq<Text>, c: Text, scan: Scan)
    requires AtRune(pattern, |pattern|, states, s, includes, excludes, k, done, c, scan)
    ensures At(states, s, includes, excludes, k, done, c, scan) && Parts(pattern, done, c)
  {
    assert Opened(OfPatterns);
    assert pattern[..|pattern|] == pattern;
  }

  /** addPattern: adds a pattern to the automaton. */
  method AddPattern(states: seq<State>, pattern: Text, end: End, ghost s: Shape, ghost includes: set<Path>,
      ghost excludes: set<Path>)
    returns (o: Outcome, states': seq<State>, ghost s': Shape)
    requires Compiled(states, s, includes, excludes) && (end.Positive? || end.Negative?)
             && (end == Positive ==> excludes == {})
    ensures o.Added? ==> Accepted(Components(pattern))
    ensures o.Added? ==>
              Compiled(states', s', IncludedAll(includes, end, Ends(pattern)),
              ExcludedAll(excludes, end, Ends(pattern)))
    ensures o.Invalid? ==> !Accepted(Components(pattern))
    ensures o.TooManyStates? ==> TooMany(includes + excludes + Ends(pattern))
  {
    AtStart(pattern, states, s, includes, excludes);
    var k := Cursor(0, 0, false, false, 0);
    ghost var done: seq<Text>, c: Text, scan := [], [], Scan([], [], false, false, 0);
    states', s' := states, s;
    for n := 0 to |pattern|
      invariant AtRune(pattern, n, states', s', includes, excludes, k, done, c, scan)
    {
      o, states', k, s', done, c, scan := AddNth(pattern, n, states', k, s', includes, excludes, done, c, scan);
      if !o.Added? {
        return;
      }
    }
    AtEnd(pattern, states', s', includes, excludes, k, done, c, scan);
    o, states', s' := EndPattern(pattern, end, states', k, s', includes, excludes, done, c, scan);
  }
}
