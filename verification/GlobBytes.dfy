/** The bytes of compiled patterns: they depend on the patterns alone, and are read back as an automaton that
    selects the same paths. */
module GlobBytes {
  import opened Arithmetic
  import opened Folding
  import opened GlobPattern
  import opened GlobStates
  import opened GlobCompile
  import opened GlobNfa
  import opened GlobMatching
  import opened GlobOrder
  import opened GlobSerial
  import opened GlobParse
  import opened GlobRoundTrip
  import opened Utf8

  // ---- The content of compiled patterns ----

  /** The paths on the way to the ends, and which of them are ends. */
  ghost predicate Describes(m: Content, includes: set<Path>, excludes: set<Path>) {
    forall p :: (p in m <==> OnTheWay(includes + excludes, p)) && (p in m ==> m[p] == EndOf(includes, excludes, p))
  }

  lemma OneContent(m: Content, m': Content, includes: set<Path>, excludes: set<Path>)
    requires Describes(m, includes, excludes) && Describes(m', includes, excludes)
    ensures m == m'
  {
    assert forall p :: p in m <==> p in m';
  }

  lemma PathsOnTheWay(states: seq<State>, s: Shape, includes: set<Path>, excludes: set<Path>, p: Path)
    requires NfaOf(states, s, includes, excludes)
    ensures p in s.paths <==> OnTheWay(includes + excludes, p)
  {
    if p == [] {
      assert Opened(OfNfa);
    } else if OnTheWay(includes + excludes, p) {
      var e :| e in includes + excludes && p <= e;
      var j :| 0 <= j < |s.paths| && s.paths[j] == e;
      var i := PrefixKnown(states, s, j, p);
    }
  }

  lemma ContentOf(states: seq<State>, s: Shape, includes: set<Path>, excludes: set<Path>) returns (m: Content)
    requires NfaOf(states, s, includes, excludes)
    ensures Contains(states, s, m) && Describes(m, includes, excludes)
  {
    m := map p | p in s.paths :: EndOf(includes, excludes, p);
    forall p ensures p in s.paths <==> OnTheWay(includes + excludes, p) {
      PathsOnTheWay(states, s, includes, excludes, p);
    }
  }

  /** An automaton with this content is that of the patterns. */
  lemma ContentGives(states: seq<State>, s: Shape, m: Content, includes: set<Path>, excludes: set<Path>)
    requires Contains(states, s, m) && Describes(m, includes, excludes) && Marked(states, s.paths, 0)
    requires forall p :: OnTheWay(includes + excludes, p) ==> Tidy(p)
    ensures NfaOf(states, s, includes, excludes)
  {
    assert Opened(OfContent);
    forall e | e in includes + excludes ensures e in s.paths {
      assert OnTheWay(includes + excludes, e);
    }
  }

  /** Lists with the same patterns have the same ends. */
  lemma SameEnds(a: seq<Text>, b: seq<Text>)
    requires forall p :: p in a <==> p in b
    ensures EndsOfAll(a) == EndsOfAll(b)
  {
    forall e ensures e in EndsOfAll(a) <==> e in EndsOfAll(b) {
      EndIn(a, b, e);
      EndIn(b, a, e);
    }
  }

  lemma EndIn(a: seq<Text>, b: seq<Text>, e: Path)
    requires forall p :: p in a ==> p in b
    ensures e in EndsOfAll(a) ==> e in EndsOfAll(b)
  {
    if e in EndsOfAll(a) {
      var k :| 0 <= k < |a| && e in Ends(a[k]);
      assert a[k] in b;
      var l :| 0 <= l < |b| && b[l] == a[k];
      assert e in Ends(b[l]);
    }
  }

  lemma SameAccepted(a: seq<Text>, b: seq<Text>)
    requires forall p :: p in a <==> p in b
    ensures AllAccepted(a) <==> AllAccepted(b)
  {
    AcceptedIn(a, b);
    AcceptedIn(b, a);
  }

  lemma AcceptedIn(a: seq<Text>, b: seq<Text>)
    requires forall p :: p in a ==> p in b
    ensures AllAccepted(b) ==> AllAccepted(a)
  {
    if AllAccepted(b) {
      forall k | 0 <= k < |a| ensures IsAccepted(a[k]) {
        assert a[k] in b;
        var l :| 0 <= l < |b| && b[l] == a[k];
      }
    }
  }

  /** The bytes of compiled patterns. */
  method CompiledBytes(includes: seq<Text>, excludes: seq<Text>) returns (o: Outcome, b: seq<byte>, ghost m: Content)
    ensures o.Added? <==> Compilable(includes, excludes)
    ensures o.Added? ==> Describes(m, EndsOfAll(includes), EndsOfAll(excludes)) && Small(m) && b == Serialized(m)
  {
    var states;
    ghost var s;
    o, states, s := NewNFAFromPatterns(includes, excludes);
    b, m := [], map[];
    if o.Added? {
      m := ContentOf(states, s, EndsOfAll(includes), EndsOfAll(excludes));
      b := Bytes(states, s, m);
    }
  }

  /** Compiling the same patterns in another order succeeds as well, and gives the same bytes. */
  method Reordered(includes: seq<Text>, excludes: seq<Text>, includes': seq<Text>, excludes': seq<Text>)
    returns (o: Outcome, o': Outcome, b: seq<byte>, b': seq<byte>)
    requires (forall p :: p in includes <==> p in includes') && (forall p :: p in excludes <==> p in excludes')
    ensures o.Added? <==> o'.Added?
    ensures o.Added? ==> b == b'
  {
    ghost var m, m';
    o, b, m := CompiledBytes(includes, excludes);
    o', b', m' := CompiledBytes(includes', excludes');
    SameEnds(includes, includes');
    SameEnds(excludes, excludes');
    SameAccepted(includes, includes');
    SameAccepted(excludes, excludes');
    if o.Added? {
      OneContent(m, m', EndsOfAll(includes), EndsOfAll(excludes));
    }
  }

  // ---- The runes of patterns and of paths ----

  ghost predicate InAny(cs: seq<Text>, r: nat) {
    exists k :: 0 <= k < |cs| && r in cs[k]
  }

  /** The runes other than the slash are spread over the components. */
  lemma {:induction false} ComponentRunes(p: Text, r: nat)
    requires r != SLASH
    ensures InAny(Components(p), r) <==> r in p
  {
    if p == [] {
      assert Components(p)[0] == [];
    } else {
      var n := |p| - 1;
      var cs := Components(p[..n]);
      ComponentRunes(p[..n], r);
      assert p == p[..n] + [p[n]];
      LastComponent(cs, p[n], r);
    }
  }

  lemma LastComponent(cs: seq<Text>, x: nat, r: nat)
    requires cs != [] && r != SLASH
    ensures InAny(cs + [[]], r) <==> InAny(cs, r)
    ensures InAny(cs[..|cs| - 1] + [cs[|cs| - 1] + [x]], r) <==> InAny(cs, r) || r == x
  {
    var n := |cs| - 1;
    var more, last := cs + [[]], cs[..n] + [cs[n] + [x]];
    assert more[n + 1] == [] && forall k :: 0 <= k <= n ==> more[k] == cs[k];
    assert last[n] == cs[n] + [x] && forall k :: 0 <= k < n ==> last[k] == cs[k];
    if InAny(cs, r) {
      var k :| 0 <= k < |cs| && r in cs[k];
      assert r in more[k] && r in last[k];
    }
    if r == x {
      assert r in last[n];
    }
  }

  lemma {:induction false} LiteralRunes(c: Text, r: nat)
    requires r != ASTERISK
    ensures Rune(r) in Literal(c) <==> r in c
  {
    if c != [] {
      var n := |c| - 1;
      assert c == c[..n] + [c[n]];
      LiteralRunes(c[..n], r);
    }
  }

  lemma {:induction false} LeadRunes(cs: seq<Text>, r: nat)
    requires r != ASTERISK && r != SLASH
    ensures Rune(r) in Lead(cs) <==> InAny(cs, r)
  {
    if cs != [] {
      var n := |cs| - 1;
      LeadRunes(cs[..n], r);
      LiteralRunes(cs[n], r);
      AnySnoc(cs, r);
      assert r !in DOUBLE;
    }
  }

  lemma AnySnoc(cs: seq<Text>, r: nat)
    requires cs != []
    ensures InAny(cs, r) <==> InAny(cs[..|cs| - 1], r) || r in cs[|cs| - 1]
  {
    var front := cs[..|cs| - 1];
    if InAny(front, r) {
      var k :| 0 <= k < |front| && r in front[k];
      assert r in cs[k];
    }
    if InAny(cs, r) {
      var k :| 0 <= k < |cs| && r in cs[k];
      assert k < |front| ==> r in front[k];
    }
  }

  lemma TokenRunes(cs: seq<Text>, r: nat)
    requires cs != [] && r != ASTERISK && r != SLASH
    ensures Rune(r) in Tokens(cs) <==> InAny(cs, r)
  {
    var n := |cs| - 1;
    LeadRunes(cs[..n], r);
    LiteralRunes(cs[n], r);
    AnySnoc(cs, r);
    assert r !in DOUBLE;
  }

  /** A regular character of a pattern is one of its ends' paths, and the other way around. */
  lemma EndRunes(pattern: Text, r: nat)
    requires r != ASTERISK && r != SLASH
    ensures r in pattern <==> exists e :: e in Ends(pattern) && Rune(r) in e
  {
    var cs := Components(pattern);
    ComponentRunes(pattern, r);
    TokenRunes(cs, r);
    assert Tokens(cs) in Ends(pattern);
    if HasDirectory(cs) {
      TokenRunes(cs[..|cs| - 1], r);
      AnySnoc(cs, r);
    }
  }

  ghost predicate InPatterns(patterns: seq<Text>, r: nat) {
    exists k :: 0 <= k < |patterns| && r in patterns[k]
  }

  lemma PatternRunes(patterns: seq<Text>, r: nat)
    requires r != ASTERISK && r != SLASH
    ensures InPatterns(patterns, r) <==> exists e :: e in EndsOfAll(patterns) && Rune(r) in e
  {
    if InPatterns(patterns, r) {
      var k :| 0 <= k < |patterns| && r in patterns[k];
      EndRunes(patterns[k], r);
      var e :| e in Ends(patterns[k]) && Rune(r) in e;
      assert e in EndsOfAll(patterns);
    }
    if exists e :: e in EndsOfAll(patterns) && Rune(r) in e {
      var e :| e in EndsOfAll(patterns) && Rune(r) in e;
      var k :| 0 <= k < |patterns| && e in Ends(patterns[k]);
      EndRunes(patterns[k], r);
    }
  }

  lemma ContentRunes(m: Content, includes: set<Path>, excludes: set<Path>, r: nat)
    requires Describes(m, includes, excludes)
    ensures (exists p :: p + [Rune(r)] in m) <==> exists e :: e in includes + excludes && Rune(r) in e
  {
    var ends := includes + excludes;
    if exists p :: p + [Rune(r)] in m {
      var p :| p + [Rune(r)] in m;
      var q := p + [Rune(r)];
      assert OnTheWay(ends, q);
      var e :| e in ends && q <= e;
      assert e[|p|] == Rune(r);
    }
    if exists e :: e in ends && Rune(r) in e {
      var e :| e in ends && Rune(r) in e;
      var k :| 0 <= k < |e| && e[k] == Rune(r);
      assert e[..k] + [Rune(r)] == e[..k + 1] <= e;
      assert OnTheWay(ends, e[..k] + [Rune(r)]);
    }
  }

  /** A regular character is on some path of the automaton exactly when it is in some pattern. */
  lemma RunesOfPatterns(m: Content, includes: seq<Text>, excludes: seq<Text>, r: nat)
    requires Describes(m, EndsOfAll(includes), EndsOfAll(excludes)) && r != ASTERISK && r != SLASH
    ensures (exists p :: p + [Rune(r)] in m) <==> InPatterns(includes, r) || InPatterns(excludes, r)
  {
    ContentRunes(m, EndsOfAll(includes), EndsOfAll(excludes), r);
    PatternRunes(includes, r);
    PatternRunes(excludes, r);
  }

  /** The patterns are texts, decoded from strings. */
  ghost predicate AreTexts(patterns: seq<Text>) {
    forall r :: InPatterns(patterns, r) ==> ValidRune(r)
  }

  /** Some pattern holds U+FFFD, which is also what invalid UTF-8 is decoded as. */
  ghost predicate HasErrorRune(includes: seq<Text>, excludes: seq<Text>) {
    InPatterns(includes, RUNE_ERROR) || InPatterns(excludes, RUNE_ERROR)
  }

  lemma TextRunes(m: Content, includes: seq<Text>, excludes: seq<Text>)
    requires Describes(m, EndsOfAll(includes), EndsOfAll(excludes)) && AreTexts(includes) && AreTexts(excludes)
    ensures RunesValid(m) && (NoErrorRune(m) <==> !HasErrorRune(includes, excludes))
  {
    RunesOfPatterns(m, includes, excludes, RUNE_ERROR);
    forall p, r | p + [Rune(r)] in m ensures ValidRune(r) {
      if r != ASTERISK && r != SLASH {
        RunesOfPatterns(m, includes, excludes, r);
      }
    }
  }

  // ---- There and back ----

  lemma TidyOnTheWay(states: seq<State>, s: Shape, includes: set<Path>, excludes: set<Path>)
    requires NfaOf(states, s, includes, excludes)
    ensures forall p :: OnTheWay(includes + excludes, p) ==> Tidy(p)
  {
    forall p | OnTheWay(includes + excludes, p) ensures Tidy(p) {
      PathsOnTheWay(states, s, includes, excludes, p);
    }
  }

  /** Writes an automaton of patterns and reads it back. Within the size limit this fails exactly when some pattern
      holds U+FFFD; otherwise it gives the automaton of the same patterns, with the same bytes. */
  method RoundTrip(states: seq<State>, ghost s: Shape, ghost includes: seq<Text>, ghost excludes: seq<Text>)
    returns (b: seq<byte>, o: Parsed, ghost s': Shape, again: seq<byte>)
    requires NfaOf(states, s, EndsOfAll(includes), EndsOfAll(excludes)) && AreTexts(includes) && AreTexts(excludes)
    ensures |b| > STATE_MASK ==> o == Failed(TooLong)
    ensures |b| <= STATE_MASK ==> if HasErrorRune(includes, excludes) then o == Failed(InvalidRune) else o.Parsed?
    ensures o.Parsed? ==> NfaOf(o.states, s', EndsOfAll(includes), EndsOfAll(excludes)) && again == b
    ensures |b| <= STATE_MASK <==> Short(includes, excludes)
  {
    ghost var m := ContentOf(states, s, EndsOfAll(includes), EndsOfAll(excludes));
    TextRunes(m, includes, excludes);
    TidyOnTheWay(states, s, EndsOfAll(includes), EndsOfAll(excludes));
    b := Bytes(states, s, m);
    ShortIs(m, includes, excludes);
    o, s' := NewNFAFromBytes(b, m);
    again := [];
    if o.Parsed? {
      ContentGives(o.states, s', m, EndsOfAll(includes), EndsOfAll(excludes));
      again := Bytes(o.states, s', m);
    }
  }

  /** The bytes of the patterns are within the size limit. */
  ghost predicate Short(includes: seq<Text>, excludes: seq<Text>) {
    forall m :: Describes(m, EndsOfAll(includes), EndsOfAll(excludes)) ==> |Serialized(m)| <= STATE_MASK
  }

  lemma ShortIs(m: Content, includes: seq<Text>, excludes: seq<Text>)
    requires Describes(m, EndsOfAll(includes), EndsOfAll(excludes))
    ensures Short(includes, excludes) <==> |Serialized(m)| <= STATE_MASK
  {
    forall n | Describes(n, EndsOfAll(includes), EndsOfAll(excludes)) ensures n == m {
      OneContent(n, m, EndsOfAll(includes), EndsOfAll(excludes));
    }
  }

  /** They are whenever the patterns need no more than a fourteenth of the states that can be numbered. */
  lemma FewAreShort(includes: seq<Text>, excludes: seq<Text>)
    requires 14 * |StartsOf(EndsOfAll(includes) + EndsOfAll(excludes))| <= STATE_MASK
    ensures Short(includes, excludes)
  {
    var inc, exc := EndsOfAll(includes), EndsOfAll(excludes);
    forall m | Describes(m, inc, exc) ensures |Serialized(m)| <= STATE_MASK {
      forall p ensures p in m.Keys <==> p in StartsOf(inc + exc) {
        InStarts(inc + exc, p);
      }
      assert m.Keys == StartsOf(inc + exc);
      assert OnTheWay(inc + exc, []);
      SerializedSize(m);
    }
  }

  /** What survives being written and read back. */
  ghost predicate Storable(includes: seq<Text>, excludes: seq<Text>) {
    Compilable(includes, excludes) && Short(includes, excludes) && !HasErrorRune(includes, excludes)
  }

  /** Matching a path against patterns that were compiled, written and read back. */
  method MatchStored(includes: seq<Text>, excludes: seq<Text>, path: Text) returns (stored: bool, matches: bool)
    requires AreTexts(includes) && AreTexts(excludes)
    ensures stored <==> Storable(includes, excludes)
    ensures matches <==> stored && Selects(includes, excludes, path)
  {
    var compiled, states;
    ghost var s;
    compiled, states, s := NewNFAFromPatterns(includes, excludes);
    if !compiled.Added? {
      return false, false;
    }
    var b, o, again;
    ghost var s';
    b, o, s', again := RoundTrip(states, s, includes, excludes);
    if o.Failed? {
      return false, false;
    }
    stored := true;
    matches := Run(o.states, s', includes, excludes, path);
  }

  // ---- The departure is real ----

  const ERROR_PATTERN: Text := [RUNE_ERROR]

  lemma ErrorPatternEnds()
    ensures EndsOfAll([ERROR_PATTERN]) == {[Rune(RUNE_ERROR)]} && EndsOfAll([]) == {} && AllAccepted([ERROR_PATTERN])
  {
    var p := ERROR_PATTERN;
    OneRune(p, RUNE_ERROR);
    OneRuneEnds(p, RUNE_ERROR);
    AcceptedIs(p);
  }

  /** A pattern of one rune that is not special has one component. */
  lemma OneRune(p: Text, r: nat)
    requires p == [r] && r != SLASH && r != ASTERISK
    ensures Components(p) == [p] && Accepted(Components(p)) && Literal(p) == [Rune(r)]
  {
    OneComponent(p);
    OneLiteral(p, r);
  }

  lemma OneComponent(p: Text)
    requires |p| == 1 && p[0] != SLASH
    ensures Components(p) == [p]
  {
    var before := Components(p[..0]);
    assert before == [[]];
    assert before[0] + [p[0]] == p;
  }

  lemma OneLiteral(p: Text, r: nat)
    requires |p| == 1 && p[0] == r != ASTERISK
    ensures Literal(p) == [Rune(r)]
  {
    assert Literal(p[..0]) == [];
  }

  lemma OneRuneEnds(p: Text, r: nat)
    requires p == [r] && Components(p) == [p] && Literal(p) == [Rune(r)]
    ensures Ends(p) == {[Rune(r)]}
  {
    var ps: seq<Text> := [p];
    assert ps[..0] == [] && ps[0] == p && |p| != |DOUBLE|;
    assert Tokens(ps) == Literal(p);
  }

  lemma ErrorPatternStarts()
    ensures var e: Path := [Rune(RUNE_ERROR)]; |StartsOf({e})| <= 2
  {
    var e: Path := [Rune(RUNE_ERROR)];
    forall p | p in StartsOf({e}) ensures p in {[], e} {
      InStarts({e}, p);
      assert if |p| == 0 then p == [] else p == e;
    }
    SubsetOf(StartsOf({e}), {[], e});
  }

  /** A pattern of one U+FFFD compiles, and its bytes are refused. */
  method ErrorPatternIsRefused() returns (compiled: Outcome, o: Parsed)
    ensures compiled == Added && o == Failed(InvalidRune)
  {
    ErrorPatternEnds();
    ErrorPatternStarts();
    var includes: seq<Text>, excludes: seq<Text> := [ERROR_PATTERN], [];
    assert EndsOfAll(includes) + EndsOfAll(excludes) == {[Rune(RUNE_ERROR)]};
    FewAreShort(includes, excludes);
    assert RUNE_ERROR in includes[0];
    var states, b, again;
    ghost var s, s';
    compiled, states, s := NewNFAFromPatterns(includes, excludes);
    b, o, s', again := RoundTrip(states, s, includes, excludes);
  }
}
