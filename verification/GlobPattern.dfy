/** Glob patterns: what they mean, component by component, and the tokens they stand for. */
module GlobPattern {
  /** A rune, as its code point. */
  type Text = seq<nat>

  const ASTERISK: nat := 42
  const SLASH: nat := 47

  /** An edge of the automaton: a regular character, "*" or "**" followed by a slash. */
  datatype Token = Rune(r: nat) | Star | StarStarSlash

  type Path = seq<Token>

  /** The texts a token stands for: itself, any run without slashes, or nothing and any text that ends in a slash. */
  ghost predicate TokenMatches(t: Token, v: Text) {
    match t
    case Rune(r) => v == [r]
    case Star => SLASH !in v
    case StarStarSlash => v == [] || v[|v| - 1] == SLASH
  }

  /** The text is made of a text for each token, in order. */
  ghost predicate Denotes(path: Path, w: Text)
    decreases |path|
  {
    if path == [] then w == []
    else
      var n := |path| - 1;
      exists k :: 0 <= k <= |w| && Denotes(path[..n], w[..k]) && TokenMatches(path[n], w[k..])
  }

  /** Some start of the text is denoted. */
  ghost predicate Reached(path: Path, w: Text) {
    exists k :: 0 <= k <= |w| && Denotes(path, w[..k])
  }

  lemma DenotesSnoc(p: Path, t: Token, w: Text)
    ensures Denotes(p + [t], w) <==> exists k :: 0 <= k <= |w| && Denotes(p, w[..k]) && TokenMatches(t, w[k..])
  {
    assert (p + [t])[..|p|] == p;
  }

  // ---- Reading one more rune ----

  lemma RuneStep(p: Path, r: nat, w: Text, c: nat)
    ensures Denotes(p + [Rune(r)], w + [c]) <==> Denotes(p, w) && c == r
  {
    var u := w + [c];
    DenotesSnoc(p, Rune(r), u);
    assert u[..|w|] == w && u[|w|..] == [c];
    if Denotes(p + [Rune(r)], u) {
      var k :| 0 <= k <= |u| && Denotes(p, u[..k]) && TokenMatches(Rune(r), u[k..]);
      assert |u[k..]| == 1;
    }
  }

  lemma StarStep(p: Path, w: Text, c: nat)
    ensures Denotes(p + [Star], w + [c]) <==> Denotes(p, w + [c]) || (c != SLASH && Denotes(p + [Star], w))
  {
    var u := w + [c];
    DenotesSnoc(p, Star, u);
    DenotesSnoc(p, Star, w);
    if Denotes(p + [Star], u) {
      var k :| 0 <= k <= |u| && Denotes(p, u[..k]) && TokenMatches(Star, u[k..]);
      if k == |u| {
        assert u[..k] == u;
      } else {
        assert u[..k] == w[..k] && u[k..] == w[k..] + [c];
      }
    }
    if Denotes(p, u) {
      assert u[..|u|] == u && u[|u|..] == [];
    }
    if c != SLASH && Denotes(p + [Star], w) {
      var k :| 0 <= k <= |w| && Denotes(p, w[..k]) && TokenMatches(Star, w[k..]);
      assert u[..k] == w[..k] && u[k..] == w[k..] + [c];
    }
  }

  lemma StarStarSlashStep(p: Path, w: Text, c: nat)
    ensures Denotes(p + [StarStarSlash], w + [c]) <==> Denotes(p, w + [c]) || (c == SLASH && Reached(p, w))
  {
    var u := w + [c];
    DenotesSnoc(p, StarStarSlash, u);
    if Denotes(p + [StarStarSlash], u) {
      var k :| 0 <= k <= |u| && Denotes(p, u[..k]) && TokenMatches(StarStarSlash, u[k..]);
      if k == |u| {
        assert u[..k] == u;
      } else {
        assert u[..k] == w[..k] && u[k..][|u| - k - 1] == c;
      }
    }
    if Denotes(p, u) {
      assert u[..|u|] == u && u[|u|..] == [];
    }
    if c == SLASH && Reached(p, w) {
      var k :| 0 <= k <= |w| && Denotes(p, w[..k]);
      assert u[..k] == w[..k] && u[k..][|u| - k - 1] == c;
    }
  }

  lemma ReachedStep(p: Path, w: Text, c: nat)
    ensures Reached(p, w + [c]) <==> Reached(p, w) || Denotes(p, w + [c])
  {
    var u := w + [c];
    if Reached(p, u) {
      var k :| 0 <= k <= |u| && Denotes(p, u[..k]);
      if k == |u| {
        assert u[..k] == u;
      } else {
        assert u[..k] == w[..k];
      }
    }
    if Reached(p, w) {
      var k :| 0 <= k <= |w| && Denotes(p, w[..k]);
      assert u[..k] == w[..k];
    }
    assert u[..|u|] == u;
  }

  /** Before anything is read, wildcards stand for nothing. */
  lemma EmptyText(p: Path, t: Token)
    ensures Denotes(p + [t], []) <==> !t.Rune? && Denotes(p, [])
    ensures Reached(p, []) <==> Denotes(p, [])
  {
    var w: Text := [];
    DenotesSnoc(p, t, w);
    assert w[..0] == w && w[0..] == w;
  }

  // ---- Patterns ----

  /** The components of a pattern: the texts between slashes. */
  ghost function Components(p: Text): (cs: seq<Text>)
    ensures |cs| > 0
  {
    if p == [] then [[]]
    else
      var n := |p| - 1;
      var cs := Components(p[..n]);
      if p[n] == SLASH then cs + [[]] else cs[..|cs| - 1] + [cs[|cs| - 1] + [p[n]]]
  }

  const DOUBLE: Text := [ASTERISK, ASTERISK]

  ghost predicate Doubled(c: Text) {
    exists k :: 0 < k < |c| && c[k - 1] == ASTERISK && c[k] == ASTERISK
  }

  /** "**" can only be all of a component. */
  ghost predicate WellFormed(c: Text) {
    c != [] && (Doubled(c) ==> c == DOUBLE)
  }

  /** A pattern is accepted when its components are well formed and "**" is never repeated. */
  ghost predicate Accepted(cs: seq<Text>) {
    && (forall k :: 0 <= k < |cs| ==> WellFormed(cs[k]))
    && (forall k :: 0 < k < |cs| ==> !(cs[k - 1] == DOUBLE && cs[k] == DOUBLE))
  }

  ghost function Literal(c: Text): (p: Path)
    ensures |p| == |c|
  {
    if c == [] then [] else Literal(c[..|c| - 1]) + [if c[|c| - 1] == ASTERISK then Star else Rune(c[|c| - 1])]
  }

  /** The tokens of components that are followed by more. */
  ghost function Lead(cs: seq<Text>): Path {
    if cs == [] then []
    else
      var n := |cs| - 1;
      Lead(cs[..n]) + if cs[n] == DOUBLE then [StarStarSlash] else Literal(cs[n]) + [Rune(SLASH)]
  }

  /** The tokens of a pattern. A trailing "**" stands for any file below. */
  ghost function Tokens(cs: seq<Text>): Path
    requires cs != []
  {
    var n := |cs| - 1;
    Lead(cs[..n]) + if cs[n] == DOUBLE then [StarStarSlash, Star] else Literal(cs[n])
  }

  /** A trailing "**" also stands for the directory before it. */
  ghost predicate HasDirectory(cs: seq<Text>) {
    |cs| > 1 && cs[|cs| - 1] == DOUBLE
  }

  /** The paths at which a text ends that the pattern denotes. */
  ghost function Ends(pattern: Text): set<Path> {
    var cs := Components(pattern);
    {Tokens(cs)} + if HasDirectory(cs) then {Tokens(cs[..|cs| - 1])} else {}
  }

  /** What a pattern means. */
  ghost predicate PatternDenotes(pattern: Text, w: Text) {
    var cs := Components(pattern);
    Denotes(Tokens(cs), w) || (HasDirectory(cs) && Denotes(Tokens(cs[..|cs| - 1]), w))
  }

  // ---- Scanning a pattern from left to right ----

  /** The variables of the scan, with the tokens consumed so far and those of the last directory. */
  datatype Scan = Scan(tokens: Path, directory: Path, gotRunes: bool, gotStarStarSlash: bool, gotStars: nat)

  ghost function TrailingStars(c: Text): (n: nat)
    ensures n <= |c|
  {
    if c == [] || c[|c| - 1] != ASTERISK then 0 else 1 + TrailingStars(c[..|c| - 1])
  }

  ghost predicate HasRune(c: Text) {
    exists k :: 0 <= k < |c| && c[k] != ASTERISK
  }

  /** A component is not well formed, or "**" is repeated. */
  ghost predicate Flawed(cs: seq<Text>) {
    || (exists k :: 0 <= k < |cs| && !WellFormed(cs[k]))
    || (exists k :: 0 < k < |cs| && cs[k - 1] == DOUBLE && cs[k] == DOUBLE)
  }

  /** After the components `done` and the part c of the next one, the pattern can no longer be put right. */
  ghost predicate Spoilt(done: seq<Text>, c: Text) {
    Flawed(done) || (Doubled(c) && c != DOUBLE)
  }

  /** The pattern read so far is made of these components. */
  ghost predicate Parts(u: Text, done: seq<Text>, c: Text) {
    Components(u) == done + [c]
  }

  lemma PartsSnoc(u: Text, done: seq<Text>, c: Text, r: nat)
    requires Parts(u, done, c)
    ensures if r == SLASH then Parts(u + [r], done + [c], []) else Parts(u + [r], done, c + [r])
  {
    assert (u + [r])[..|u|] == u;
    assert (done + [c])[..|done|] == done;
  }

  lemma FlawedSnoc(done: seq<Text>, c: Text)
    ensures Flawed(done + [c]) <==>
              Flawed(done) || !WellFormed(c) || (done != [] && done[|done| - 1] == DOUBLE && c == DOUBLE)
  {
    var cs := done + [c];
    assert forall k :: 0 <= k < |done| ==> cs[k] == done[k];
    assert cs[|done|] == c;
    if exists k :: 0 <= k < |done| && !WellFormed(done[k]) {
      var k :| 0 <= k < |done| && !WellFormed(done[k]);
      assert !WellFormed(cs[k]);
    }
    if exists k :: 0 < k < |done| && done[k - 1] == DOUBLE && done[k] == DOUBLE {
      var k :| 0 < k < |done| && done[k - 1] == DOUBLE && done[k] == DOUBLE;
      assert cs[k - 1] == DOUBLE && cs[k] == DOUBLE;
    }
  }

  lemma DoubledStays(c: Text, r: nat)
    requires Doubled(c) && c != DOUBLE
    ensures Doubled(c + [r]) && c + [r] != DOUBLE
  {
    var k :| 0 < k < |c| && c[k - 1] == ASTERISK && c[k] == ASTERISK;
    assert (c + [r])[k - 1] == ASTERISK && (c + [r])[k] == ASTERISK;
  }

  /** A spoilt start makes a rejected pattern. */
  lemma {:induction false} SpoiltForGood(p: Text, i: nat, done: seq<Text>, c: Text)
    requires i <= |p| && Parts(p[..i], done, c) && Spoilt(done, c)
    ensures !Accepted(Components(p))
    decreases |p| - i
  {
    if i < |p| {
      PartsSnoc(p[..i], done, c, p[i]);
      assert p[..i] + [p[i]] == p[..i + 1];
      if p[i] == SLASH {
        FlawedSnoc(done, c);
        SpoiltForGood(p, i + 1, done + [c], []);
      } else {
        if Doubled(c) && c != DOUBLE {
          DoubledStays(c, p[i]);
        }
        SpoiltForGood(p, i + 1, done, c + [p[i]]);
      }
    } else {
      assert p[..i] == p;
      FlawedSnoc(done, c);
    }
  }

  /** How far the scan is after the components `done` and the part c of the next one. */
  ghost predicate Scanned(done: seq<Text>, c: Text, scan: Scan) {
    && !Spoilt(done, c)
    && scan.gotStars == TrailingStars(c) <= 2 && scan.gotRunes == HasRune(c)
    && scan.gotStarStarSlash == (done != [] && done[|done| - 1] == DOUBLE)
    && scan.tokens == Lead(done) + Literal(c[..|c| - scan.gotStars])
    && (done == [] ==> scan.directory == [])
       && (done != [] && !scan.gotStarStarSlash ==> scan.directory == Tokens(done) && scan.directory != [])
  }

  lemma ScanStarts()
    ensures Parts([], [], []) && Scanned([], [], Scan([], [], false, false, 0))
  {
  }

  // ---- One step of the scan ----

  lemma StarsSnoc(c: Text, r: nat)
    ensures TrailingStars(c + [r]) == if r == ASTERISK then TrailingStars(c) + 1 else 0
    ensures HasRune(c + [r]) == (r != ASTERISK || HasRune(c))
  {
    assert (c + [r])[..|c|] == c;
    if HasRune(c) {
      var k :| 0 <= k < |c| && c[k] != ASTERISK;
      assert (c + [r])[k] != ASTERISK;
    }
    assert (c + [r])[|c|] == r;
  }

  lemma LiteralSnoc(c: Text, r: nat)
    ensures Literal(c + [r]) == Literal(c) + [if r == ASTERISK then Star else Rune(r)]
  {
    assert (c + [r])[..|c|] == c;
  }

  /** What the number of trailing stars says about a component that is not spoilt. */
  lemma StarsMean(c: Text)
    ensures TrailingStars(c) == 0 && !HasRune(c) <==> c == []
    ensures TrailingStars(c) == 0 ==> c == [] || c[|c| - 1] != ASTERISK
    ensures TrailingStars(c) == 1 ==>
              c != [] && c[|c| - 1] == ASTERISK && c != DOUBLE && !(|c| > 1 && c[|c| - 2] == ASTERISK)
    ensures TrailingStars(c) == 1 && !HasRune(c) ==> c == [ASTERISK]
    ensures TrailingStars(c) >= 2 ==> Doubled(c)
    ensures TrailingStars(DOUBLE) == 2 && !HasRune(DOUBLE)
  {
    if c != [] {
      var n := |c| - 1;
      assert c[n] == ASTERISK || HasRune(c);
      if c[n] == ASTERISK && n > 0 {
        assert c[..n][n - 1] == c[n - 1];
        assert TrailingStars(c[..n]) == 0 <==> c[n - 1] != ASTERISK;
        assert c[n - 1] != ASTERISK ==> HasRune(c);
      }
    }
    assert DOUBLE[..1] == [ASTERISK] && DOUBLE[..1][..0] == [];
  }

  lemma DoubledSnoc(c: Text, r: nat)
    requires !Doubled(c)
    ensures Doubled(c + [r]) <==> r == ASTERISK && c != [] && c[|c| - 1] == ASTERISK
  {
    var d := c + [r];
    if Doubled(d) {
      var k :| 0 < k < |d| && d[k - 1] == ASTERISK && d[k] == ASTERISK;
      assert k == |c|;
    }
    if r == ASTERISK && c != [] && c[|c| - 1] == ASTERISK {
      assert d[|c| - 1] == ASTERISK && d[|c|] == ASTERISK;
    }
  }

  /** Another star in a component that has a "**", or a star after runes, or stars and runes. */
  lemma StarSpoils(c: Text)
    requires TrailingStars(c) == 2 || (TrailingStars(c) == 1 && HasRune(c))
    ensures Doubled(c + [ASTERISK]) && c + [ASTERISK] != DOUBLE
  {
    StarsSnoc(c, ASTERISK);
    StarsMean(c + [ASTERISK]);
  }

  lemma StarIsFine(c: Text)
    requires TrailingStars(c) == 0 || (TrailingStars(c) == 1 && !HasRune(c))
    requires Doubled(c) ==> c == DOUBLE
    ensures Doubled(c + [ASTERISK]) ==> c + [ASTERISK] == DOUBLE
  {
    StarsMean(c);
    if TrailingStars(c) == 0 {
      DoubledSnoc(c, ASTERISK);
    }
  }

  lemma ScanAsterisk(done: seq<Text>, c: Text, scan: Scan)
    requires Scanned(done, c, scan)
    ensures if scan.gotStars == 2 || (scan.gotStars == 1 && scan.gotRunes) then Spoilt(done, c + [ASTERISK])
            else Scanned(done, c + [ASTERISK], scan.(gotStars := scan.gotStars + 1))
  {
    if scan.gotStars == 2 || (scan.gotStars == 1 && scan.gotRunes) {
      StarSpoils(c);
    } else {
      StarsSnoc(c, ASTERISK);
      StarIsFine(c);
      WithoutStars(c, scan.gotStars);
    }
  }

  lemma WithoutStars(c: Text, n: nat)
    requires n <= |c|
    ensures (c + [ASTERISK])[..|c + [ASTERISK]| - (n + 1)] == c[..|c| - n]
  {
  }

  /** The tokens of a finished component that is not "**". */
  function Finished(scan: Scan): Path {
    scan.tokens + if scan.gotStars == 1 then [Star] else []
  }

  lemma FinishedIs(done: seq<Text>, c: Text, scan: Scan)
    requires Scanned(done, c, scan) && scan.gotStars < 2
    ensures Finished(scan) == Lead(done) + Literal(c) && c != DOUBLE
  {
    StarsMean(c);
    LiteralWithout(c, scan.gotStars);
  }

  lemma LiteralWithout(c: Text, n: nat)
    requires n <= 1 && n <= |c| && (n == 1 ==> c[|c| - 1] == ASTERISK)
    ensures Literal(c) == Literal(c[..|c| - n]) + if n == 1 then [Star] else []
  {
    if n == 0 {
      assert c[..|c| - n] == c;
    } else {
      assert c[..|c| - n] == c[..|c| - 1];
    }
  }

  lemma ScanRune(done: seq<Text>, c: Text, scan: Scan, r: nat)
    requires Scanned(done, c, scan) && r != ASTERISK && r != SLASH
    ensures if scan.gotStars == 2 then Spoilt(done, c + [r])
            else Scanned(done, c + [r], Scan(Finished(scan) + [Rune(r)], scan.directory, true, scan.gotStarStarSlash,
              0))
  {
    StarsSnoc(c, r);
    StarsMean(c);
    if scan.gotStars == 2 {
      assert (c + [r])[0] == ASTERISK && (c + [r])[1] == ASTERISK;
    } else {
      RuneTokens(done, c, scan, r);
      DoubledSnoc(c, r);
      assert (c + [r])[..|c + [r]|] == c + [r];
    }
  }

  lemma RuneTokens(done: seq<Text>, c: Text, scan: Scan, r: nat)
    requires Scanned(done, c, scan) && r != ASTERISK && r != SLASH && scan.gotStars < 2
    ensures Finished(scan) + [Rune(r)] == Lead(done) + Literal(c + [r])
  {
    FinishedIs(done, c, scan);
    LiteralSnoc(c, r);
    assert Lead(done) + Literal(c) + [Rune(r)] == Lead(done) + (Literal(c) + [Rune(r)]);
  }

  lemma LeadSnoc(done: seq<Text>, c: Text)
    ensures Lead(done + [c]) == Lead(done) + if c == DOUBLE then [StarStarSlash] else Literal(c) + [Rune(SLASH)]
    ensures Tokens(done + [c]) == Lead(done) + if c == DOUBLE then [StarStarSlash, Star] else Literal(c)
  {
    assert (done + [c])[..|done|] == done;
  }

  lemma ScanSlash(done: seq<Text>, c: Text, scan: Scan)
    requires Scanned(done, c, scan)
    ensures if scan.gotStars == 2 then
              if scan.gotStarStarSlash then Spoilt(done + [c], [])
              else Scanned(done + [c], [], Scan(scan.tokens + [StarStarSlash], scan.directory, false, true, 0))
            else if scan.gotStars == 0 && !scan.gotRunes then Spoilt(done + [c], [])
            else Scanned(done + [c], [], Scan(Finished(scan) + [Rune(SLASH)], Finished(scan), false, false, 0))
  {
    StarsMean(c);
    FlawedSnoc(done, c);
    LeadSnoc(done, c);
    if scan.gotStars == 2 {
      assert c[..0] == [];
    } else {
      FinishedIs(done, c, scan);
      assert Lead(done) + Literal(c) + [Rune(SLASH)] == Lead(done) + (Literal(c) + [Rune(SLASH)]);
    }
  }

  /** The end of the scan. */
  lemma ScanEnds(u: Text, done: seq<Text>, c: Text, scan: Scan)
    requires Parts(u, done, c) && Scanned(done, c, scan)
    ensures Accepted(Components(u)) <==>
              !(scan.gotStars == 0 && !scan.gotRunes) && !(scan.gotStars == 2 && scan.gotStarStarSlash)
    ensures Accepted(Components(u)) && scan.gotStars < 2 ==> Ends(u) == {Finished(scan)}
    ensures Accepted(Components(u)) && scan.gotStars == 2 ==>
              Ends(u) == {scan.tokens + [StarStarSlash, Star]} + if scan.directory != [] then {scan.directory} else {}
  {
    StarsMean(c);
    FlawedSnoc(done, c);
    LeadSnoc(done, c);
    var cs := Components(u);
    assert cs[..|cs| - 1] == done && cs[|cs| - 1] == c;
    if scan.gotStars < 2 {
      FinishedIs(done, c, scan);
    } else {
      assert c == DOUBLE && c[..0] == [] && Literal([]) == [];
      assert scan.tokens == Lead(done);
      assert Tokens(cs) == scan.tokens + [StarStarSlash, Star];
    }
  }

  // ---- Wildcards do not meet ----

  ghost predicate MayFollow(a: Token, b: Token) {
    a.Rune? || b.Rune? || (a.StarStarSlash? && b.Star?)
  }

  /** No "*" is followed by a wildcard, and no "**" by another. */
  ghost predicate Tidy(p: Path) {
    forall k :: 0 < k < |p| ==> MayFollow(p[k - 1], p[k])
  }

  lemma TidySnoc(p: Path, t: Token)
    requires Tidy(p) && (p == [] || MayFollow(p[|p| - 1], t))
    ensures Tidy(p + [t])
  {
  }

  lemma TidyJoined(p: Path, q: Path)
    requires Tidy(p) && Tidy(q) && (p == [] || q == [] || MayFollow(p[|p| - 1], q[0]))
    ensures Tidy(p + q)
  {
  }

  lemma {:induction false} LiteralTidy(c: Text)
    requires !Doubled(c)
    ensures Tidy(Literal(c)) && forall t :: t in Literal(c) ==> !t.StarStarSlash?
    ensures c != [] ==> Literal(c)[|c| - 1].Star? == (c[|c| - 1] == ASTERISK)
  {
    if c != [] {
      var d := c[..|c| - 1];
      assert forall k :: 0 <= k < |d| ==> d[k] == c[k];
      LiteralTidy(d);
      if d != [] {
        assert d[|d| - 1] == c[|c| - 2];
      }
      TidySnoc(Literal(d), if c[|c| - 1] == ASTERISK then Star else Rune(c[|c| - 1]));
    }
  }

  /** What follows a leading part may start with any wildcard, unless it ends in "**" itself. */
  lemma {:induction false} LeadTidy(done: seq<Text>)
    requires !Flawed(done)
    ensures Tidy(Lead(done))
    ensures Lead(done) != [] ==> var t := Lead(done)[|Lead(done)| - 1];
            t == Rune(SLASH) || (t.StarStarSlash? && done[|done| - 1] == DOUBLE)
    ensures done == [] <==> Lead(done) == []
  {
    if done != [] {
      var n := |done| - 1;
      var front, c := done[..n], done[n];
      assert done == front + [c];
      FlawedSnoc(front, c);
      LeadTidy(front);
      LeadSnoc(front, c);
      if c == DOUBLE {
        TidySnoc(Lead(front), StarStarSlash);
      } else {
        LiteralTidy(c);
        assert front != [] ==> front[|front| - 1] == done[n - 1];
        TidyJoined(Lead(front), Literal(c));
        TidySnoc(Lead(front) + Literal(c), Rune(SLASH));
        assert Lead(front) + Literal(c) + [Rune(SLASH)] == Lead(front) + (Literal(c) + [Rune(SLASH)]);
      }
    }
  }

  /** The tokens of the scan stay tidy, also with the wildcards that are due. */
  lemma ScanTidy(done: seq<Text>, c: Text, scan: Scan)
    requires Scanned(done, c, scan)
    ensures scan.gotStars < 2 ==> Tidy(Finished(scan))
    ensures scan.gotStars == 2 && !scan.gotStarStarSlash ==>
              Tidy(scan.tokens + [StarStarSlash]) && Tidy(scan.tokens + [StarStarSlash] + [Star])
  {
    LeadTidy(done);
    StarsMean(c);
    if scan.gotStars < 2 {
      FinishedIs(done, c, scan);
      LiteralTidy(c);
      TidyJoined(Lead(done), Literal(c));
    } else {
      assert c[..0] == [] && scan.tokens == Lead(done);
      if !scan.gotStarStarSlash {
        TidySnoc(Lead(done), StarStarSlash);
        TidySnoc(Lead(done) + [StarStarSlash], Star);
      }
    }
  }

  // ---- What has been scanned starts the tokens of the pattern ----

  /** The components read so far are those of the whole pattern. */
  lemma {:induction false} ComponentsExtend(p: Text, n: nat, done: seq<Text>, c: Text)
    requires n <= |p| && Parts(p[..n], done, c)
    ensures var cs := Components(p); |done| < |cs| && cs[..|done|] == done && c <= cs[|done|]
    ensures n < |p| && p[n] == SLASH ==> Components(p)[|done|] == c && |done| + 1 < |Components(p)|
    ensures n < |p| && p[n] != SLASH ==> c + [p[n]] <= Components(p)[|done|]
    decreases |p| - n
  {
    var cs := Components(p);
    if n == |p| {
      assert p[..n] == p;
    } else {
      PartsSnoc(p[..n], done, c, p[n]);
      assert p[..n] + [p[n]] == p[..n + 1];
      if p[n] == SLASH {
        ComponentsExtend(p, n + 1, done + [c], []);
        assert cs[..|done|] == cs[..|done| + 1][..|done|];
        assert cs[..|done| + 1][|done|] == c;
      } else {
        ComponentsExtend(p, n + 1, done, c + [p[n]]);
      }
    }
  }

  lemma {:induction false} LeadGrows(cs: seq<Text>, k: nat, n: nat)
    requires k <= n <= |cs|
    ensures Lead(cs[..k]) <= Lead(cs[..n])
  {
    if k < n {
      LeadGrows(cs, k, n - 1);
      assert cs[..n][..n - 1] == cs[..n - 1];
    }
  }

  lemma {:induction false} LiteralGrows(c: Text, d: Text)
    requires c <= d
    ensures Literal(c) <= Literal(d)
  {
    if c != d {
      assert c <= d[..|d| - 1];
      LiteralGrows(c, d[..|d| - 1]);
    } else {
      assert c == d;
    }
  }

  /** The tokens of a pattern start with those of its first components. */
  lemma TokensStart(cs: seq<Text>, k: nat)
    requires k < |cs|
    ensures cs[k] == DOUBLE ==> Lead(cs[..k]) + [StarStarSlash] <= Tokens(cs)
    ensures cs[k] != DOUBLE ==> Lead(cs[..k]) + Literal(cs[k]) <= Tokens(cs)
    ensures cs[k] != DOUBLE && k + 1 < |cs| ==> Lead(cs[..k]) + Literal(cs[k]) + [Rune(SLASH)] <= Tokens(cs)
  {
    var n := |cs| - 1;
    if k < n {
      LeadGrows(cs, k + 1, n);
      assert cs[..k + 1] == cs[..k] + [cs[k]];
      LeadSnoc(cs[..k], cs[k]);
      assert Lead(cs[..k]) + Literal(cs[k]) + [Rune(SLASH)] == Lead(cs[..k]) + (Literal(cs[k]) + [Rune(SLASH)]);
    }
  }

  /** What the scan adds when it reads a rune. */
  function Reaching(scan: Scan, r: nat): Path {
    if r == SLASH && scan.gotStars == 2 then scan.tokens + [StarStarSlash] else Finished(scan) + [Rune(r)]
  }

  lemma ReachingRune(cs: seq<Text>, done: seq<Text>, c: Text, scan: Scan, r: nat)
    requires Scanned(done, c, scan) && scan.gotStars < 2 && r != ASTERISK && r != SLASH
    requires |done| < |cs| && cs[..|done|] == done && c + [r] <= cs[|done|]
    ensures Reaching(scan, r) <= Tokens(cs)
  {
    var full := cs[|done|];
    assert full[|c|] == r;
    RuneTokens(done, c, scan, r);
    LiteralGrows(c + [r], full);
    TokensStart(cs, |done|);
  }

  lemma ReachingSlash(cs: seq<Text>, done: seq<Text>, c: Text, scan: Scan)
    requires Scanned(done, c, scan) && |done| + 1 < |cs| && cs[..|done|] == done && cs[|done|] == c
    ensures Reaching(scan, SLASH) <= Tokens(cs)
  {
    StarsMean(c);
    TokensStart(cs, |done|);
    if scan.gotStars == 2 {
      assert c[..0] == [] && Literal([]) == [];
      assert scan.tokens == Lead(done);
    } else {
      FinishedIs(done, c, scan);
    }
  }

  /** It starts the tokens of the whole pattern. */
  lemma ReachingStarts(p: Text, n: nat, done: seq<Text>, c: Text, scan: Scan)
    requires n < |p| && Parts(p[..n], done, c) && Scanned(done, c, scan) && p[n] != ASTERISK
             && (p[n] != SLASH ==> scan.gotStars < 2)
    ensures Reaching(scan, p[n]) <= Tokens(Components(p))
  {
    ComponentsExtend(p, n, done, c);
    if p[n] == SLASH {
      ReachingSlash(Components(p), done, c, scan);
    } else {
      ReachingRune(Components(p), done, c, scan, p[n]);
    }
  }
}
