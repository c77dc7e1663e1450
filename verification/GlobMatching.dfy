/** Compiling lists of patterns and matching a path against them. */
module GlobMatching {
  import opened GlobPattern
  import opened GlobStates
  import opened GlobCompile
  import opened GlobNfa
  import opened GlobMatcher

  /** Some pattern of the list denotes the path. */
  ghost predicate AnyDenotes(patterns: seq<Text>, w: Text) {
    exists k :: 0 <= k < |patterns| && PatternDenotes(patterns[k], w)
  }

  /** A path is selected when some include denotes it and no exclude does. */
  ghost predicate Selects(includes: seq<Text>, excludes: seq<Text>, w: Text) {
    AnyDenotes(includes, w) && !AnyDenotes(excludes, w)
  }

  lemma PatternByEnds(pattern: Text, w: Text)
    ensures PatternDenotes(pattern, w) <==> exists p :: p in Ends(pattern) && Denotes(p, w)
  {
    var cs := Components(pattern);
    var whole := Tokens(cs);
    assert whole in Ends(pattern);
    if HasDirectory(cs) {
      assert Tokens(cs[..|cs| - 1]) in Ends(pattern);
    }
  }

  lemma ByEnds(patterns: seq<Text>, w: Text)
    ensures AnyDenotes(patterns, w) <==> exists p :: p in EndsOfAll(patterns) && Denotes(p, w)
  {
    if AnyDenotes(patterns, w) {
      var k :| 0 <= k < |patterns| && PatternDenotes(patterns[k], w);
      PatternByEnds(patterns[k], w);
      var p :| p in Ends(patterns[k]) && Denotes(p, w);
      assert p in EndsOfAll(patterns);
    }
    if exists p :: p in EndsOfAll(patterns) && Denotes(p, w) {
      var p :| p in EndsOfAll(patterns) && Denotes(p, w);
      var k :| 0 <= k < |patterns| && p in Ends(patterns[k]);
      PatternByEnds(patterns[k], w);
    }
  }

  /** An exclude wins over an include that ends at the same state. */
  lemma EndsDecide(states: seq<State>, s: Shape, includes: set<Path>, excludes: set<Path>, w: Text)
    requires NfaOf(states, s, includes, excludes)
    ensures !EndsAt(states, s, w, Undefined)
    ensures EndsAt(states, s, w, Negative) <==> exists p :: p in excludes && Denotes(p, w)
    ensures !EndsAt(states, s, w, Negative) ==>
              (EndsAt(states, s, w, Positive) <==> exists p :: p in includes && Denotes(p, w))
  {
    forall p | p in includes + excludes ensures exists i: nat :: i < |states| && s.paths[i] == p {
      assert p in s.paths;
    }
  }

  /** What the automaton decides is what the patterns mean. */
  lemma Decides(states: seq<State>, s: Shape, includes: seq<Text>, excludes: seq<Text>, w: Text)
    requires NfaOf(states, s, EndsOfAll(includes), EndsOfAll(excludes))
    ensures EndsAt(states, s, w, Positive) && !EndsAt(states, s, w, Negative) && !EndsAt(states, s, w, Undefined) <==>
              Selects(includes, excludes, w)
  {
    ByEnds(includes, w);
    ByEnds(excludes, w);
    EndsDecide(states, s, EndsOfAll(includes), EndsOfAll(excludes), w);
  }

  /** When WriteRune reports that nothing can match any more, that holds for every path that starts with what was read.
      */
  method Feed(m: Matcher, r: nat, ghost includes: seq<Text>, ghost excludes: seq<Text>) returns (more: bool)
    requires m.Valid() && NfaOf(m.states, m.shape, EndsOfAll(includes), EndsOfAll(excludes))
    modifies m`active, m`text
    ensures m.Valid() && m.text == old(m.text) + [r]
    ensures !more ==> forall v: Text :: !Selects(includes, excludes, m.text + v)
  {
    more := m.WriteRune(r);
    if !more {
      forall v: Text ensures !Selects(includes, excludes, m.text + v) {
        Decides(m.states, m.shape, includes, excludes, m.text + v);
      }
    }
  }

  /** Compiles the patterns, feeds the path and asks for a match, stopping as soon as the matcher says so. */
  method Match(includes: seq<Text>, excludes: seq<Text>, path: Text) returns (o: Outcome, matches: bool)
    ensures o.Added? <==> Compilable(includes, excludes)
    ensures matches <==> o.Added? && Selects(includes, excludes, path)
  {
    var states;
    ghost var s;
    o, states, s := NewNFAFromPatterns(includes, excludes);
    if !o.Added? {
      return o, false;
    }
    matches := Run(states, s, includes, excludes, path);
  }

  /** What the matcher answers about the text it was fed. */
  method Answer(m: Matcher, ghost includes: seq<Text>, ghost excludes: seq<Text>) returns (matches: bool)
    requires m.Valid() && NfaOf(m.states, m.shape, EndsOfAll(includes), EndsOfAll(excludes))
    ensures matches <==> Selects(includes, excludes, m.text)
  {
    Decides(m.states, m.shape, includes, excludes, m.text);
    matches := m.IsMatch();
  }

  method FeedAll(m: Matcher, path: Text, ghost includes: seq<Text>, ghost excludes: seq<Text>) returns (more: bool)
    requires m.Valid() && m.text == [] && NfaOf(m.states, m.shape, EndsOfAll(includes), EndsOfAll(excludes))
    modifies m`active, m`text
    ensures m.Valid() && (more ==> m.text == path)
    ensures !more ==> !Selects(includes, excludes, path)
  {
    for i := 0 to |path|
      invariant m.Valid() && m.text == path[..i]
    {
      more := Feed(m, path[i], includes, excludes);
      Extends(m.text, path, i);
      if !more {
        return;
      }
    }
    assert path[..|path|] == path;
    more := true;
  }

  lemma Extends(text: Text, path: Text, i: nat)
    requires i < |path| && text == path[..i] + [path[i]]
    ensures text == path[..i + 1] && text + path[i + 1..] == path
  {
  }

  method Run(states: seq<State>, ghost s: Shape, ghost includes: seq<Text>, ghost excludes: seq<Text>, path: Text)
      returns (matches: bool)
    requires NfaOf(states, s, EndsOfAll(includes), EndsOfAll(excludes))
    ensures matches <==> Selects(includes, excludes, path)
  {
    var m := new Matcher(states, s);
    var more := FeedAll(m, path, includes, excludes);
    if !more {
      return false;
    }
    matches := Answer(m, includes, excludes);
  }
}
