/** What is written as bytes is read back. */
module GlobRoundTrip {
  import opened Arithmetic
  import opened Folding
  import opened GlobPattern
  import opened GlobStates
  import opened GlobCompile
  import opened GlobNfa
  import opened GlobOrder
  import opened GlobSerial
  import opened GlobParse
  import opened Utf8
  import Varint

  // ---- Reading a record ----

  /** A list of siblings, numbered from n on. */
  ghost function Siblings(n: nat, rs: seq<nat>): (list: seq<State>)
    ensures |list| == |rs|
    ensures forall k :: 0 <= k < |rs| ==>
              list[k] == BLANK.(rune := rs[k], next := if k + 1 < |rs| then n + k + 1 else 0)
  {
    seq(|rs|, k requires 0 <= k < |rs| => BLANK.(rune := rs[k], next := if k + 1 < |rs| then n + k + 1 else 0))
  }

  ghost predicate AllValid(rs: seq<nat>) {
    forall k :: 0 <= k < |rs| ==> ValidRune(rs[k])
  }

  ghost predicate Encodes(r: nat, e: seq<byte>) {
    ValidRune(r)
    && var folded := forall f: Fold {:trigger Opened(f)} :: Opened(f) && f == OfRunes ==> e == EncodeRune(r);
       folded
  }

  lemma RuneReadBack(states: seq<State>, count: nat, r: nat, e: seq<byte>, tail: seq<byte>)
    requires Encodes(r, e) && count > 0
    ensures ReadRunes(states, count, e + tail) ==
            if r == RUNE_ERROR then Stopped(InvalidRune)
            else ReadRunes(states + [BLANK.(rune := r, next := if count == 1 then 0 else |states| + 1)], count - 1,
              tail)
  {
    assert Opened(OfRunes);
    DecodeEncode(r, tail);
    assert (e + tail)[|e|..] == tail;
  }

  lemma RunesSplit(rs: seq<nat>, rest: seq<byte>) returns (e: seq<byte>)
    requires rs != [] && ValidRune(rs[0])
    ensures Encodes(rs[0], e) && RunesBytes(rs) + rest == e + (RunesBytes(rs[1..]) + rest)
  {
    e := EncodeRune(rs[0]);
    var t := RunesBytes(rs[1..]);
    assert RunesBytes(rs) == e + t;
    Associative(e, t, rest);
  }

  lemma Associative(a: seq<byte>, b: seq<byte>, c: seq<byte>)
    ensures a + b + c == a + (b + c)
  {
  }

  lemma SiblingsCons(states: seq<State>, rs: seq<nat>, more: seq<State>)
    requires rs != [] && more == states + [BLANK.(rune := rs[0], next := if |rs| == 1 then 0 else |states| + 1)]
    ensures states + Siblings(|states|, rs) == more + Siblings(|more|, rs[1..])
  {
  }

  lemma {:induction false} RunesReadBack(states: seq<State>, rs: seq<nat>, rest: seq<byte>)
    requires AllValid(rs)
    ensures ReadRunes(states, |rs|, RunesBytes(rs) + rest) ==
            if RUNE_ERROR in rs then Stopped(InvalidRune) else Read(states + Siblings(|states|, rs), rest)
    decreases |rs|
  {
    if rs == [] {
      assert RunesBytes(rs) + rest == rest && states + Siblings(|states|, rs) == states;
    } else {
      var r, tail := rs[0], rs[1..];
      var e := RunesSplit(rs, rest);
      RuneReadBack(states, |rs|, r, e, RunesBytes(tail) + rest);
      assert RUNE_ERROR in rs <==> r == RUNE_ERROR || RUNE_ERROR in tail;
      if r != RUNE_ERROR {
        var more := states + [BLANK.(rune := r, next := if |rs| == 1 then 0 else |states| + 1)];
        RunesReadBack(more, tail, rest);
        SiblingsCons(states, rs, more);
      }
    }
  }

  lemma LowBits(low: nat, count: nat, tag: nat)
    requires low < 16 && tag == low + 16 * count
    ensures tag % 4 == low % 4 && tag / 4 % 2 == low / 4 % 2 && tag / 8 % 2 == low / 8 % 2 && tag / 16 == count
  {
    DivModUnique(tag, 4, low / 4 + 4 * count, low % 4);
    DivModUnique(low / 4 + 4 * count, 2, low / 8 + 2 * count, low / 4 % 2);
    DivModUnique(tag, 8, low / 8 + 2 * count, low % 8);
    DivModUnique(low / 8 + 2 * count, 2, count, low / 8);
    DivModUnique(tag, 16, count, low);
  }

  /** The first of some runes that are read. */
  lemma FirstRead(states: seq<State>, count: nat, b: seq<byte>) returns (r: nat, n: nat)
    requires count > 0
    ensures r == RUNE_ERROR ==> ReadRunes(states, count, b) == Stopped(InvalidRune)
    ensures r != RUNE_ERROR ==>
              && 0 < n <= |b| && Encodes(r, b[..n])
              && ReadRunes(states, count, b) ==
                 ReadRunes(states + [BLANK.(rune := r, next := if count == 1 then 0 else |states| + 1)], count - 1,
                   b[n..])
  {
    DecodedIsEncoded(b);
    r, n := DecodeRune(b).rune, DecodeRune(b).length;
  }

  lemma RunesCons(r: nat, rs: seq<nat>, b: seq<byte>, n: nat, rest: seq<byte>)
    requires n <= |b| && Encodes(r, b[..n]) && b[n..] == RunesBytes(rs) + rest
    ensures b == RunesBytes([r] + rs) + rest
  {
    assert Opened(OfRunes);
    var e, t := b[..n], RunesBytes(rs);
    assert ([r] + rs)[1..] == rs;
    assert RunesBytes([r] + rs) == e + t;
    assert b == e + b[n..];
    Associative(e, t, rest);
  }

  /** Bytes that are read as runes are the one form of those runes, none of which stands for an error. */
  lemma {:induction false} RunesAreCanonical(states: seq<State>, count: nat, b: seq<byte>) returns (rs: seq<nat>)
    ensures var o := ReadRunes(states, count, b);
            o.Read? ==> |rs| == count && AllValid(rs) && RUNE_ERROR !in rs && b == RunesBytes(rs) + o.rest
    decreases count
  {
    rs := [];
    if count == 0 {
      assert RunesBytes([]) + b == b;
    } else {
      var r, n := FirstRead(states, count, b);
      if r != RUNE_ERROR {
        var more := states + [BLANK.(rune := r, next := if count == 1 then 0 else |states| + 1)];
        var tail := RunesAreCanonical(more, count - 1, b[n..]);
        rs := [r] + tail;
        var o := ReadRunes(more, count - 1, b[n..]);
        if o.Read? {
          RunesCons(r, tail, b, n, o.rest);
        }
      }
    }
  }

  lemma TagParts(end: End, star: bool, double: bool, count: nat)
    ensures var tag := Tag(end, star, double, count);
            EndNumbered(tag % 4) == end && (tag / 4 % 2 == 1 <==> star) && (tag / 8 % 2 == 1 <==> double)
              && tag / 16 == count
  {
    LowBits(Tag(end, star, double, 0), count, Tag(end, star, double, count));
  }

  /** The state for a path together with new states for what follows it. */
  ghost function WithWildcards(states: seq<State>, cur: nat, end: End, star: bool, double: bool): (states': seq<State>)
    requires cur < |states|
    ensures |states| <= |states'|
  {
    var ended := states[cur := states[cur].(end := end)];
    var starred := if star then WithWildcard(ended, cur, Star) else ended;
    if double then WithWildcard(starred, cur, StarStarSlash) else starred
  }

  ghost function WithSiblings(states: seq<State>, cur: nat, rs: seq<nat>): (states': seq<State>)
    requires cur < |states|
    ensures |states'| == |states| + |rs|
  {
    if rs == [] then states else WithFirst(states, cur) + Siblings(|states|, rs)
  }

  ghost function WithState(states: seq<State>, cur: nat, m: Content, p: Path): (states': seq<State>)
    requires cur < |states| && p in m
  {
    WithSiblings(WithWildcards(states, cur, m[p], p + [Star] in m, p + [StarStarSlash] in m), cur, Runes(m, p))
  }

  lemma TagReadBack(tag: nat, b: seq<byte>, rest: seq<byte>)
    requires IsTag(tag, b)
    ensures Varint.ConsumeForward(UINT, b + rest) == Varint.Consumed(tag, |b|)
  {
    assert Opened(OfTag);
    assert UINT.Holds(tag) by {
      Varint.WideLiterals();
    }
    Varint.ForwardRoundTrip(UINT, tag, rest);
  }

  lemma StateReadBack(states: seq<State>, cur: nat, end: End, star: bool, double: bool, rs: seq<nat>, b: seq<byte>,
      rest: seq<byte>)
    requires cur < |states| && AllValid(rs) && IsTag(Tag(end, star, double, |rs|), b)
    ensures ReadState(states, cur, b + (RunesBytes(rs) + rest)) ==
            if RUNE_ERROR in rs then Stopped(InvalidRune)
              else Read(WithSiblings(WithWildcards(states, cur, end, star, double), cur, rs), rest)
  {
    var tag, tail := Tag(end, star, double, |rs|), RunesBytes(rs) + rest;
    TagReadBack(tag, b, tail);
    TagParts(end, star, double, |rs|);
    assert (b + tail)[|b|..] == tail;
    var states' := WithWildcards(states, cur, end, star, double);
    assert WithTag(states, cur, tag) == states';
    if rs == [] {
      assert tail == rest;
    } else {
      RunesReadBack(WithFirst(states', cur), rs, rest);
    }
  }

  // ---- What was read is an automaton ----

  /** The automaton with the paths of `base` and some children of the one at cur, whose own list is still empty. */
  ghost predicate Growing(states: seq<State>, s: Shape, cur: nat, base: seq<Path>, ts: seq<Token>) {
    cur < |base| && Nfa(states, s) && s.paths == base + Below(base[cur], ts) && s.kids[cur] == []
  }

  lemma NotBelow(base: seq<Path>, p: Path, ts: seq<Token>, t: Token)
    requires p + [t] !in base && t !in ts
    ensures p + [t] !in base + Below(p, ts)
  {
    forall k | 0 <= k < |ts| ensures Below(p, ts)[k] != p + [t] {
      SamePath(p, ts[k], p, t);
    }
  }

  lemma MoreBelow(base: seq<Path>, p: Path, ts: seq<Token>, t: Token)
    ensures base + Below(p, ts) + [p + [t]] == base + Below(p, ts + [t])
  {
  }

  lemma GrowWildcard(states: seq<State>, s: Shape, cur: nat, base: seq<Path>, ts: seq<Token>, t: Token)
      returns (s': Shape)
    requires Growing(states, s, cur, base, ts) && !t.Rune? && t !in ts && base[cur] + [t] !in base
             && |states| <= STATE_MASK
    ensures Growing(WithWildcard(states, cur, t), s', cur, base, ts + [t])
  {
    NotBelow(base, base[cur], ts, t);
    MoreBelow(base, base[cur], ts, t);
    s' := WithPath(s, base[cur] + [t]);
    assert s.paths[cur] == base[cur];
    WildcardAdded(states, s, cur, t);
  }

  ghost function WildcardTokens(star: bool, double: bool): (ts: seq<Token>) {
    (if star then [Star] else []) + (if double then [StarStarSlash] else [])
  }

  lemma GrowWildcards(states: seq<State>, s: Shape, cur: nat, base: seq<Path>, end: End, star: bool, double: bool)
      returns (s': Shape)
    requires Growing(states, s, cur, base, []) && |states| + |WildcardTokens(star, double)| <= STATE_MASK + 1
    requires base[cur] + [Star] !in base && base[cur] + [StarStarSlash] !in base
    ensures Growing(WithWildcards(states, cur, end, star, double), s', cur, base, WildcardTokens(star, double))
  {
    var states', ts := states[cur := states[cur].(end := end)], [];
    EndKeepsNfa(states, s, cur, end);
    s' := s;
    if star {
      s' := GrowWildcard(states', s', cur, base, ts, Star);
      states', ts := WithWildcard(states', cur, Star), ts + [Star];
    }
    if double {
      s' := GrowWildcard(states', s', cur, base, ts, StarStarSlash);
      ts := ts + [StarStarSlash];
    }
  }

  /** The list of siblings with one more at its end. */
  lemma SiblingsSnoc(states: seq<State>, cur: nat, rs: seq<nat>, r: nat)
    requires cur < |states|
    ensures var list := Count(|states|, |rs|);
            && (forall k :: 0 <= k < |list| ==> list[k] < |WithSiblings(states, cur, rs)|)
            && WithRune(WithSiblings(states, cur, rs), cur, list, |rs|, r) == WithSiblings(states, cur, rs + [r])
  {
  }

  lemma CountSnoc(n: nat, count: nat)
    ensures Inserted(Count(n, count), count, n + count) == Count(n, count + 1)
  {
  }

  /** The automaton once the siblings have been added too. */
  ghost predicate Grew(states: seq<State>, s: Shape, cur: nat, base: seq<Path>, n: nat, rs: seq<nat>) {
    cur < |base| && Nfa(states, s) && s.paths == base + Below(base[cur], ForRunes(rs)) && s.kids[cur] == Count(n, |rs|)
  }

  lemma PlaceAtEnd(states: seq<State>, cur: nat, rs: seq<nat>, r: nat)
    requires cur < |states| && forall k :: 0 <= k < |rs| ==> rs[k] < r
    ensures PlaceFor(WithSiblings(states, cur, rs), Count(|states|, |rs|), |rs|, r)
  {
  }

  lemma RunePaths(base: seq<Path>, p: Path, rs: seq<nat>, r: nat)
    requires p + [Rune(r)] !in base && forall k :: 0 <= k < |rs| ==> rs[k] < r
    ensures p + [Rune(r)] !in base + Below(p, ForRunes(rs))
    ensures base + Below(p, ForRunes(rs)) + [p + [Rune(r)]] == base + Below(p, ForRunes(rs + [r]))
  {
    NotBelow(base, p, ForRunes(rs), Rune(r));
    MoreBelow(base, p, ForRunes(rs), Rune(r));
    assert ForRunes(rs) + [Rune(r)] == ForRunes(rs + [r]);
  }

  lemma GrowRune(states: seq<State>, s: Shape, cur: nat, base: seq<Path>, rs: seq<nat>, r: nat) returns (s': Shape)
    requires cur < |states| && |states| + |rs| <= STATE_MASK
             && Grew(WithSiblings(states, cur, rs), s, cur, base, |states|, rs)
    requires base[cur] + [Rune(r)] !in base && forall k :: 0 <= k < |rs| ==> rs[k] < r
    ensures Grew(WithSiblings(states, cur, rs + [r]), s', cur, base, |states|, rs + [r])
  {
    var before, list := WithSiblings(states, cur, rs), Count(|states|, |rs|);
    SiblingsSnoc(states, cur, rs, r);
    CountSnoc(|states|, |rs|);
    RunePaths(base, base[cur], rs, r);
    PlaceAtEnd(states, cur, rs, r);
    RuneAdded(before, s, cur, |rs|, r);
    s' := WithKid(s, cur, |rs|, base[cur] + [Rune(r)]);
  }

  lemma {:induction false} GrowRunes(states: seq<State>, s: Shape, cur: nat, base: seq<Path>, rs: seq<nat>)
      returns (s': Shape)
    requires cur < |states| && |states| + |rs| <= STATE_MASK + 1 && Growing(states, s, cur, base, []) && Increasing(rs)
    requires forall k :: 0 <= k < |rs| ==> base[cur] + [Rune(rs[k])] !in base
    ensures Grew(WithSiblings(states, cur, rs), s', cur, base, |states|, rs)
    decreases |rs|
  {
    if rs == [] {
      s' := s;
      assert Count(|states|, 0) == [] && ForRunes(rs) == [];
    } else {
      var n := |rs| - 1;
      var front := rs[..n];
      assert rs == front + [rs[n]];
      s' := GrowRunes(states, s, cur, base, front);
      s' := GrowRune(states, s', cur, base, front, rs[n]);
    }
  }

  // ---- Round by round ----

  /** The automaton after k rounds: the paths queued so far, with the ends of the first k. */
  ghost predicate LaidOut(states: seq<State>, s: Shape, m: Content, k: nat) {
    && Nfa(states, s) && s.paths == Order(m, k) && Unmarked(states)
    && forall i :: 0 <= i < |states| ==>
         if i < k then s.paths[i] in m && states[i].end == m[s.paths[i]] else states[i].end == NoEnd
  }

  /** Nothing below a path is queued before the path is taken. */
  lemma NoChildYet(m: Content, k: nat, base: seq<Path>, t: Token)
    requires [] in m && base == Order(m, k) && k < |base|
    ensures base[k] + [t] !in base
  {
    var q := base[k] + [t];
    if q in base {
      OrderDistinct(m, k);
      OrderKnown(m, k, q);
      assert q[..|base[k]|] == base[k];
      KidsAre(m, base[k], q);
      KidsAreNew(m, k, q);
    }
  }

  lemma NoListYet(states: seq<State>, s: Shape, cur: nat)
    requires Nfa(states, s) && cur < |states| && forall r :: s.paths[cur] + [Rune(r)] !in s.paths
    ensures s.kids[cur] == []
  {
    if s.kids[cur] != [] {
      KidKnown(states, s, cur);
    }
  }

  lemma KidKnown(states: seq<State>, s: Shape, cur: nat)
    requires Nfa(states, s) && cur < |states| && s.kids[cur] != []
    ensures exists r :: s.paths[cur] + [Rune(r)] in s.paths
  {
    EdgeFound(states, s, cur);
    var list := s.kids[cur];
    assert s.paths[list[0]] == s.paths[cur] + [Rune(states[list[0]].rune)];
  }

  /** The children that a round adds are those of the order. */
  lemma KidsInOrder(m: Content, k: nat, base: seq<Path>, p: Path, ws: seq<Token>, rs: seq<nat>)
    requires base == Order(m, k) && k < |base| && p == base[k] && ws == Wildcards(m, p) && rs == Runes(m, p)
    ensures base + Below(p, ws) + Below(p, ForRunes(rs)) == Order(m, k + 1)
  {
    var a, b := Below(p, ws), Below(p, ForRunes(rs));
    KidsConcat(m, p, a, b);
    OrderStep(m, k, base, a + b);
    assert base + a + b == base + (a + b);
  }

  lemma RoundFits(m: Content, k: nat)
    requires [] in m && |m| <= STATE_MASK + 1
    ensures |Order(m, k + 1)| <= STATE_MASK + 1
  {
    OrderBounded(m, k + 1);
  }

  lemma RuneNotBelow(base: seq<Path>, p: Path, ws: seq<Token>, r: nat)
    requires p + [Rune(r)] !in base && (forall k :: 0 <= k < |ws| ==> !ws[k].Rune?)
    ensures p + [Rune(r)] !in base + Below(p, ws)
  {
    NotBelow(base, p, ws, Rune(r));
  }

  lemma LayWildcards(states: seq<State>, s: Shape, m: Content, k: nat, base: seq<Path>, p: Path, ws: seq<Token>)
      returns (s': Shape)
    requires [] in m && Nfa(states, s) && s.paths == base == Order(m, k) && k < |base| && p == base[k] && p in m
             && ws == Wildcards(m, p)
    requires |base| + |ws| <= STATE_MASK + 1
    ensures Growing(WithWildcards(states, k, m[p], p + [Star] in m, p + [StarStarSlash] in m), s', k, base, ws)
  {
    forall t ensures p + [t] !in base {
      NoChildYet(m, k, base, t);
    }
    NoListYet(states, s, k);
    assert base + Below(p, []) == base;
    s' := GrowWildcards(states, s, k, base, m[p], p + [Star] in m, p + [StarStarSlash] in m);
  }

  lemma LayRunes(states: seq<State>, s: Shape, m: Content, k: nat, base: seq<Path>, p: Path, ws: seq<Token>,
      rs: seq<nat>) returns (s': Shape)
    requires [] in m && base == Order(m, k) && k < |base| && p == base[k] && ws == Wildcards(m, p) && Increasing(rs)
    requires Growing(states, s, k, base, ws) && |states| + |rs| <= STATE_MASK + 1
    ensures Grew(WithSiblings(states, k, rs), s', k, base + Below(p, ws), |states|, rs)
  {
    var base' := base + Below(p, ws);
    assert base' + Below(p, []) == base';
    forall j | 0 <= j < |rs| ensures base'[k] + [Rune(rs[j])] !in base' {
      NoChildYet(m, k, base, Rune(rs[j]));
      RuneNotBelow(base, p, ws, rs[j]);
    }
    s' := GrowRunes(states, s, k, base', rs);
  }

  /** A round makes the automaton of the next. */
  lemma LayPaths(states: seq<State>, s: Shape, m: Content, k: nat, base: seq<Path>, p: Path) returns (s': Shape)
    requires Small(m) && Nfa(states, s) && s.paths == base == Order(m, k) && k < |base| && p == base[k] && p in m
    ensures Nfa(WithState(states, k, m, p), s') && s'.paths == Order(m, k + 1)
  {
    var ws, rs := Wildcards(m, p), Runes(m, p);
    KidsInOrder(m, k, base, p, ws, rs);
    RoundFits(m, k);
    var wild := WithWildcards(states, k, m[p], p + [Star] in m, p + [StarStarSlash] in m);
    var s1 := LayWildcards(states, s, m, k, base, p, ws);
    s' := LayRunes(wild, s1, m, k, base, p, ws, rs);
  }

  /** A round sets one end and adds states without any. */
  lemma LayEnds(states: seq<State>, cur: nat, m: Content, p: Path)
    requires cur < |states| && p in m && Unmarked(states)
    ensures var states' := WithState(states, cur, m, p);
            && |states| <= |states'| && Unmarked(states')
            && forall i :: 0 <= i < |states'| ==>
                 states'[i].end == if i == cur then m[p] else if i < |states| then states[i].end else NoEnd
  {
  }

  lemma LayStep(states: seq<State>, s: Shape, m: Content, k: nat, p: Path) returns (s': Shape)
    requires Small(m) && LaidOut(states, s, m, k) && k < |states| && p == s.paths[k] && p in m
    ensures LaidOut(WithState(states, k, m, p), s', m, k + 1)
  {
    s' := LayPaths(states, s, m, k, s.paths, p);
    LayEnds(states, k, m, p);
    OrderGrows(m, k, k + 1);
  }

  // ---- All rounds ----

  lemma {:induction false} SerialGrows(m: Content, k: nat, l: nat)
    requires k <= l
    ensures Serial(m, k) <= Serial(m, l)
  {
    if k < l {
      SerialGrows(m, k, l - 1);
    }
  }

  /** What is left of the bytes after k rounds. */
  ghost function Rest(m: Content, k: nat): (b: seq<byte>)
    requires k <= |m|
  {
    SerialGrows(m, k, |m|);
    Serialized(m)[|Serial(m, k)|..]
  }

  lemma RestStep(m: Content, k: nat, p: Path)
    requires k < |m| && k < |Order(m, k)| && p == Order(m, k)[k]
    ensures Rest(m, k) == Record(m, p) + Rest(m, k + 1)
  {
    SerialStep(m, k, p);
    SerialGrows(m, k, |m|);
    SerialGrows(m, k + 1, |m|);
    Dropped(Serialized(m), Serial(m, k), Record(m, p), Serial(m, k + 1));
  }

  lemma Dropped(total: seq<byte>, a: seq<byte>, r: seq<byte>, b: seq<byte>)
    requires b == a + r && b <= total
    ensures |a| <= |b| <= |total| && total[|a|..] == r + total[|b|..]
  {
    assert total == b + total[|b|..];
  }

  /** The runes are those of texts, so none is half of a surrogate pair or too large. */
  ghost predicate RunesValid(m: Content) {
    forall p, r :: p + [Rune(r)] in m ==> ValidRune(r)
  }

  /** No path holds the rune that stands for an error. */
  ghost predicate NoErrorRune(m: Content) {
    forall p :: p + [Rune(RUNE_ERROR)] !in m
  }

  lemma ValidAfter(m: Content, p: Path)
    requires RunesValid(m)
    ensures AllValid(Runes(m, p)) && (RUNE_ERROR in Runes(m, p) <==> p + [Rune(RUNE_ERROR)] in m)
  {
    var rs := Runes(m, p);
    forall k | 0 <= k < |rs| ensures ValidRune(rs[k]) {
      assert rs[k] in rs;
    }
  }

  lemma RecordSplit(m: Content, p: Path, rest: seq<byte>) returns (b: seq<byte>)
    requires Small(m) && p in m
    ensures IsTag(Tag(m[p], p + [Star] in m, p + [StarStarSlash] in m, |Runes(m, p)|), b)
    ensures Record(m, p) + rest == b + (RunesBytes(Runes(m, p)) + rest)
  {
    var end, star, double, rs := m[p], p + [Star] in m, p + [StarStarSlash] in m, Runes(m, p);
    TagFits(m, p, end, star, double);
    b := TagBytes(Tag(end, star, double, |rs|));
    RecordIs(m, p, end, star, double, rs, b);
    assert b + RunesBytes(rs) + rest == b + (RunesBytes(rs) + rest);
  }

  /** A record is read back as the state it stands for, unless it holds the rune that stands for an error. */
  lemma RecordReadBack(states: seq<State>, cur: nat, m: Content, p: Path, rest: seq<byte>)
    requires cur < |states| && Small(m) && p in m && RunesValid(m)
    ensures ReadState(states, cur, Record(m, p) + rest) ==
            if p + [Rune(RUNE_ERROR)] in m then Stopped(InvalidRune) else Read(WithState(states, cur, m, p), rest)
  {
    ValidAfter(m, p);
    var b := RecordSplit(m, p, rest);
    StateReadBack(states, cur, m[p], p + [Star] in m, p + [StarStarSlash] in m, Runes(m, p), b, rest);
  }

  lemma TagBytes(tag: nat) returns (b: seq<byte>)
    requires tag < Varint.LIMIT64
    ensures IsTag(tag, b)
  {
    b := Varint.AppendForward(tag);
  }

  lemma NextRead(states: seq<State>, k: nat, m: Content, p: Path)
    requires Small(m) && k < |states| && k < |m| && k < |Order(m, k)| && p == Order(m, k)[k] && RunesValid(m)
    ensures p in m
    ensures ReadFrom(states, k, Rest(m, k)) ==
            if p + [Rune(RUNE_ERROR)] in m then Failed(InvalidRune)
              else ReadFrom(WithState(states, k, m, p), k + 1, Rest(m, k + 1))
  {
    OrderKnown(m, k, p);
    RestStep(m, k, p);
    RecordReadBack(states, k, m, p, Rest(m, k + 1));
  }

  /** What is read from the bytes of m is what is read after k rounds. */
  ghost predicate ReadSoFar(states: seq<State>, m: Content, k: nat)
    requires k <= |m|
  {
    var folded := forall f: Fold {:trigger Opened(f)} :: Opened(f) && f == OfRead ==>
        Reading(Serialized(m)) == ReadFrom(states, k, Rest(m, k));
    folded
  }

  /** The first k paths have no child for the rune that stands for an error. */
  ghost predicate CleanSoFar(m: Content, k: nat) {
    forall i :: 0 <= i < k && i < |Order(m, k)| ==> Order(m, k)[i] + [Rune(RUNE_ERROR)] !in m
  }

  lemma CleanStep(m: Content, k: nat, p: Path)
    requires k < |Order(m, k)| && p == Order(m, k)[k] && CleanSoFar(m, k) && p + [Rune(RUNE_ERROR)] !in m
    ensures CleanSoFar(m, k + 1)
  {
    OrderGrows(m, k, k + 1);
  }

  /** All that holds after k rounds. */
  ghost predicate AfterRounds(states: seq<State>, s: Shape, m: Content, k: nat) {
    k <= |m| && LaidOut(states, s, m, k) && ReadSoFar(states, m, k) && CleanSoFar(m, k)
  }

  /** Kept folded. */
  ghost predicate IsRoundDone(done: bool, states: seq<State>, s: Shape, m: Content, k: nat) {
    var folded := forall f: Fold {:trigger Opened(f)} :: Opened(f) && f == OfRound ==>
        (done <==> AfterRounds(states, s, m, k));
    folded
  }

  ghost predicate RoundDone(states: seq<State>, s: Shape, m: Content, k: nat) {
    assert IsRoundDone(AfterRounds(states, s, m, k), states, s, m, k);
    var done :| IsRoundDone(done, states, s, m, k);
    done
  }

  lemma RoundParts(states: seq<State>, s: Shape, m: Content, k: nat)
    requires RoundDone(states, s, m, k)
    ensures k <= |m| && LaidOut(states, s, m, k) && ReadSoFar(states, m, k) && CleanSoFar(m, k)
  {
    assert Opened(OfRound);
  }

  lemma RoundFrom(states: seq<State>, s: Shape, m: Content, k: nat)
    requires k <= |m| && LaidOut(states, s, m, k) && ReadSoFar(states, m, k) && CleanSoFar(m, k)
    ensures RoundDone(states, s, m, k)
  {
    assert Opened(OfRound);
  }

  lemma StartRead(states: seq<State>, m: Content, k: nat)
    requires k == 0 && states == [BLANK]
    ensures ReadSoFar(states, m, k)
  {
    assert Rest(m, k) == Serialized(m);
    assert Opened(OfReading);
  }

  lemma FirstRound(m: Content, k: nat) returns (states: seq<State>, s: Shape)
    requires k == 0
    ensures RoundDone(states, s, m, k)
  {
    states, s := [BLANK], Shape([[]], [[]]);
    FirstState();
    StartRead(states, m, k);
    RoundFrom(states, s, m, k);
  }

  lemma NextRound(states: seq<State>, s: Shape, m: Content, k: nat, l: nat)
      returns (ok: bool, states': seq<State>, s': Shape)
    requires Small(m) && RunesValid(m) && k < |m| && RoundDone(states, s, m, k) && l == k + 1
    ensures ok ==> RoundDone(states', s', m, l)
    ensures !ok ==> ErrorRead(m)
  {
    RoundParts(states, s, m, k);
    QueueEmpties(m, k);
    var p := Order(m, k)[k];
    NextRead(states, k, m, p);
    ok := p + [Rune(RUNE_ERROR)] !in m;
    states', s' := states, s;
    if ok {
      states' := WithState(states, k, m, p);
      s' := LayStep(states, s, m, k, p);
      CleanStep(m, k, p);
      SoFarStep(states, states', m, k);
      RoundFrom(states', s', m, l);
    } else {
      FailedRound(states, m, k);
    }
  }

  /** The bytes hold the rune that stands for an error, and are refused for it; kept folded. */
  ghost predicate ErrorRead(m: Content) {
    var folded := forall f: Fold {:trigger Opened(f)} :: Opened(f) && f == OfError ==>
        !NoErrorRune(m) && Reading(Serialized(m)) == Failed(InvalidRune);
    folded
  }

  lemma FailedRound(states: seq<State>, m: Content, k: nat)
    requires k <= |m| && ReadSoFar(states, m, k) && !NoErrorRune(m)
             && ReadFrom(states, k, Rest(m, k)) == Failed(InvalidRune)
    ensures ErrorRead(m)
  {
    assert Opened(OfRead);
  }

  lemma SoFarStep(states: seq<State>, states': seq<State>, m: Content, k: nat)
    requires Small(m) && k < |m| && ReadSoFar(states, m, k)
             && ReadFrom(states, k, Rest(m, k)) == ReadFrom(states', k + 1, Rest(m, k + 1))
    ensures ReadSoFar(states', m, k + 1)
  {
    assert Opened(OfRead);
  }

  lemma {:induction false} Rounds(m: Content, k: nat) returns (ok: bool, states: seq<State>, s: Shape)
    requires Small(m) && RunesValid(m) && k <= |m|
    ensures ok ==> RoundDone(states, s, m, k)
    ensures !ok ==> ErrorRead(m)
  {
    if k == 0 {
      ok := true;
      states, s := FirstRound(m, k);
    } else {
      ok, states, s := Rounds(m, k - 1);
      if ok {
        ok, states, s := NextRound(states, s, m, k - 1, k);
      }
    }
  }

  lemma AllClean(m: Content)
    requires Tree(m) && CleanSoFar(m, |m|)
    ensures NoErrorRune(m)
  {
    QueueEmpties(m, |m|);
    AllOrdered(m, |m|);
    var ps := Order(m, |m|);
    forall p ensures p + [Rune(RUNE_ERROR)] !in m {
      assert (p + [Rune(RUNE_ERROR)])[..|p|] == p;
      assert ParentIn(m, p + [Rune(RUNE_ERROR)]) ==> p + [Rune(RUNE_ERROR)] in m ==> p in m;
      assert p in m ==> p in ps;
    }
  }

  /** The bytes of an automaton are read back as an automaton with the same paths and ends, unless some path
      holds the rune that stands for an error. */
  lemma ReadsBack(m: Content) returns (states: seq<State>, s: Shape)
    requires Small(m) && RunesValid(m)
    ensures if NoErrorRune(m)
            then Reading(Serialized(m)) == Parsed(states) && Contains(states, s, m) && Unmarked(states)
            else Reading(Serialized(m)) == Failed(InvalidRune)
  {
    var ok;
    ok, states, s := Rounds(m, |m|);
    if ok {
      RoundParts(states, s, m, |m|);
      AllClean(m);
      LastRound(states, s, m);
    } else {
      assert Opened(OfError);
    }
  }

  lemma LastRound(states: seq<State>, s: Shape, m: Content)
    requires Small(m) && LaidOut(states, s, m, |m|) && ReadSoFar(states, m, |m|)
    ensures Reading(Serialized(m)) == Parsed(states) && Contains(states, s, m)
  {
    QueueEmpties(m, |m|);
    AllOrdered(m, |m|);
    var ps := Order(m, |m|);
    assert PathsAre(ps, m) && EndsAre(states, ps, m);
    LastRead(states, m);
  }

  lemma LastRead(states: seq<State>, m: Content)
    requires ReadSoFar(states, m, |m|) && |states| == |m|
    ensures Reading(Serialized(m)) == Parsed(states)
  {
    assert Opened(OfRead);
  }

  lemma MarksKeepContent(states: seq<State>, states': seq<State>, s: Shape, m: Content)
    requires Contains(states, s, m) && SameBut(states, states')
    ensures Contains(states', s, m)
  {
    MarksKeepNfa(states, states', s);
    assert Opened(OfContent);
  }

  /** NewNFAFromBytes. Any input is refused or gives states within its own length. The bytes of an automaton m give
      an automaton with the same paths and ends, unless some path holds the rune that stands for an error. */
  method NewNFAFromBytes(b: seq<byte>, ghost m: Content) returns (o: Parsed, ghost s: Shape)
    ensures |b| > STATE_MASK ==> o == Failed(TooLong)
    ensures o.Parsed? ==> |o.states| <= |b| <= STATE_MASK
    ensures Small(m) && RunesValid(m) && b == Serialized(m) && |b| <= STATE_MASK ==>
              if NoErrorRune(m) then o.Parsed? && Contains(o.states, s, m) && Marked(o.states, s.paths, 0)
                else o == Failed(InvalidRune)
  {
    s := Shape([], []);
    if |b| > STATE_MASK {
      return Failed(TooLong), s;
    }
    ghost var kids;
    o, kids := Parse(b);
    s := Shape([], kids);
    ghost var known := Small(m) && RunesValid(m) && b == Serialized(m) && NoErrorRune(m);
    ghost var read: seq<State> := [];
    if Small(m) && RunesValid(m) && b == Serialized(m) {
      ghost var shape;
      read, shape := ReadsBack(m);
      if NoErrorRune(m) {
        s := shape;
        NfaIsSound(read, s);
      }
    }
    if o.Failed? {
      return;
    }
    var states := Propagate(o.states, s);
    if known {
      MarksKeepContent(read, states, s, m);
    }
    o := Parsed(states);
  }
}
