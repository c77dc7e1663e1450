/** Writing an automaton as bytes. */
module GlobSerial {
  import opened Arithmetic
  import opened Folding
  import opened GlobPattern
  import opened GlobStates
  import opened GlobOrder
  import opened Utf8
  import Varint

  // ---- The bytes of a state ----

  /** The end, whether there are edges for "*" and "**", and the number of edges for regular characters. */
  function Tag(end: End, star: bool, double: bool, count: nat): (tag: nat) {
    EndNumber(end) + (if star then 4 else 0) + (if double then 8 else 0) + 16 * count
  }

  function RunesBytes(rs: seq<nat>): (b: seq<byte>)
    ensures |b| >= |rs|
  {
    if rs == [] then [] else EncodeRune(rs[0]) + RunesBytes(rs[1..])
  }

  /** The automaton can have no more paths than states can be numbered. */
  ghost predicate Small(m: Content) {
    Tree(m) && |m| <= STATE_MASK + 1
  }

  lemma FewRunes(m: Content, p: Path)
    ensures |Runes(m, p)| <= |m|
  {
    var rs := Runes(m, p);
    var ps := Below(p, ForRunes(rs));
    forall i, j | 0 <= i < |ps| && 0 <= j < |ps| && ps[i] == ps[j] ensures i == j {
      SamePath(p, Rune(rs[i]), p, Rune(rs[j]));
    }
    forall q | q in ps ensures q in m {
      var k :| 0 <= k < |ps| && ps[k] == q;
      assert rs[k] in rs;
    }
    CountDistinct(ps, m.Keys);
  }

  ghost function RecordOf(m: Content, p: Path): (b: seq<byte>) {
    var rs := Runes(m, p);
    var tag := Tag(if p in m then m[p] else NoEnd, p + [Star] in m, p + [StarStarSlash] in m, |rs|);
    if tag < Varint.LIMIT64 then Varint.AppendForward(tag) + RunesBytes(rs) else []
  }

  /** Kept folded. */
  ghost predicate IsRecord(m: Content, p: Path, b: seq<byte>) {
    var folded := forall f: Fold {:trigger Opened(f)} :: Opened(f) && f == OfRecord ==> b == RecordOf(m, p);
    folded
  }

  /** The bytes that stand for the state of a path. */
  ghost function Record(m: Content, p: Path): (b: seq<byte>)
    ensures IsRecord(m, p, b)
  {
    assert IsRecord(m, p, RecordOf(m, p));
    var b :| IsRecord(m, p, b);
    b
  }

  ghost function RecordAt(m: Content, ps: seq<Path>, k: nat): (b: seq<byte>) {
    if k < |ps| then Record(m, ps[k]) else []
  }

  /** The bytes of the first k states in breadth-first order. */
  ghost function Serial(m: Content, k: nat): (b: seq<byte>) {
    if k == 0 then [] else Serial(m, k - 1) + RecordAt(m, Order(m, k - 1), k - 1)
  }

  /** The bytes of an automaton. They do not depend on how its states are numbered. */
  ghost function Serialized(m: Content): (b: seq<byte>) {
    Serial(m, |m|)
  }

  // ---- Automata and their contents ----

  /** The automaton has these paths and ends; kept folded. */
  ghost predicate Contains(states: seq<State>, s: Shape, m: Content) {
    && Nfa(states, s)
    && var folded := forall f: Fold {:trigger Opened(f)} :: Opened(f) && f == OfContent ==>
         PathsAre(s.paths, m) && EndsAre(states, s.paths, m);
       folded
  }

  ghost predicate PathsAre(paths: seq<Path>, m: Content) {
    forall p :: p in m <==> p in paths
  }

  ghost predicate EndsAre(states: seq<State>, paths: seq<Path>, m: Content) {
    |states| == |paths| && forall i :: 0 <= i < |states| ==> paths[i] in m && m[paths[i]] == states[i].end
  }

  lemma ContentIsSmall(states: seq<State>, s: Shape, m: Content)
    requires Contains(states, s, m)
    ensures Small(m) && |m| == |states|
  {
    assert Opened(OfNfa) && Opened(OfContent);
    CountDistinct(s.paths, m.Keys);
    forall p | p in m ensures ParentIn(m, p) {
      var j :| 0 <= j < |s.paths| && s.paths[j] == p;
      assert j > 0 ==> HasParent(s.paths, j);
    }
  }

  ghost function RunesOf(states: seq<State>, list: seq<nat>): (rs: seq<nat>)
    requires forall k :: 0 <= k < |list| ==> list[k] < |states|
    ensures |rs| == |list| && forall k :: 0 <= k < |list| ==> rs[k] == states[list[k]].rune
  {
    seq(|list|, k requires 0 <= k < |list| => states[list[k]].rune)
  }

  ghost function PathsAt(s: Shape, list: seq<nat>): (ps: seq<Path>)
    requires forall k :: 0 <= k < |list| ==> list[k] < |s.paths|
    ensures |ps| == |list| && forall k :: 0 <= k < |list| ==> ps[k] == s.paths[list[k]]
  {
    seq(|list|, k requires 0 <= k < |list| => s.paths[list[k]])
  }

  /** The siblings of a state are the regular characters that follow its path. */
  lemma NfaRunes(states: seq<State>, s: Shape, m: Content, i: nat)
    requires Contains(states, s, m) && i < |states|
    ensures forall k :: 0 <= k < |s.kids[i]| ==> s.kids[i][k] < |states|
    ensures RunesOf(states, s.kids[i]) == Runes(m, s.paths[i])
    ensures PathsAt(s, s.kids[i]) == Below(s.paths[i], ForRunes(Runes(m, s.paths[i])))
  {
    EdgeFound(states, s, i);
    var list, p := s.kids[i], s.paths[i];
    var rs := RunesOf(states, list);
    forall r ensures r in rs <==> p + [Rune(r)] in m {
      RuneListed(states, s, i, r);
      assert Opened(OfContent);
    }
    RunesAreUnique(m, p, rs);
  }

  lemma RuneListed(states: seq<State>, s: Shape, i: nat, r: nat)
    requires i < |states| == |s.paths| && i < |s.kids| && KidsOk(states, s.paths, i, s.kids[i])
    ensures r in RunesOf(states, s.kids[i]) <==> s.paths[i] + [Rune(r)] in s.paths
  {
    var list, p := s.kids[i], s.paths[i];
    var rs, q := RunesOf(states, list), p + [Rune(r)];
    if r in rs {
      var k :| 0 <= k < |rs| && rs[k] == r;
      assert s.paths[list[k]] == q;
    }
    if q in s.paths {
      var j :| 0 <= j < |s.paths| && s.paths[j] == q;
      assert q[..|p|] == p && q[|p|] == Rune(r);
      assert ChildForRune(p, s.paths[j]);
      var k :| 0 <= k < |list| && list[k] == j;
      SamePath(p, Rune(states[j].rune), p, Rune(r));
      assert rs[k] == r;
    }
  }

  /** The states of the children for wildcards. */
  function WildcardsAt(state: State): (list: seq<nat>) {
    (if state.star != 0 then [state.star] else []) + (if state.starStarSlash != 0 then [state.starStarSlash] else [])
  }

  lemma NfaEnd(states: seq<State>, s: Shape, m: Content, i: nat)
    requires Contains(states, s, m) && i < |states|
    ensures s.paths[i] in m && m[s.paths[i]] == states[i].end
    ensures s.paths[0] == []
  {
    assert Opened(OfNfa) && Opened(OfContent);
  }

  lemma NfaWildcards(states: seq<State>, s: Shape, m: Content, i: nat)
    requires Contains(states, s, m) && i < |states|
    ensures states[i].star != 0 <==> s.paths[i] + [Star] in m
    ensures states[i].starStarSlash != 0 <==> s.paths[i] + [StarStarSlash] in m
    ensures states[i].star < |states| && (states[i].star != 0 ==> s.paths[states[i].star] == s.paths[i] + [Star])
    ensures states[i].starStarSlash < |states|
            && (states[i].starStarSlash != 0 ==> s.paths[states[i].starStarSlash] == s.paths[i] + [StarStarSlash])
  {
    EdgeFound(states, s, i);
    assert Opened(OfContent);
  }

  lemma WildcardPaths(states: seq<State>, s: Shape, m: Content, i: nat)
    requires Contains(states, s, m) && i < |states|
    ensures forall k :: 0 <= k < |WildcardsAt(states[i])| ==> WildcardsAt(states[i])[k] < |states|
    ensures PathsAt(s, WildcardsAt(states[i])) == Below(s.paths[i], Wildcards(m, s.paths[i]))
  {
    NfaWildcards(states, s, m, i);
  }

  lemma KidsConcat(m: Content, p: Path, a: seq<Path>, b: seq<Path>)
    requires a == Below(p, Wildcards(m, p)) && b == Below(p, ForRunes(Runes(m, p)))
    ensures a + b == Kids(m, p)
  {
    BelowConcat(p, Wildcards(m, p), ForRunes(Runes(m, p)));
    assert Opened(OfKids);
  }

  /** The states that follow i, in the order in which they are queued. */
  lemma NfaKids(states: seq<State>, s: Shape, m: Content, i: nat, list: seq<nat>)
    requires Contains(states, s, m) && i < |states| && list == WildcardsAt(states[i]) + s.kids[i]
    ensures (forall k :: 0 <= k < |list| ==> list[k] < |states|) && PathsAt(s, list) == Kids(m, s.paths[i])
  {
    NfaRunes(states, s, m, i);
    WildcardPaths(states, s, m, i);
    var a, b := PathsAt(s, WildcardsAt(states[i])), PathsAt(s, s.kids[i]);
    KidsConcat(m, s.paths[i], a, b);
    PathsConcat(s, WildcardsAt(states[i]), s.kids[i]);
  }

  /** The bytes of a tag; kept folded. */
  ghost predicate IsTag(tag: nat, b: seq<byte>) {
    tag < Varint.LIMIT64
    && var folded := forall f: Fold {:trigger Opened(f)} :: Opened(f) && f == OfTag ==> b == Varint.AppendForward(tag);
       folded
  }

  method EmitTag(tag: nat) returns (b: seq<byte>)
    requires tag < Varint.LIMIT64
    ensures IsTag(tag, b)
  {
    b := Varint.AppendForward(tag);
  }

  lemma TagFits(m: Content, p: Path, end: End, star: bool, double: bool)
    requires Small(m)
    ensures Tag(end, star, double, |Runes(m, p)|) < Varint.LIMIT64
  {
    FewRunes(m, p);
  }

  lemma RecordIs(m: Content, p: Path, end: End, star: bool, double: bool, rs: seq<nat>, b: seq<byte>)
    requires Small(m) && p in m && end == m[p] && (star <==> p + [Star] in m) && (double <==> p + [StarStarSlash] in m)
             && rs == Runes(m, p)
    requires IsTag(Tag(end, star, double, |rs|), b)
    ensures Record(m, p) == b + RunesBytes(rs)
  {
    assert Opened(OfTag) && Opened(OfRecord);
  }

  // ---- The loops ----

  lemma ChainFound(states: seq<State>, s: Shape, i: nat)
    requires Nfa(states, s) && i < |states|
    ensures Chained(states, states[i].first, s.kids[i]) && forall k :: 0 <= k < |s.kids[i]| ==> s.kids[i][k] > 0
  {
    EdgeFound(states, s, i);
  }

  /** The loop over the siblings that queues them and counts them in the tag. */
  method QueueRunes(states: seq<State>, i: nat, ghost s: Shape) returns (list: seq<nat>, weight: nat)
    requires Nfa(states, s) && i < |states|
    ensures list == s.kids[i] && weight == 16 * |list|
  {
    ChainFound(states, s, i);
    ghost var kids := s.kids[i];
    list, weight := [], 0;
    var index := states[i].first;
    while index != 0
      invariant |list| <= |kids| && index == Sibling(kids, |list|) && weight == 16 * |list|
      invariant forall k :: 0 <= k < |list| ==> list[k] == kids[k]
      decreases |kids| - |list|
    {
      list, weight := list + [index], weight + 16;
      index := states[index].next;
    }
  }

  /** The first k runes have been written; kept folded. */
  ghost predicate Written(rs: seq<nat>, k: nat, b: seq<byte>) {
    && k <= |rs|
    && var folded := forall f: Fold {:trigger Opened(f)} :: Opened(f) && f == OfRunes ==>
         b + RunesBytes(rs[k..]) == RunesBytes(rs);
       folded
  }

  lemma WrittenStep(rs: seq<nat>, k: nat, b: seq<byte>, r: nat)
    requires Written(rs, k, b) && k < |rs| && rs[k] == r
    ensures Written(rs, k + 1, b + EncodeRune(r))
  {
    assert Opened(OfRunes);
    assert rs[k..][0] == r && rs[k..][1..] == rs[k + 1..];
  }

  lemma WrittenEnds(rs: seq<nat>, b: seq<byte>)
    ensures b == [] ==> Written(rs, 0, b)
    ensures Written(rs, |rs|, b) ==> b == RunesBytes(rs)
  {
    assert Opened(OfRunes);
    WrittenAll(rs, b);
    assert rs[0..] == rs;
  }

  lemma WrittenAll(rs: seq<nat>, b: seq<byte>)
    ensures b + RunesBytes(rs[|rs|..]) == b && [] + RunesBytes(rs[0..]) == RunesBytes(rs)
  {
    assert rs[|rs|..] == [] && rs[0..] == rs;
  }

  /** The loop over the siblings that writes their runes. */
  method EmitRunes(states: seq<State>, i: nat, ghost s: Shape, ghost rs: seq<nat>) returns (b: seq<byte>)
    requires Nfa(states, s) && i < |states| && (forall k :: 0 <= k < |s.kids[i]| ==> s.kids[i][k] < |states|)
             && rs == RunesOf(states, s.kids[i])
    ensures b == RunesBytes(rs)
  {
    ChainFound(states, s, i);
    ghost var kids, k := s.kids[i], 0;
    b := [];
    WrittenEnds(rs, b);
    var index := states[i].first;
    while index != 0
      invariant k <= |kids| && index == Sibling(kids, k) && Written(rs, k, b)
      decreases |kids| - k
    {
      var r := states[index].rune;
      WrittenStep(rs, k, b, r);
      b := b + EncodeRune(r);
      index, k := states[index].next, k + 1;
    }
    WrittenEnds(rs, b);
  }

  /** The tag of a state, and the states that follow it. */
  method TagOf(states: seq<State>, i: nat, ghost s: Shape) returns (tag: nat, list: seq<nat>)
    requires Nfa(states, s) && i < |states|
    ensures list == WildcardsAt(states[i]) + s.kids[i]
    ensures tag == Tag(states[i].end, states[i].star != 0, states[i].starStarSlash != 0, |s.kids[i]|)
  {
    tag := EndNumber(states[i].end);
    list := [];
    if states[i].star != 0 {
      tag, list := tag + 4, list + [states[i].star];
    }
    if states[i].starStarSlash != 0 {
      tag, list := tag + 8, list + [states[i].starStarSlash];
    }
    var kids, weight := QueueRunes(states, i, s);
    assert list == WildcardsAt(states[i]);
    tag, list := tag + weight, list + kids;
  }

  /** Writes one state and tells which states follow it. */
  method EmitState(states: seq<State>, i: nat, ghost s: Shape, ghost m: Content) returns (b: seq<byte>, list: seq<nat>)
    requires Contains(states, s, m) && i < |states| && Small(m)
    ensures s.paths[i] in m && b == Record(m, s.paths[i])
    ensures (forall k :: 0 <= k < |list| ==> list[k] < |states|) && PathsAt(s, list) == Kids(m, s.paths[i])
  {
    NfaEnd(states, s, m, i);
    NfaWildcards(states, s, m, i);
    NfaRunes(states, s, m, i);
    var end, star, double := states[i].end, states[i].star != 0, states[i].starStarSlash != 0;
    ghost var p, rs := s.paths[i], Runes(m, s.paths[i]);
    TagFits(m, p, end, star, double);
    var tag;
    tag, list := TagOf(states, i, s);
    NfaKids(states, s, m, i, list);
    b := EmitTag(tag);
    RecordIs(m, p, end, star, double, rs, b);
    var runes := EmitRunes(states, i, s, rs);
    b := b + runes;
  }

  lemma SerialStep(m: Content, k: nat, p: Path)
    requires k < |Order(m, k)| && p == Order(m, k)[k]
    ensures Serial(m, k + 1) == Serial(m, k) + Record(m, p)
  {
  }

  /** These states, taken or queued, are those of the order; kept folded. */
  ghost predicate Queued(s: Shape, all: seq<nat>, m: Content, k: nat) {
    && (forall j :: 0 <= j < |all| ==> all[j] < |s.paths|)
    && var folded := forall f: Fold {:trigger Opened(f)} :: Opened(f) && f == OfQueue ==>
         PathsAt(s, all) == Order(m, k);
       folded
  }

  lemma QueueStarts(s: Shape, m: Content)
    requires |s.paths| > 0 && s.paths[0] == []
    ensures Queued(s, [0], m, 0)
  {
    assert PathsAt(s, [0]) == [[]];
  }

  lemma QueueAt(s: Shape, all: seq<nat>, m: Content, k: nat)
    requires Queued(s, all, m, k) && k < |all|
    ensures k < |Order(m, k)| == |all| && s.paths[all[k]] == Order(m, k)[k]
  {
    assert Opened(OfQueue);
  }

  lemma QueueStep(s: Shape, all: seq<nat>, list: seq<nat>, m: Content, k: nat)
    requires Queued(s, all, m, k) && k < |all| && (forall j :: 0 <= j < |list| ==> list[j] < |s.paths|)
    requires PathsAt(s, list) == Kids(m, s.paths[all[k]])
    ensures Queued(s, all + list, m, k + 1)
  {
    QueueAt(s, all, m, k);
    assert PathsAt(s, all) == Order(m, k) by {
      assert Opened(OfQueue);
    }
    OrderStep(m, k, PathsAt(s, all), PathsAt(s, list));
    PathsConcat(s, all, list);
    QueuedIs(s, all + list, m, k + 1);
  }

  lemma PathsConcat(s: Shape, a: seq<nat>, b: seq<nat>)
    requires (forall k :: 0 <= k < |a| ==> a[k] < |s.paths|) && (forall k :: 0 <= k < |b| ==> b[k] < |s.paths|)
    ensures (forall k :: 0 <= k < |a + b| ==> (a + b)[k] < |s.paths|)
            && PathsAt(s, a + b) == PathsAt(s, a) + PathsAt(s, b)
  {
  }

  lemma QueuedIs(s: Shape, all: seq<nat>, m: Content, k: nat)
    requires (forall j :: 0 <= j < |all| ==> all[j] < |s.paths|) && PathsAt(s, all) == Order(m, k)
    ensures Queued(s, all, m, k)
  {
  }

  lemma QueueEmpty(s: Shape, all: seq<nat>, m: Content, k: nat)
    requires Small(m) && Queued(s, all, m, k) && k == |all| <= |m|
    ensures k == |m|
  {
    assert Opened(OfQueue);
    QueueEmpties(m, k);
  }

  /** The states taken so far, those queued and the bytes written; kept folded. */
  ghost predicate Writing(s: Shape, m: Content, taken: seq<nat>, queue: seq<nat>, out: seq<byte>) {
    && |taken| <= |m|
    && var folded := forall f: Fold {:trigger Opened(f)} :: Opened(f) && f == OfRound ==>
         Queued(s, taken + queue, m, |taken|) && out == Serial(m, |taken|);
       folded
  }

  lemma WritingStarts(s: Shape, m: Content)
    requires |s.paths| > 0 && s.paths[0] == []
    ensures Writing(s, m, [], [0], [])
  {
    QueueStarts(s, m);
    assert [] + [0] == [0];
  }

  lemma WritingEnds(s: Shape, m: Content, taken: seq<nat>, out: seq<byte>)
    requires Small(m) && Writing(s, m, taken, [], out)
    ensures out == Serialized(m)
  {
    assert Opened(OfRound);
    assert taken + [] == taken;
    QueueEmpty(s, taken, m, |taken|);
  }

  lemma WritingParts(s: Shape, m: Content, taken: seq<nat>, queue: seq<nat>, out: seq<byte>)
    ensures Writing(s, m, taken, queue, out) <==>
              |taken| <= |m| && Queued(s, taken + queue, m, |taken|) && out == Serial(m, |taken|)
  {
    assert Opened(OfRound);
  }

  lemma WritingStep(s: Shape, m: Content, taken: seq<nat>, queue: seq<nat>, out: seq<byte>, b: seq<byte>,
      list: seq<nat>)
    requires Small(m) && Writing(s, m, taken, queue, out) && queue != [] && queue[0] < |s.paths|
             && b == Record(m, s.paths[queue[0]])
    requires (forall j :: 0 <= j < |list| ==> list[j] < |s.paths|) && PathsAt(s, list) == Kids(m, s.paths[queue[0]])
    ensures |taken| < |m| && Writing(s, m, taken + [queue[0]], queue[1..] + list, out + b)
  {
    WritingParts(s, m, taken, queue, out);
    var all, k := taken + queue, |taken|;
    Requeued(taken, queue, list);
    QueueAt(s, all, m, k);
    OrderBounded(m, k);
    SerialStep(m, k, s.paths[queue[0]]);
    QueueStep(s, all, list, m, k);
    WritingParts(s, m, taken + [queue[0]], queue[1..] + list, out + b);
  }

  lemma WritingHead(s: Shape, m: Content, taken: seq<nat>, queue: seq<nat>, out: seq<byte>)
    requires Writing(s, m, taken, queue, out) && queue != []
    ensures queue[0] < |s.paths|
  {
    assert Opened(OfRound);
    assert (taken + queue)[|taken|] == queue[0];
  }

  lemma Requeued(taken: seq<nat>, queue: seq<nat>, list: seq<nat>)
    requires queue != []
    ensures taken + queue + list == taken + [queue[0]] + (queue[1..] + list) && (taken + queue)[|taken|] == queue[0]
  {
  }

  /** Bytes. */
  method Bytes(states: seq<State>, ghost s: Shape, ghost m: Content) returns (out: seq<byte>)
    requires Contains(states, s, m)
    ensures Small(m) && out == Serialized(m)
  {
    ContentIsSmall(states, s, m);
    NfaEnd(states, s, m, 0);
    WritingStarts(s, m);
    out := [];
    var queue: seq<nat> := [0];
    ghost var taken: seq<nat> := [];
    while queue != []
      invariant Writing(s, m, taken, queue, out)
      decreases |m| - |taken|
    {
      WritingHead(s, m, taken, queue, out);
      var b, list := EmitState(states, queue[0], s, m);
      WritingStep(s, m, taken, queue, out, b, list);
      taken := taken + [queue[0]];
      queue := queue[1..] + list;
      out := out + b;
    }
    WritingEnds(s, m, taken, out);
  }

  // ---- The size of the bytes ----

  lemma {:induction false} RunesSize(rs: seq<nat>)
    ensures |RunesBytes(rs)| <= 4 * |rs|
  {
    if rs != [] {
      RunesSize(rs[1..]);
    }
  }

  lemma TagSize(tag: nat)
    requires tag < Varint.LIMIT64
    ensures |Varint.AppendForward(tag)| <= 10
  {
    assert Varint.IntType(false, 64).Holds(tag) by {
      Varint.WideLiterals();
    }
    Varint.ForwardRoundTrip(Varint.IntType(false, 64), tag, []);
    Varint.SizeBytesIsLeast(tag);
  }

  lemma RecordSize(m: Content, p: Path)
    ensures |Record(m, p)| <= 10 + 4 * |Kids(m, p)|
  {
    assert Opened(OfRecord);
    var rs := Runes(m, p);
    var tag := Tag(if p in m then m[p] else NoEnd, p + [Star] in m, p + [StarStarSlash] in m, |rs|);
    RunesSize(rs);
    KidsCount(m, p);
    if tag < Varint.LIMIT64 {
      TagSize(tag);
    }
  }

  lemma {:induction false} SerialSize(m: Content, k: nat)
    ensures |Serial(m, k)| <= 10 * k + 4 * (|Order(m, k)| - 1)
  {
    if k > 0 {
      SerialSize(m, k - 1);
      var ps := Order(m, k - 1);
      if k - 1 < |ps| {
        RecordSize(m, ps[k - 1]);
        OrderStep(m, k - 1, ps, Kids(m, ps[k - 1]));
      }
    }
  }

  /** Fourteen bytes are enough for a state. */
  lemma SerializedSize(m: Content)
    requires [] in m
    ensures |Serialized(m)| <= 14 * |m|
  {
    SerialSize(m, |m|);
    OrderBounded(m, |m|);
  }
}
