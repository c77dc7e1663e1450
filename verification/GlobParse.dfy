/** Reading an automaton from bytes. */
module GlobParse {
  import opened Arithmetic
  import opened Folding
  import opened GlobPattern
  import opened GlobStates
  import opened GlobNfa
  import opened Utf8
  import Varint

  datatype ParseError = TooLong | EndOfFile | InvalidRune

  /** The states after a part of the input, and what is left of it. */
  datatype Progress = Read(states: seq<State>, rest: seq<byte>) | Stopped(error: ParseError)

  datatype Parsed = Parsed(states: seq<State>) | Failed(error: ParseError)

  const UINT := Varint.IntType(false, 64)

  // ---- What is read ----

  /** The runes that follow, each read as a sibling of the last. */
  function ReadRunes(states: seq<State>, count: nat, b: seq<byte>): (o: Progress)
    ensures o.Read? ==> |o.rest| <= |b|
    decreases count
  {
    if count == 0 then Read(states, b)
    else
      var d := DecodeRune(b);
      if d.rune == RUNE_ERROR then Stopped(InvalidRune)
      else ReadRunes(states + [BLANK.(rune := d.rune, next := if count == 1 then 0 else |states| + 1)], count - 1,
        b[d.length..])
  }

  /** The states that a tag announces for wildcards. */
  function WithTag(states: seq<State>, cur: nat, tag: nat): (states': seq<State>)
    requires cur < |states|
    ensures |states| <= |states'|
  {
    var ended := states[cur := states[cur].(end := EndNumbered(tag % 4))];
    var starred := if tag / 4 % 2 == 1 then WithWildcard(ended, cur, Star) else ended;
    if tag / 8 % 2 == 1 then WithWildcard(starred, cur, StarStarSlash) else starred
  }

  function WithFirst(states: seq<State>, cur: nat): (states': seq<State>)
    requires cur < |states|
    ensures |states| == |states'|
  {
    states[cur := states[cur].(first := |states|)]
  }

  /** One round: the tag of a state and its runes. */
  function ReadState(states: seq<State>, cur: nat, b: seq<byte>): (o: Progress)
    requires cur < |states|
    ensures o.Read? ==> |o.rest| < |b|
  {
    Varint.ConsumedWithin(UINT, b);
    var c := Varint.ConsumeForward(UINT, b);
    if c.Malformed? then Stopped(EndOfFile)
    else
      var states', count := WithTag(states, cur, c.value), c.value / 16;
      if count == 0 then Read(states', b[c.length..]) else ReadRunes(WithFirst(states', cur), count, b[c.length..])
  }

  /** All rounds from the state cur on. */
  function ReadFrom(states: seq<State>, cur: nat, b: seq<byte>): (o: Parsed)
    decreases |b|
  {
    if cur >= |states| then Parsed(states)
    else
      match ReadState(states, cur, b)
      case Stopped(error) => Failed(error)
      case Read(states', rest) => ReadFrom(states', cur + 1, rest)
  }

  /** Kept folded. */
  ghost predicate IsReading(b: seq<byte>, o: Parsed) {
    var folded := forall f: Fold {:trigger Opened(f)} :: Opened(f) && f == OfReading ==> o == ReadFrom([BLANK], 0, b);
    folded
  }

  /** What is read from all bytes. */
  ghost function Reading(b: seq<byte>): (o: Parsed)
    ensures IsReading(b, o)
  {
    assert IsReading(b, ReadFrom([BLANK], 0, b));
    var o :| IsReading(b, o);
    o
  }

  // ---- The loops ----

  method ParseRunes(states: seq<State>, count: nat, b: seq<byte>) returns (o: Progress)
    requires count > 0
    ensures o == ReadRunes(states, count, b)
  {
    var states', left, rest := states, count, b;
    while true
      invariant left > 0 && ReadRunes(states', left, rest) == ReadRunes(states, count, b)
      decreases left
    {
      var d := DecodeRune(rest);
      if d.rune == RUNE_ERROR {
        return Stopped(InvalidRune);
      }
      ghost var before := states';
      rest := rest[d.length..];
      states', left := states' + [BLANK], left - 1;
      var last := |states'| - 1;
      if left == 0 {
        states' := states'[last := BLANK.(rune := d.rune, next := 0)];
        return Read(states', rest);
      }
      states' := states'[last := BLANK.(rune := d.rune, next := |states'|)];
      assert states' == before + [BLANK.(rune := d.rune, next := |before| + 1)];
    }
  }

  /** The changes to the states that a tag asks for. */
  method ParseTag(states: seq<State>, cur: nat, tag: nat) returns (states': seq<State>)
    requires cur < |states|
    ensures states' == WithTag(states, cur, tag)
  {
    states' := states[cur := states[cur].(end := EndNumbered(tag % 4))];
    if tag / 4 % 2 == 1 {
      var star := |states'|;
      states' := states'[cur := states'[cur].(star := star)] + [BLANK];
    }
    if tag / 8 % 2 == 1 {
      var double := |states'|;
      states' := states'[cur := states'[cur].(starStarSlash := double)] + [BLANK];
    }
  }

  method ParseState(states: seq<State>, cur: nat, b: seq<byte>) returns (o: Progress)
    requires cur < |states|
    ensures o == ReadState(states, cur, b)
  {
    Varint.ConsumedWithin(UINT, b);
    var c := Varint.ConsumeForward(UINT, b);
    if c.Malformed? {
      return Stopped(EndOfFile);
    }
    var states' := ParseTag(states, cur, c.value);
    var rest := b[c.length..];
    var count := c.value / 16;
    if count == 0 {
      return Read(states', rest);
    }
    states' := states'[cur := states'[cur].(first := |states'|)];
    o := ParseRunes(states', count, rest);
  }

  // ---- Any input gives states with sound edges ----

  /** The states from cur on have no edges yet. */
  ghost predicate Partial(states: seq<State>, kids: seq<seq<nat>>, cur: nat) {
    && Sound(states, kids)
    && forall i :: cur <= i < |states| ==>
         states[i].star == 0 && states[i].starStarSlash == 0 && states[i].first == 0 && kids[i] == []
  }

  ghost predicate Counted(n: nat, count: nat, list: seq<nat>) {
    |list| == count && forall k :: 0 <= k < count ==> list[k] == n + k
  }

  ghost function Count(n: nat, count: nat): (list: seq<nat>)
    ensures Counted(n, count, list)
  {
    seq(count, k requires 0 <= k < count => n + k)
  }

  /** New states without edges of their own, linked as one list of siblings. */
  ghost predicate Appended(states: seq<State>, states': seq<State>, count: nat) {
    && |states'| == |states| + count && states <= states'
    && forall k :: |states| <= k < |states'| ==>
         states'[k] == BLANK.(rune := states'[k].rune, next := if k + 1 < |states'| then k + 1 else 0)
  }

  lemma {:induction false} RunesAppended(states: seq<State>, count: nat, b: seq<byte>)
    ensures var o := ReadRunes(states, count, b); o.Read? ==> Appended(states, o.states, count)
    decreases count
  {
    if count > 0 {
      var d := DecodeRune(b);
      if d.rune != RUNE_ERROR {
        var more := states + [BLANK.(rune := d.rune, next := if count == 1 then 0 else |states| + 1)];
        RunesAppended(more, count - 1, b[d.length..]);
        var o := ReadRunes(more, count - 1, b[d.length..]);
        if o.Read? {
          assert o.states[|states|] == more[|states|];
          assert states <= more <= o.states;
        }
      }
    }
  }

  lemma WildcardSound(states: seq<State>, kids: seq<seq<nat>>, cur: nat, t: Token)
    requires Sound(states, kids) && cur < |states|
    ensures Sound(WithWildcard(states, cur, t), kids + [[]])
  {
    var states', kids' := WithWildcard(states, cur, t), kids + [[]];
    forall i | 0 <= i < |states'| ensures SoundAt(states', kids', i) {
      if i < |states| {
        assert SoundAt(states, kids, i);
        forall k | 0 <= k < |kids[i]| ensures states'[kids[i][k]].next == states[kids[i][k]].next {
        }
      }
    }
  }

  /** A tag keeps the edges sound, and touches no state after cur but adds some. */
  lemma TagSound(states: seq<State>, kids: seq<seq<nat>>, cur: nat, tag: nat) returns (kids': seq<seq<nat>>)
    requires Partial(states, kids, cur) && cur < |states|
    ensures var states' := WithTag(states, cur, tag);
            Partial(states', kids', cur + 1) && states'[cur].first == 0 && kids'[cur] == []
  {
    var ended := states[cur := states[cur].(end := EndNumbered(tag % 4))];
    forall i | 0 <= i < |states| ensures SoundAt(ended, kids, i) {
      assert SoundAt(states, kids, i);
    }
    var starred;
    starred, kids' := ended, kids;
    if tag / 4 % 2 == 1 {
      WildcardSound(ended, kids, cur, Star);
      starred, kids' := WithWildcard(ended, cur, Star), kids + [[]];
    }
    if tag / 8 % 2 == 1 {
      WildcardSound(starred, kids', cur, StarStarSlash);
      kids' := kids' + [[]];
    }
  }

  ghost function Empties(count: nat): (list: seq<seq<nat>>)
    ensures |list| == count && forall k :: 0 <= k < count ==> list[k] == []
  {
    seq(count, k => [])
  }

  lemma RunesSound(states: seq<State>, kids: seq<seq<nat>>, cur: nat, states': seq<State>, count: nat)
      returns (kids': seq<seq<nat>>)
    requires Partial(states, kids, cur + 1) && cur < |states| && kids[cur] == [] && count > 0
             && Appended(WithFirst(states, cur), states', count)
    ensures Partial(states', kids', cur + 1)
  {
    var n := |states|;
    kids' := kids[cur := Count(n, count)] + Empties(count);
    forall i | 0 <= i < |states'| ensures SoundAt(states', kids', i) {
      if i == cur {
        assert SoundAt(states, kids, cur);
      } else if i < n {
        assert SoundAt(states, kids, i);
        SameChain(states, states', cur, kids[i], i);
      }
    }
  }

  lemma SameChain(states: seq<State>, states': seq<State>, cur: nat, list: seq<nat>, i: nat)
    requires i < |states| && cur < |states| && i != cur && Chained(states, states[i].first, list)
             && WithFirst(states, cur) <= states'
    ensures Chained(states', states'[i].first, list)
  {
    forall k | 0 <= k < |list| ensures states'[list[k]].next == states[list[k]].next {
      assert states'[list[k]] == WithFirst(states, cur)[list[k]];
    }
    assert states'[i] == WithFirst(states, cur)[i];
  }

  lemma StateSound(states: seq<State>, kids: seq<seq<nat>>, cur: nat, b: seq<byte>) returns (kids': seq<seq<nat>>)
    requires Partial(states, kids, cur) && cur < |states|
    ensures var o := ReadState(states, cur, b); o.Read? ==> Partial(o.states, kids', cur + 1)
  {
    Varint.ConsumedWithin(UINT, b);
    var c := Varint.ConsumeForward(UINT, b);
    kids' := kids;
    if c.Consumed? {
      var tagged, count := WithTag(states, cur, c.value), c.value / 16;
      kids' := TagSound(states, kids, cur, c.value);
      if count > 0 {
        RunesAppended(WithFirst(tagged, cur), count, b[c.length..]);
        var o := ReadRunes(WithFirst(tagged, cur), count, b[c.length..]);
        if o.Read? {
          kids' := RunesSound(tagged, kids', cur, o.states, count);
        }
      }
    }
  }

  lemma FirstSound()
    ensures Partial([BLANK], [[]], 0)
  {
    assert SoundAt([BLANK], [[]], 0);
  }

  /** The forward pass over all states. */
  method Parse(b: seq<byte>) returns (o: Parsed, ghost kids: seq<seq<nat>>)
    ensures o == Reading(b)
    ensures o.Parsed? ==> Sound(o.states, kids) && |o.states| <= |b|
  {
    var states, cur, rest := [BLANK], 0, b;
    kids := [[]];
    FirstSound();
    assert Opened(OfReading);
    while cur < |states|
      invariant cur <= |states| && Partial(states, kids, cur) && cur + |rest| <= |b|
      invariant ReadFrom(states, cur, rest) == Reading(b)
      decreases |rest|
    {
      kids := StateSound(states, kids, cur, rest);
      var p := ParseState(states, cur, rest);
      if p.Stopped? {
        return Failed(p.error), kids;
      }
      StateCount(states, cur, rest);
      states, rest, cur := p.states, p.rest, cur + 1;
    }
    o := Parsed(states);
  }

  lemma StateCount(states: seq<State>, cur: nat, b: seq<byte>)
    requires cur < |states|
    ensures var o := ReadState(states, cur, b); o.Read? ==> |states| <= |o.states|
  {
    Varint.ConsumedWithin(UINT, b);
    var c := Varint.ConsumeForward(UINT, b);
    if c.Consumed? {
      RunesAppended(WithFirst(WithTag(states, cur, c.value), cur), c.value / 16, b[c.length..]);
    }
  }
}
