/** When a Get right after a Put can return an older value: exactly when Put makes at least two
    iterations, but fewer than Get makes attempts. */
module LossyMapStale {
  import opened LossyMap
  import opened Options

  /** A Get right after a Put, on the table of any run, returns nothing older than what was put. */
  ghost predicate ReadsOwnPut(c: Config<nat, nat>, calls: seq<PutCall<nat, nat>>, key: nat, v: Value<nat>, e: int)
    requires c.count > 0
  {
    var r := GetFrom(c, PutFrom(c, Run(c, calls), Record(key, 0, v), e, 1), key, e, 0);
    r.Some? ==> r.value.age >= v.age
  }

  /** Key 0 probes the slots in order; the other keys start at a slot of their own. */
  function Spread(key: nat, attempt: nat): nat {
    if key == 0 then attempt else key - 1
  }

  const FRESH: Record<nat, nat> := Record(0, 0, Value(0, 0))

  ghost function StaleConfig(maxGet: nat, maxPut: nat): Config<nat, nat> {
    Config(Spread, maxPut + 1, maxGet, maxPut, FRESH)
  }

  /** Key 0, with an old value, was pushed from slot to slot by newer keys. */
  ghost function Pushed(maxPut: nat, j: nat): (t: seq<Record<nat, nat>>)
    ensures |t| == maxPut + 1
  {
    seq(maxPut + 1, i =>
        if i < j then Record(i + 1, 0, Value(3, 0)) else if i == j then Record(0, j, Value(1, 0)) else FRESH)
  }

  ghost function Pushes(j: nat): (calls: seq<PutCall<nat, nat>>)
    ensures |calls| == j + 1
  {
    seq(j + 1, i => if i == 0 then PutCall(0, Value(1, 0), 1) else PutCall(i, Value(3, 0), 1))
  }

  lemma SlotIs(maxGet: nat, maxPut: nat, key: nat, attempt: nat)
    requires Spread(key, attempt) <= maxPut
    ensures Slot(StaleConfig(maxGet, maxPut), key, attempt) == Spread(key, attempt)
  {
  }

  /** One push: key j + 1 takes slot j from key 0, which moves to the next. */
  lemma PushOne(maxGet: nat, maxPut: nat, j: nat)
    requires 2 <= maxPut < maxGet && j < maxPut
    ensures PutFrom(StaleConfig(maxGet, maxPut), Pushed(maxPut, j), Record(j + 1, 0, Value(3, 0)), 1, 1)
            == Pushed(maxPut, j + 1)
  {
    var c, t := StaleConfig(maxGet, maxPut), Pushed(maxPut, j);
    SlotIs(maxGet, maxPut, j + 1, 0);
    SlotIs(maxGet, maxPut, 0, j + 1);
    var u := t[j := Record(j + 1, 0, Value(3, 0))];
    assert PutFrom(c, u, Record(0, j + 1, Value(1, 0)), 1, 2) == u[j + 1 := Record(0, j + 1, Value(1, 0))];
    assert u[j + 1 := Record(0, j + 1, Value(1, 0))] == Pushed(maxPut, j + 1);
  }

  lemma {:induction false} PushAll(maxGet: nat, maxPut: nat, j: nat)
    requires 2 <= maxPut < maxGet && j <= maxPut
    ensures Run(StaleConfig(maxGet, maxPut), Pushes(j)) == Pushed(maxPut, j)
  {
    var c := StaleConfig(maxGet, maxPut);
    if j == 0 {
      SlotIs(maxGet, maxPut, 0, 0);
      var t := Run(c, []);
      assert Pushes(0)[..0] == [];
      assert PutFrom(c, t, Record(0, 0, Value(1, 0)), 1, 1) == t[0 := Record(0, 0, Value(1, 0))] == Pushed(maxPut, 0);
    } else {
      assert Pushes(j)[..j] == Pushes(j - 1);
      PushAll(maxGet, maxPut, j - 1);
      PushOne(maxGet, maxPut, j - 1);
    }
  }

  /** A newer value for key 0 runs out of iterations before it reaches the old one. */
  lemma {:induction false} PutGivesUp(maxGet: nat, maxPut: nat, a: nat)
    requires 2 <= maxPut < maxGet && a <= maxPut
    ensures PutFrom(StaleConfig(maxGet, maxPut), Pushed(maxPut, maxPut), Record(0, a, Value(2, 0)), 1, a + 1)
            == Pushed(maxPut, maxPut)
    decreases maxPut - a
  {
    if a < maxPut {
      SlotIs(maxGet, maxPut, 0, a);
      PutGivesUp(maxGet, maxPut, a + 1);
    }
  }

  lemma {:induction false} GetGoesOn(maxGet: nat, maxPut: nat, a: nat)
    requires 2 <= maxPut < maxGet && a <= maxPut
    ensures GetFrom(StaleConfig(maxGet, maxPut), Pushed(maxPut, maxPut), 0, 1, a) == Some(Value(1, 0))
    decreases maxPut - a
  {
    SlotIs(maxGet, maxPut, 0, a);
    if a < maxPut {
      GetGoesOn(maxGet, maxPut, a + 1);
    }
  }

  /** For every such pair of limits there is a run after which Get misses the value just put. */
  lemma StaleRead(maxGet: nat, maxPut: nat)
    requires 2 <= maxPut < maxGet
    ensures BoundsAbove(StaleConfig(maxGet, maxPut), Pushes(maxPut))
    ensures !ReadsOwnPut(StaleConfig(maxGet, maxPut), Pushes(maxPut), 0, Value(2, 0), 1)
  {
    PushAll(maxGet, maxPut, maxPut);
    PutGivesUp(maxGet, maxPut, 0);
    GetGoesOn(maxGet, maxPut, 0);
  }

  /** The limits alone decide whether a map always reads its own puts. */
  lemma ReadsOwnPutsIff(maxGet: nat, maxPut: nat)
    ensures (forall c: Config<nat, nat>, calls: seq<PutCall<nat, nat>>, key: nat, v: Value<nat>, e: int ::
               c.count > 0 && c.maxGet == maxGet && c.maxPut == maxPut && BoundsAbove(c, calls)
                 && c.initial.value.age < e <= v.age
               ==> ReadsOwnPut(c, calls, key, v, e))
            <==> maxPut >= maxGet || maxPut <= 1
  {
    if maxPut >= maxGet || maxPut <= 1 {
      forall c: Config<nat, nat>, calls: seq<PutCall<nat, nat>>, key: nat, v: Value<nat>, e: int |
        c.count > 0 && c.maxGet == maxGet && c.maxPut == maxPut && BoundsAbove(c, calls)
          && c.initial.value.age < e <= v.age
        ensures ReadsOwnPut(c, calls, key, v, e)
      {
        RunOk(c, calls);
        GetAfterPut(c, Run(c, calls), PutsOf(calls), key, v, e);
      }
    } else {
      StaleRead(maxGet, maxPut);
    }
  }
}
