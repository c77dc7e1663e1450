/** What a Put into the lossy map may lose: at most one record, and only for one of three reasons. */
module LossyMapLosses {
  import opened LossyMap
  import opened Options

  /** A record that is not below the bound, without the place where it is kept. */
  ghost function One<K(!new), D(!new)>(r: Record<K, D>, e: int): multiset<(K, Value<D>)> {
    if r.value.age < e then multiset{} else multiset{(r.key, r.value)}
  }

  ghost function Live<K(!new), D(!new)>(t: seq<Record<K, D>>, e: int): multiset<(K, Value<D>)> {
    if t == [] then multiset{} else Live(t[..|t| - 1], e) + One(t[|t| - 1], e)
  }

  ghost function AttemptOf<K(!new), D(!new)>(r: Record<K, D>, e: int): nat {
    if r.value.age < e then 0 else r.attempt
  }

  /** How far the records that are not below the bound have been moved on, together. */
  ghost function Depth<K(!new), D(!new)>(t: seq<Record<K, D>>, e: int): nat {
    if t == [] then 0 else Depth(t[..|t| - 1], e) + AttemptOf(t[|t| - 1], e)
  }

  lemma Aside<T>(a: multiset<T>, x: multiset<T>, b: multiset<T>, y: multiset<T>, more: multiset<T>)
    requires a + x == b + y
    ensures a + more + x == b + more + y
  {
    assert a + more + x == (a + x) + more;
  }

  /** Writing one record over another. */
  lemma {:induction false} Replaced<K(!new), D(!new)>(t: seq<Record<K, D>>, e: int, i: nat, r: Record<K, D>)
    requires i < |t|
    ensures Live(t[i := r], e) + One(t[i], e) == Live(t, e) + One(r, e)
    ensures Depth(t[i := r], e) + AttemptOf(t[i], e) == Depth(t, e) + AttemptOf(r, e)
    decreases |t|
  {
    var n, t' := |t| - 1, t[i := r];
    if i < n {
      Replaced(t[..n], e, i, r);
      assert t'[..n] == t[..n][i := r];
      Aside(Live(t'[..n], e), One(t[i], e), Live(t[..n], e), One(r, e), One(t[n], e));
    } else {
      assert t'[..n] == t[..n];
      assert Live(t', e) == Live(t[..n], e) + One(r, e);
    }
  }

  /** The place of the record at its attempt holds a value of the same key that is at least as new. */
  ghost predicate Superseded<K(!new), D(!new)>(c: Config<K, D>, t: seq<Record<K, D>>, d: Record<K, D>)
    requires |t| == c.count > 0
  {
    var r := t[Slot(c, d.key, d.attempt)];
    r.key == d.key && r.attempt == d.attempt && r.value.age >= d.value.age
  }

  /** All places that a Get could find the record in hold values that are at least as new. */
  ghost predicate Crowded<K(!new), D(!new)>(c: Config<K, D>, t: seq<Record<K, D>>, d: Record<K, D>)
    requires |t| == c.count > 0
  {
    d.attempt + 1 >= c.maxGet && PathNewer(c, t, d.(attempt := d.attempt + 1))
  }

  ghost function Lost<K(!new), D(!new)>(d: Option<Record<K, D>>, e: int): multiset<(K, Value<D>)> {
    if d.None? then multiset{} else One(d.value, e)
  }

  ghost function AttemptOfLost<K(!new), D(!new)>(d: Option<Record<K, D>>, e: int): nat {
    if d.None? then 0 else AttemptOf(d.value, e)
  }

  /** What became of the records: `lost` is the one that is not in the table any more, if any. Each time a record was
      moved on, its attempt grew by one. */
  ghost predicate Conserves<K(!new), D(!new)>(t: seq<Record<K, D>>, r: Record<K, D>, e: int, t': seq<Record<K, D>>,
      lost: Option<Record<K, D>>, moves: nat) {
    && Live(t', e) + Lost(lost, e) == Live(t, e) + One(r, e)
    && Depth(t', e) + AttemptOfLost(lost, e) == Depth(t, e) + AttemptOf(r, e) + moves
    && (lost.Some? ==> lost.value.value.age >= e)
  }

  /** Replacing one record by another, and then keeping all but one, keeps all but one. */
  lemma ConservesOn<K(!new), D(!new)>(t: seq<Record<K, D>>, r: Record<K, D>, e: int, u: seq<Record<K, D>>,
      held: Record<K, D>, t': seq<Record<K, D>>, lost: Option<Record<K, D>>, moves: nat)
    requires r.value.age >= e && held.value.age >= e
    requires Live(u, e) + One(held, e) == Live(t, e) + One(r, e)
             && Depth(u, e) + held.attempt == Depth(t, e) + r.attempt
    requires Conserves(u, held.(attempt := held.attempt + 1), e, t', lost, moves)
    ensures Conserves(t, r, e, t', lost, moves + 1)
  {
  }

  ghost predicate MayLose<K(!new), D(!new)>(c: Config<K, D>, t': seq<Record<K, D>>, d: Record<K, D>, usedUp: bool)
    requires |t'| == c.count > 0
  {
    usedUp || Superseded(c, t', d) || Crowded(c, t', d)
  }

  /** A Put loses no record, or one that a newer value of its key took the place of, one that all of its places are
      taken for, or the one in hand when all iterations are used up. */
  lemma {:induction false} PutConserves<K(!new), D(!new)>(c: Config<K, D>, t: seq<Record<K, D>>,
      puts: set<(K, Value<D>)>, r: Record<K, D>, e: int, iteration: nat)
      returns (lost: Option<Record<K, D>>, moves: nat)
    requires c.count > 0 && TableOk(c, t, puts) && InHand(c, t, puts, r, iteration) && e > c.initial.value.age
    requires r.value.age >= e && iteration <= c.maxPut + 1
    ensures Conserves(t, r, e, PutFrom(c, t, r, e, iteration), lost, moves) && iteration + moves <= c.maxPut + 1
    ensures lost.Some? ==> MayLose(c, PutFrom(c, t, r, e, iteration), lost.value, iteration + moves == c.maxPut + 1)
    decreases c.maxPut - iteration
  {
    lost, moves := None, 0;
    if iteration > c.maxPut {
      lost := Some(r);
    } else {
      var i := Slot(c, r.key, r.attempt);
      Replaced(t, e, i, r);
      if t[i].value.age < e {
      } else if t[i].key == r.key && t[i].attempt == r.attempt {
        lost := Some(if t[i].value.age < r.value.age then t[i] else r);
      } else {
        lost, moves := Displaced(c, t, puts, r, e, iteration, i, PutFrom(c, t, r, e, iteration));
      }
    }
  }

  /** The older of two records is taken out of the place, and the newer one is in it. */
  lemma Swapped<K(!new), D(!new)>(c: Config<K, D>, t: seq<Record<K, D>>, puts: set<(K, Value<D>)>, r: Record<K, D>,
      e: int, i: nat) returns (u: seq<Record<K, D>>, held: Record<K, D>)
    requires c.count > 0 && TableOk(c, t, puts) && PathNewer(c, t, r) && r.attempt < Reach(c)
    requires i == Slot(c, r.key, r.attempt) && (r.key, r.value) in puts
    requires r.value.age >= e > c.initial.value.age && t[i].value.age >= e
    ensures (u, held) == if t[i].value.age < r.value.age then (t[i := r], t[i]) else (t, r)
    ensures TableOk(c, u, puts) && Newer(t, u) && PathNewer(c, t, held) && (held.key, held.value) in puts
    ensures i == Slot(c, held.key, held.attempt) && u[i].value.age >= held.value.age >= e
    ensures Live(u, e) + One(held, e) == Live(t, e) + One(r, e)
            && Depth(u, e) + held.attempt == Depth(t, e) + r.attempt
  {
    assert SlotOk(c, t, puts, i);
    u, held := t, r;
    if t[i].value.age < r.value.age {
      u, held := t[i := r], t[i];
      Replaced(t, e, i, r);
      WriteKeeps(c, t, puts, r, i);
    }
  }

  lemma NoPlaceLeft<K(!new), D(!new)>(c: Config<K, D>, t: seq<Record<K, D>>, u: seq<Record<K, D>>, held: Record<K, D>,
      i: nat)
    requires |t| == c.count > 0 && Newer(t, u) && PathNewer(c, t, held) && held.attempt + 1 >= c.maxGet
    requires i == Slot(c, held.key, held.attempt) && u[i].value.age >= held.value.age
    ensures Crowded(c, u, held)
  {
    StillNewer(c, t, u, held);
  }

  lemma PutMoves<K(!new), D(!new)>(c: Config<K, D>, t: seq<Record<K, D>>, r: Record<K, D>, e: int, iteration: nat,
      i: nat, u: seq<Record<K, D>>, held: Record<K, D>)
    requires |t| == c.count > 0 && r.value.age >= e && iteration <= c.maxPut && i == Slot(c, r.key, r.attempt)
    requires t[i].value.age >= e && !(t[i].key == r.key && t[i].attempt == r.attempt)
    requires (u, held) == if t[i].value.age < r.value.age then (t[i := r], t[i]) else (t, r)
    ensures PutFrom(c, t, r, e, iteration) ==
            if held.attempt + 1 >= c.maxGet then u
            else PutFrom(c, u, held.(attempt := held.attempt + 1), e, iteration + 1)
  {
  }

  /** The part of Put in which the older of two records is moved on. */
  lemma {:induction false} Displaced<K(!new), D(!new)>(c: Config<K, D>, t: seq<Record<K, D>>,
      puts: set<(K, Value<D>)>, r: Record<K, D>, e: int, iteration: nat, i: nat, t': seq<Record<K, D>>)
      returns (lost: Option<Record<K, D>>, moves: nat)
    requires c.count > 0 && TableOk(c, t, puts) && InHand(c, t, puts, r, iteration) && e > c.initial.value.age
    requires r.value.age >= e && iteration <= c.maxPut && i == Slot(c, r.key, r.attempt)
    requires t[i].value.age >= e && !(t[i].key == r.key && t[i].attempt == r.attempt)
    requires t' == PutFrom(c, t, r, e, iteration)
    ensures Conserves(t, r, e, t', lost, moves) && iteration + moves <= c.maxPut + 1
    ensures lost.Some? ==> MayLose(c, t', lost.value, iteration + moves == c.maxPut + 1)
    decreases c.maxPut - iteration, 0
  {
    var u, held := Swapped(c, t, puts, r, e, i);
    PutMoves(c, t, r, e, iteration, i, u, held);
    if held.attempt + 1 >= c.maxGet {
      lost, moves := Some(held), 0;
      NoPlaceLeft(c, t, u, held, i);
    } else {
      var next := held.(attempt := held.attempt + 1);
      NextInHand(c, t, u, puts, held, i, iteration);
      lost, moves := PutConserves(c, u, puts, next, e, iteration + 1);
      ConservesOn(t, r, e, u, held, t', lost, moves);
      moves := moves + 1;
    }
  }

  /** A Put of a value that is below the bound changes nothing. */
  lemma {:induction false} ExpiredPut<K(!new), D(!new)>(c: Config<K, D>, t: seq<Record<K, D>>, r: Record<K, D>, e: int,
      iteration: nat)
    requires |t| == c.count > 0 && r.value.age < e
    ensures PutFrom(c, t, r, e, iteration) == t
    decreases c.maxPut - iteration
  {
    var i := Slot(c, r.key, r.attempt);
    if iteration <= c.maxPut && t[i].value.age >= e && r.attempt + 1 < c.maxGet {
      ExpiredPut(c, t, r.(attempt := r.attempt + 1), e, iteration + 1);
    }
  }
}
