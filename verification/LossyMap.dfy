/** The lossy hash map: records are displaced by age, so that older ones lie deeper on
    a probe path and a lookup may stop at the first expired one. */
module LossyMap {
  import ProbeTable
  import opened Options

  /** A value is compared by its age alone; higher is newer. */
  datatype Value<+D> = Value(age: int, data: D)

  datatype Record<+K, +D> = Record(key: K, attempt: nat, value: Value<D>)

  /** The parameters of a map, and the record that fresh slots hold. */
  datatype Config<!K, +D> = Config(hasher: (K, nat) -> nat, count: nat, maxGet: nat, maxPut: int, initial: Record<K, D>)

  /** The slot of a key at an attempt. */
  function Slot<K, D>(c: Config<K, D>, key: K, attempt: nat): (s: nat)
    requires c.count > 0
    ensures s < c.count
  {
    ProbeTable.Masked(c.hasher(key, attempt), c.count)
  }

  // ---- What the loops compute ----

  function GetFrom<K(==), D>(c: Config<K, D>, t: seq<Record<K, D>>, key: K, e: int, attempt: nat): Option<Value<D>>
    requires |t| == c.count > 0
    decreases c.maxGet - attempt
  {
    var r := t[Slot(c, key, attempt)];
    if r.value.age < e then None
    else if r.key == key && r.attempt == attempt then Some(r.value)
    else if attempt + 1 >= c.maxGet then None
    else GetFrom(c, t, key, e, attempt + 1)
  }

  /** A write through the lower bound: values below it are suppressed. */
  function Write<K, D>(t: seq<Record<K, D>>, i: nat, r: Record<K, D>, e: int): seq<Record<K, D>>
    requires i < |t|
  {
    if r.value.age < e then t else t[i := r]
  }

  function PutFrom<K(==), D>(c: Config<K, D>, t: seq<Record<K, D>>, r: Record<K, D>, e: int,
      iteration: nat): (t': seq<Record<K, D>>)
    requires |t| == c.count > 0
    ensures |t'| == |t|
    decreases c.maxPut - iteration
  {
    if iteration > c.maxPut then t
    else
      var i := Slot(c, r.key, r.attempt);
      if t[i].value.age < e then Write(t, i, r, e)
      else if t[i].key == r.key && t[i].attempt == r.attempt then
        if t[i].value.age < r.value.age then Write(t, i, r, e) else t
      else
        var (u, held) := if t[i].value.age < r.value.age then (Write(t, i, r, e), t[i]) else (t, r);
        if held.attempt + 1 >= c.maxGet then u
        else PutFrom(c, u, held.(attempt := held.attempt + 1), e, iteration + 1)
  }

  // ---- The path invariant ----

  /** How deep records can get: an attempt that Get can reach, and with a single
      iteration per Put no deeper than the first. */
  ghost function Reach<K, D>(c: Config<K, D>): nat {
    if c.maxPut <= 0 then 0 else if c.maxPut == 1 || c.maxGet == 0 then 1 else c.maxGet
  }

  /** The slots on the record's path before its own attempt hold values at least as new. */
  ghost predicate PathNewer<K(!new), D(!new)>(c: Config<K, D>, t: seq<Record<K, D>>, r: Record<K, D>)
    requires |t| == c.count > 0
  {
    forall a: nat :: a < r.attempt ==> t[Slot(c, r.key, a)].value.age >= r.value.age
  }

  /** A slot is fresh, or holds a record that was put, in the record's own place. */
  ghost predicate SlotOk<K(!new), D(!new)>(c: Config<K, D>, t: seq<Record<K, D>>, puts: set<(K, Value<D>)>, i: nat)
    requires |t| == c.count > 0 && i < |t|
  {
    || t[i] == c.initial
    || (&& t[i].value.age > c.initial.value.age && i == Slot(c, t[i].key, t[i].attempt) && t[i].attempt < Reach(c)
        && PathNewer(c, t, t[i]) && (t[i].key, t[i].value) in puts)
  }

  ghost predicate TableOk<K(!new), D(!new)>(c: Config<K, D>, t: seq<Record<K, D>>, puts: set<(K, Value<D>)>)
    requires c.count > 0
  {
    |t| == c.count && forall i :: 0 <= i < |t| ==> SlotOk(c, t, puts, i)
  }

  /** No slot holds an older value than before. */
  ghost predicate Newer<K, D>(t: seq<Record<K, D>>, t': seq<Record<K, D>>) {
    |t'| == |t| && forall i :: 0 <= i < |t| ==> t[i].value.age <= t'[i].value.age
  }

  lemma StillNewer<K(!new), D(!new)>(c: Config<K, D>, t: seq<Record<K, D>>, t': seq<Record<K, D>>, r: Record<K, D>)
    requires |t| == c.count > 0 && Newer(t, t') && PathNewer(c, t, r)
    ensures PathNewer(c, t', r)
  {
  }

  /** Writing a record in its place keeps the invariant when it replaces an older value. */
  lemma WriteKeeps<K(!new), D(!new)>(c: Config<K, D>, t: seq<Record<K, D>>, puts: set<(K, Value<D>)>, r: Record<K, D>,
      i: nat)
    requires c.count > 0 && TableOk(c, t, puts) && PathNewer(c, t, r) && r.attempt < Reach(c)
    requires i == Slot(c, r.key, r.attempt) && t[i].value.age < r.value.age
    requires r.value.age > c.initial.value.age && (r.key, r.value) in puts
    ensures TableOk(c, t[i := r], puts) && Newer(t, t[i := r])
  {
    var t' := t[i := r];
    StillNewer(c, t, t', r);
    forall s | 0 <= s < |t'| ensures SlotOk(c, t', puts, s) {
      assert SlotOk(c, t, puts, s);
      if s != i && t[s] != c.initial {
        StillNewer(c, t, t', t[s]);
      }
    }
  }

  /** What the record in hand satisfies while Put runs. */
  ghost predicate InHand<K(!new),
      D(!new)>(c: Config<K, D>, t: seq<Record<K, D>>, puts: set<(K, Value<D>)>, r: Record<K, D>, iteration: nat)
    requires |t| == c.count > 0
  {
    && PathNewer(c, t, r) && (r.key, r.value) in puts
    && iteration > 0 && (iteration <= c.maxPut ==> r.attempt < Reach(c))
  }

  /** Every Put keeps the invariant, whatever chain of displacements it causes, and touches no slot
      whose value is at least as new as the record in hand. */
  lemma {:induction false} PutKeeps<K(!new),
      D(!new)>(c: Config<K, D>, t: seq<Record<K, D>>, puts: set<(K, Value<D>)>, r: Record<K, D>, e: int, iteration: nat)
    requires c.count > 0 && TableOk(c, t, puts) && InHand(c, t, puts, r, iteration) && e > c.initial.value.age
    ensures TableOk(c, PutFrom(c, t, r, e, iteration), puts) && Newer(t, PutFrom(c, t, r, e, iteration))
    ensures forall i :: 0 <= i < |t| && t[i].value.age >= r.value.age ==> PutFrom(c, t, r, e, iteration)[i] == t[i]
    decreases c.maxPut - iteration
  {
    if iteration <= c.maxPut {
      var i := Slot(c, r.key, r.attempt);
      assert SlotOk(c, t, puts, i);
      if t[i].value.age < r.value.age && r.value.age >= e {
        WriteKeeps(c, t, puts, r, i);
      }
      if t[i].value.age >= e && !(t[i].key == r.key && t[i].attempt == r.attempt) {
        var (u, held) := if t[i].value.age < r.value.age then (t[i := r], t[i]) else (t, r);
        if held.attempt + 1 < c.maxGet {
          var next := held.(attempt := held.attempt + 1);
          NextInHand(c, t, u, puts, held, i, iteration);
          PutKeeps(c, u, puts, next, e, iteration + 1);
        }
      }
    }
  }

  /** A record that finds a newer value in its place moves on to the next attempt. */
  lemma NextInHand<K(!new), D(!new)>(c: Config<K, D>, t: seq<Record<K, D>>, u: seq<Record<K, D>>,
      puts: set<(K, Value<D>)>, held: Record<K, D>, i: nat, iteration: nat)
    requires |t| == c.count > 0 && Newer(t, u) && PathNewer(c, t, held) && (held.key, held.value) in puts
    requires i == Slot(c, held.key, held.attempt) && u[i].value.age >= held.value.age
    requires 0 < iteration && held.attempt + 1 < c.maxGet
    ensures InHand(c, u, puts, held.(attempt := held.attempt + 1), iteration + 1)
  {
    StillNewer(c, t, u, held);
  }

  // ---- Get ----

  ghost predicate HoldsKey<K(!new), D(!new)>(c: Config<K, D>, t: seq<Record<K, D>>, key: K, i: nat) {
    i < |t| && t[i] != c.initial && t[i].key == key
  }

  /** What Get may return: the newest of the stored values of the key that are not below the bound, if there is one. */
  ghost predicate NewestLive<K(!new),
      D(!new)>(c: Config<K, D>, t: seq<Record<K, D>>, key: K, e: int, r: Option<Value<D>>) {
    match r
    case None => forall i: nat :: HoldsKey(c, t, key, i) ==> t[i].value.age < e
    case Some(v) =>
      && v.age >= e && (exists i: nat :: HoldsKey(c, t, key, i) && t[i].value == v)
      && (forall i: nat :: HoldsKey(c, t, key, i) ==> t[i].value.age <= v.age)
  }

  /** The records of the key lie no earlier on its path than this attempt. */
  ghost predicate NotEarlier<K(!new), D(!new)>(c: Config<K, D>, t: seq<Record<K, D>>, key: K, attempt: nat) {
    forall i: nat :: HoldsKey(c, t, key, i) ==> t[i].attempt >= attempt
  }

  /** Stopping at an expired slot never hides a live record. */
  lemma {:induction false} GetIsNewestLive<K(!new),
      D(!new)>(c: Config<K, D>, t: seq<Record<K, D>>, puts: set<(K, Value<D>)>, key: K, e: int, attempt: nat)
    requires c.count > 0 && TableOk(c, t, puts) && e > c.initial.value.age && NotEarlier(c, t, key, attempt)
    ensures NewestLive(c, t, key, e, GetFrom(c, t, key, e, attempt))
    decreases c.maxGet - attempt
  {
    var s := Slot(c, key, attempt);
    forall i: nat | HoldsKey(c, t, key, i)
      ensures t[i].value.age <= t[s].value.age && (t[i].attempt == attempt ==> i == s) && t[i].attempt < Reach(c)
    {
      assert SlotOk(c, t, puts, i);
    }
    if t[s].value.age >= e {
      if t[s].key == key && t[s].attempt == attempt {
        assert HoldsKey(c, t, key, s);
      } else if attempt + 1 < c.maxGet {
        GetIsNewestLive(c, t, puts, key, e, attempt + 1);
      }
    }
  }

  // ---- Get after Put ----

  /** Up to some attempt the path of the key holds values at least as new as `age`, and that attempt
      is out of reach or holds the key itself. */
  ghost predicate Settled<K(!new), D(!new)>(c: Config<K, D>, t: seq<Record<K, D>>, key: K, age: int, p: nat)
    requires |t| == c.count > 0
  {
    && (forall a: nat :: a < p ==> t[Slot(c, key, a)].value.age >= age)
    && (p >= Reach(c) ||
        var r := t[Slot(c, key, p)]; r.key == key && r.attempt == p && r.value.age >= age)
  }

  /** A record that displaces another stays where it is for the rest of the Put. */
  lemma DisplacingStays<K(!new),
      D(!new)>(c: Config<K, D>, t: seq<Record<K, D>>, puts: set<(K, Value<D>)>, r: Record<K, D>, e: int, iteration: nat,
      i: nat)
    requires c.count > 0 && TableOk(c, t, puts) && InHand(c, t, puts, r, iteration) && e > c.initial.value.age
    requires iteration <= c.maxPut && i == Slot(c, r.key, r.attempt) && e <= t[i].value.age < r.value.age
    requires !(t[i].key == r.key && t[i].attempt == r.attempt)
    ensures PutFrom(c, t, r, e, iteration)[i] == r
  {
    WriteKeeps(c, t, puts, r, i);
    var held := t[i];
    assert SlotOk(c, t, puts, i);
    if held.attempt + 1 < c.maxGet {
      NextInHand(c, t, t[i := r], puts, held, i, iteration);
      PutKeeps(c, t[i := r], puts, held.(attempt := held.attempt + 1), e, iteration + 1);
    }
  }

  /** With enough iterations left, Put settles the key of the record in hand. */
  lemma {:induction false} PutSettles<K(!new),
      D(!new)>(c: Config<K, D>, t: seq<Record<K, D>>, puts: set<(K, Value<D>)>, r: Record<K, D>, e: int, iteration: nat)
    returns (p: nat)
    requires c.count > 0 && TableOk(c, t, puts) && InHand(c, t, puts, r, iteration) && e > c.initial.value.age
    requires r.value.age >= e && r.attempt <= Reach(c) && iteration + Reach(c) - r.attempt <= c.maxPut + 1
    ensures Settled(c, PutFrom(c, t, r, e, iteration), r.key, r.value.age, p)
    decreases Reach(c) - r.attempt
  {
    var t' := PutFrom(c, t, r, e, iteration);
    PutKeeps(c, t, puts, r, e, iteration);
    StillNewer(c, t, t', r);
    p := r.attempt;
    if r.attempt < Reach(c) {
      var i := Slot(c, r.key, r.attempt);
      assert SlotOk(c, t, puts, i);
      if t[i].value.age < e || (t[i].key == r.key && t[i].attempt == r.attempt) {
      } else if t[i].value.age < r.value.age {
        DisplacingStays(c, t, puts, r, e, iteration, i);
      } else {
        p := r.attempt + 1;
        if r.attempt + 1 < c.maxGet && c.maxPut > 1 {
          NextInHand(c, t, t, puts, r, i, iteration);
          p := PutSettles(c, t, puts, r.(attempt := r.attempt + 1), e, iteration + 1);
        }
      }
    }
  }

  /** A settled key is not read with an older value. */
  lemma {:induction false} SettledIsFresh<K(!new),
      D(!new)>(c: Config<K, D>, t: seq<Record<K, D>>, puts: set<(K, Value<D>)>, key: K, e: int, age: int, p: nat,
      attempt: nat)
    requires c.count > 0 && TableOk(c, t, puts) && e > c.initial.value.age
    requires Settled(c, t, key, age, p) && attempt <= p
    ensures var r := GetFrom(c, t, key, e, attempt); r.Some? ==> r.value.age >= age
    decreases c.maxGet - attempt
  {
    var s := Slot(c, key, attempt);
    assert SlotOk(c, t, puts, s);
    if t[s].value.age >= e && !(t[s].key == key && t[s].attempt == attempt) && attempt + 1 < c.maxGet {
      if attempt < p {
        SettledIsFresh(c, t, puts, key, e, age, p, attempt + 1);
      } else {
        BeyondReach(c, t, puts, key, e, attempt + 1);
      }
    }
  }

  lemma {:induction false} BeyondReach<K(!new),
      D(!new)>(c: Config<K, D>, t: seq<Record<K, D>>, puts: set<(K, Value<D>)>, key: K, e: int, attempt: nat)
    requires c.count > 0 && TableOk(c, t, puts) && e > c.initial.value.age && attempt >= Reach(c)
    ensures GetFrom(c, t, key, e, attempt).None?
    decreases c.maxGet - attempt
  {
    assert SlotOk(c, t, puts, Slot(c, key, attempt));
    if attempt + 1 < c.maxGet {
      BeyondReach(c, t, puts, key, e, attempt + 1);
    }
  }

  /** With at least as many iterations as attempts, or at most one iteration, a Get right after a
      Put does not return an older value. */
  lemma GetAfterPut<K(!new), D(!new)>(c: Config<K, D>, t: seq<Record<K, D>>, puts: set<(K, Value<D>)>, key: K,
      v: Value<D>, e: int)
    requires c.count > 0 && TableOk(c, t, puts) && e > c.initial.value.age && v.age >= e
    requires c.maxPut >= c.maxGet || c.maxPut <= 1
    ensures var r := GetFrom(c, PutFrom(c, t, Record(key, 0, v), e, 1), key, e, 0);
            r.Some? ==> r.value.age >= v.age
  {
    var r := Record(key, 0, v);
    MorePuts(c, t, puts, puts + {(key, v)});
    PutKeeps(c, t, puts + {(key, v)}, r, e, 1);
    var p := 0;
    if c.maxPut > 0 {
      p := PutSettles(c, t, puts + {(key, v)}, r, e, 1);
    }
    SettledIsFresh(c, PutFrom(c, t, r, e, 1), puts + {(key, v)}, key, e, v.age, p, 0);
  }

  lemma MorePuts<K(!new), D(!new)>(c: Config<K, D>, t: seq<Record<K, D>>, puts: set<(K, Value<D>)>,
      more: set<(K, Value<D>)>)
    requires c.count > 0 && TableOk(c, t, puts) && puts <= more
    ensures TableOk(c, t, more)
  {
    forall i | 0 <= i < |t| ensures SlotOk(c, t, more, i) {
      assert SlotOk(c, t, puts, i);
    }
  }

  // ---- Runs ----

  datatype PutCall<+K, +D> = PutCall(key: K, value: Value<D>, bound: int)

  /** The table after a sequence of Puts on a fresh one. */
  ghost function Run<K, D>(c: Config<K, D>, calls: seq<PutCall<K, D>>): (t: seq<Record<K, D>>)
    requires c.count > 0
    ensures |t| == c.count
  {
    if calls == [] then seq(c.count, _ => c.initial)
    else
      var n := |calls| - 1;
      PutFrom(c, Run(c, calls[..n]), Record(calls[n].key, 0, calls[n].value), calls[n].bound, 1)
  }

  ghost function PutsOf<K, D>(calls: seq<PutCall<K, D>>): set<(K, Value<D>)> {
    set i | 0 <= i < |calls| :: (calls[i].key, calls[i].value)
  }

  /** The bounds lie above the value that fresh slots hold. */
  ghost predicate BoundsAbove<K, D>(c: Config<K, D>, calls: seq<PutCall<K, D>>) {
    forall i :: 0 <= i < |calls| ==> calls[i].bound > c.initial.value.age
  }

  lemma PutKeepsAll<K(!new), D(!new)>(c: Config<K, D>, t: seq<Record<K, D>>, puts: set<(K, Value<D>)>, key: K,
      v: Value<D>, e: int)
    requires c.count > 0 && TableOk(c, t, puts) && e > c.initial.value.age
    ensures TableOk(c, PutFrom(c, t, Record(key, 0, v), e, 1), puts + {(key, v)})
  {
    MorePuts(c, t, puts, puts + {(key, v)});
    PutKeeps(c, t, puts + {(key, v)}, Record(key, 0, v), e, 1);
  }

  /** The path invariant holds after every run. */
  lemma {:induction false} RunOk<K(!new), D(!new)>(c: Config<K, D>, calls: seq<PutCall<K, D>>)
    requires c.count > 0 && BoundsAbove(c, calls)
    ensures TableOk(c, Run(c, calls), PutsOf(calls))
  {
    if calls != [] {
      var n := |calls| - 1;
      RunOk(c, calls[..n]);
      PutKeepsAll(c, Run(c, calls[..n]), PutsOf(calls[..n]), calls[n].key, calls[n].value, calls[n].bound);
      assert PutsOf(calls) == PutsOf(calls[..n]) + {(calls[n].key, calls[n].value)};
    }
  }

  /** After every run, Get returns the newest live stored value of the key, one that was put for it. */
  lemma GetAfterRun<K(!new), D(!new)>(c: Config<K, D>, calls: seq<PutCall<K, D>>, key: K, e: int)
    requires c.count > 0 && BoundsAbove(c, calls) && e > c.initial.value.age
    ensures var r := GetFrom(c, Run(c, calls), key, e, 0);
            && NewestLive(c, Run(c, calls), key, e, r)
            && (r.Some? ==> (key, r.value) in PutsOf(calls))
  {
    RunOk(c, calls);
    GetIsNewestLive(c, Run(c, calls), PutsOf(calls), key, e, 0);
    var t, r := Run(c, calls), GetFrom(c, Run(c, calls), key, e, 0);
    if r.Some? {
      var i: nat :| HoldsKey(c, t, key, i) && t[i].value == r.value;
      assert SlotOk(c, t, PutsOf(calls), i);
    }
  }

  // ---- The objects ----

  /** A slice in memory. */
  class SimpleRecordArray<K, D> {
    const records: array<Record<K, D>>

    constructor (count: nat, initial: Record<K, D>)
      ensures fresh(records) && records[..] == seq(count, _ => initial)
    {
      records := new Record<K, D>[count](_ => initial);
    }

    method Get(index: nat) returns (r: Record<K, D>)
      requires index < records.Length
      ensures r == records[index]
    {
      r := records[index];
    }

    method Put(index: nat, r: Record<K, D>)
      requires index < records.Length
      modifies records
      ensures records[..] == old(records[..])[index := r]
    {
      records[index] := r;
    }
  }

  /** Suppresses records whose value is below a given one. */
  class LowerBoundComparingRecordArray<K, D> {
    const base: SimpleRecordArray<K, D>

    constructor (base: SimpleRecordArray<K, D>)
      ensures this.base == base
    {
      this.base := base;
    }

    /** None stands for an invalid or expired record. */
    method Get(index: nat, lowest: int) returns (r: Option<Record<K, D>>)
      requires index < base.records.Length
      ensures r == if base.records[index].value.age < lowest then None else Some(base.records[index])
    {
      var record := base.Get(index);
      r := if record.value.age < lowest then None else Some(record);
    }

    method Put(index: nat, r: Record<K, D>, lowest: int)
      requires index < base.records.Length
      modifies base.records
      ensures base.records[..] == Write(old(base.records[..]), index, r, lowest)
    {
      if r.value.age < lowest {
        return;
      }
      base.Put(index, r);
    }
  }

  class HashMap<K(==, !new), D(!new)> {
    const recordArray: LowerBoundComparingRecordArray<K, D>
    const c: Config<K, D>

    ghost predicate Sized() {
      recordArray.base.records.Length == c.count > 0
    }

    ghost function Table(): seq<Record<K, D>>
      reads recordArray.base.records
    {
      recordArray.base.records[..]
    }

    constructor (c: Config<K, D>)
      requires c.count > 0
      ensures Sized() && this.c == c && fresh(recordArray.base.records) && Table() == Run(c, [])
    {
      var base := new SimpleRecordArray(c.count, c.initial);
      var bounded := new LowerBoundComparingRecordArray(base);
      this.recordArray, this.c := bounded, c;
    }

    method Get(key: K, bound: int) returns (r: Option<Value<D>>)
      requires Sized()
      ensures r == GetFrom(c, Table(), key, bound, 0)
    {
      var attempt := 0;
      while true
        invariant GetFrom(c, Table(), key, bound, attempt) == GetFrom(c, Table(), key, bound, 0)
        decreases c.maxGet - attempt
      {
        var record := recordArray.Get(Slot(c, key, attempt), bound);
        if record.None? {
          return None;
        }
        if record.value.key == key && record.value.attempt == attempt {
          return Some(record.value.value);
        }
        attempt := attempt + 1;
        if attempt >= c.maxGet {
          return None;
        }
      }
    }

    method Put(key: K, value: Value<D>, bound: int)
      requires Sized()
      modifies recordArray.base.records
      ensures Table() == PutFrom(c, old(Table()), Record(key, 0, value), bound, 1)
    {
      var record := Record(key, 0, value);
      var iteration := 1;
      while iteration <= c.maxPut
        invariant iteration >= 1
        invariant PutFrom(c, Table(), record, bound, iteration)
                  == PutFrom(c, old(Table()), Record(key, 0, value), bound, 1)
        decreases c.maxPut - iteration
      {
        var index := Slot(c, record.key, record.attempt);
        var oldRecord := recordArray.Get(index, bound);
        if oldRecord.None? {
          recordArray.Put(index, record, bound);
          return;
        }
        if oldRecord.value.key == record.key && oldRecord.value.attempt == record.attempt {
          if oldRecord.value.value.age < record.value.age {
            recordArray.Put(index, record, bound);
          }
          return;
        }
        if oldRecord.value.value.age < record.value.age {
          recordArray.Put(index, record, bound);
          record := oldRecord.value;
        }
        record := record.(attempt := record.attempt + 1);
        if record.attempt >= c.maxGet {
          return;
        }
        iteration := iteration + 1;
      }
    }
  }
}
