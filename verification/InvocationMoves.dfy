/** Moving all operations of a task in and out of the queues and execution counters of
    their invocations. */
module InvocationMoves {
  import opened InvocationTree

  // ---- Executing ----

  ghost predicate ExecAdded(ew: map<Path, map<nat, nat>>, ew': map<Path, map<nat, nat>>, ps: set<Path>, w: nat) {
    forall i: Path, v: nat :: ExecAt(ew', i, v) == ExecAt(ew, i, v) + if v == w && i != [] then Count(ps, i) else 0
  }

  lemma AddedOne(ew: map<Path, map<nat, nat>>, mid: map<Path, map<nat, nat>>, ew': map<Path, map<nat, nat>>,
      ps: set<Path>, p: Path, w: nat)
    requires ExecAdded(ew, mid, ps, w) && p !in ps && ExecRaised(mid, ew', p, w, 0)
    ensures ExecAdded(ew, ew', ps + {p}, w)
  {
    forall i: Path, v: nat ensures ExecAt(ew', i, v) == ExecAt(ew, i, v) + if v == w && i != [] then Count(ps + {p}, i)
      else 0 {
      CountAdd(ps, p, i);
    }
  }

  method IncrementAll(ew: map<Path, map<nat, nat>>, ps: set<Path>, w: nat) returns (ew': map<Path, map<nat, nat>>)
    requires Positive(ew)
    ensures Positive(ew') && ExecAdded(ew, ew', ps, w)
  {
    ew' := ew;
    var rest := ps;
    assert forall i: Path :: Count({}, i) == 0;
    assert ps - rest == {};
    while rest != {}
      invariant rest <= ps && Positive(ew') && ExecAdded(ew, ew', ps - rest, w)
    {
      var p :| p in rest;
      ghost var mid := ew';
      ew' := IncrementExecuting(ew', p, w);
      AddedOne(ew, mid, ew', ps - rest, p, w);
      assert ps - rest + {p} == ps - (rest - {p});
      rest := rest - {p};
    }
    assert ps - {} == ps;
  }

  /** An invocation is executing after the increments if it was before, or an operation lies at or below it. */
  lemma NowExecuting(ew: map<Path, map<nat, nat>>, ew': map<Path, map<nat, nat>>, ps: set<Path>, w: nat, i: Path)
    requires Positive(ew) && Positive(ew') && ExecAdded(ew, ew', ps, w) && i != []
    ensures Executing(ew', i) != map[] <==> Executing(ew, i) != map[] || Pending(ps, i)
  {
    HasWorker(ew, i);
    HasWorker(ew', i);
    CountPositive(ps, i);
    if Executing(ew', i) != map[] {
      var v :| ExecAt(ew', i, v) > 0;
      assert ExecAt(ew, i, v) > 0 || Count(ps, i) > 0;
    }
    if Executing(ew, i) != map[] {
      var v :| ExecAt(ew, i, v) > 0;
      assert ExecAt(ew', i, v) > 0;
    }
    assert Pending(ps, i) ==> ExecAt(ew', i, w) > 0;
  }

  /** A worker's counts are those of the given operations. */
  ghost predicate Counts(ew: map<Path, map<nat, nat>>, w: nat, ps: set<Path>) {
    forall i: Path :: i != [] ==> ExecAt(ew, i, w) == Count(ps, i)
  }

  /** An operation is counted beyond those that lie off the way to it. */
  lemma CountsExceed(ew: map<Path, map<nat, nat>>, w: nat, ps: set<Path>, p: Path)
    requires Counts(ew, w, ps) && p in ps
    ensures ExecExceeds(ew, p, w) && forall i: Path :: i != [] && i <= p ==> ExecAt(ew, i, w) > 0
  {
    forall i: Path, j: Path | i != [] && i <= p && i <= j && !(j <= p)
      ensures ExecAt(ew, j, w) < ExecAt(ew, i, w)
    {
      var below, above := set q | q in ps && j <= q, set q | q in ps && i <= q;
      assert p in above - below && below <= above - {p};
      SubsetSize(below, above - {p});
    }
    forall i: Path | i != [] && i <= p ensures ExecAt(ew, i, w) > 0 {
      CountPositive(ps, i);
    }
  }

  lemma CountsLess(ew: map<Path, map<nat, nat>>, ew': map<Path, map<nat, nat>>, w: nat, ps: set<Path>, p: Path)
    requires Counts(ew, w, ps) && p in ps && ExecLowered(ew, ew', p, w, 0)
    ensures Counts(ew', w, ps - {p})
  {
    forall i: Path | i != [] ensures ExecAt(ew', i, w) == Count(ps - {p}, i) {
      CountAdd(ps - {p}, p, i);
      assert ps - {p} + {p} == ps;
    }
  }

  /** decrementExecutingWorkersCount for all operations that a worker executes. */
  method DecrementAll(children: set<Path>, load: Load, ps: set<Path>, w: nat)
      returns (children': set<Path>, load': Load)
    requires Linked(children, load, {}) && Upward(load) && Counts(load.executingWorkers, w, ps)
    ensures Linked(children', load', {}) && Upward(load')
    ensures load' == load.(executingWorkers := load'.executingWorkers)
    ensures ExecAdded(load'.executingWorkers, load.executingWorkers, ps, w)
  {
    children', load' := children, load;
    var rest := ps;
    assert forall i: Path :: Count({}, i) == 0;
    assert ps - rest == {};
    while rest != {}
      invariant rest <= ps && Linked(children', load', {}) && Upward(load') && Counts(load'.executingWorkers, w, rest)
      invariant load' == load.(executingWorkers := load'.executingWorkers)
      invariant ExecAdded(load'.executingWorkers, load.executingWorkers, ps - rest, w)
    {
      var p :| p in rest;
      CountsExceed(load'.executingWorkers, w, rest, p);
      ghost var mid := load';
      children', load' := DecrementExecuting(children', load', p, w);
      CountsLess(mid.executingWorkers, load'.executingWorkers, w, rest, p);
      RemovedOne(load.executingWorkers, mid.executingWorkers, load'.executingWorkers, ps - rest, p, w);
      assert ps - rest + {p} == ps - (rest - {p});
      rest := rest - {p};
    }
    assert ps - {} == ps;
  }

  lemma {:induction false} SubsetSize<T>(a: set<T>, b: set<T>)
    requires a <= b
    ensures |a| <= |b|
  {
    if a != {} {
      var x :| x in a;
      SubsetSize(a - {x}, b - {x});
    }
  }

  lemma RemovedOne(ew: map<Path, map<nat, nat>>, mid: map<Path, map<nat, nat>>, ew': map<Path, map<nat, nat>>,
      ps: set<Path>, p: Path, w: nat)
    requires ExecAdded(mid, ew, ps, w) && p !in ps && ExecLowered(mid, ew', p, w, 0)
    ensures ExecAdded(ew', ew, ps + {p}, w)
  {
    forall i: Path, v: nat ensures ExecAt(ew, i, v) == ExecAt(ew', i, v) + if v == w && i != [] then Count(ps + {p}, i)
      else 0 {
      CountAdd(ps, p, i);
    }
  }

  // ---- Queued ----

  ghost predicate Put(base: map<Path, set<nat>>, base': map<Path, set<nat>>, ps: set<Path>, t: nat) {
    forall p: Path :: At(base', p) == At(base, p) + if p in ps then {t} else {}
  }

  ghost predicate Taken(base: map<Path, set<nat>>, base': map<Path, set<nat>>, ps: set<Path>, t: nat) {
    forall p: Path :: At(base', p) == At(base, p) - if p in ps then {t} else {}
  }

  /** operation.enqueue for one operation. */
  method EnqueueAt(base: map<Path, set<nat>>, kids: map<Path, set<nat>>, p: Path, t: nat)
    returns (base': map<Path, set<nat>>, kids': map<Path, set<nat>>)
    requires Listed(base, kids)
    ensures Listed(base', kids') && Put(base, base', {p}, t)
  {
    base' := base[p := At(base, p) + {t}];
    kids' := PushUp(kids, p);
    PushedListed(base, kids, base', kids', p);
  }

  method EnqueueAll(base: map<Path, set<nat>>, kids: map<Path, set<nat>>, ps: set<Path>, t: nat)
    returns (base': map<Path, set<nat>>, kids': map<Path, set<nat>>)
    requires Listed(base, kids)
    ensures Listed(base', kids') && Put(base, base', ps, t)
  {
    base', kids' := base, kids;
    var rest := ps;
    while rest != {}
      invariant rest <= ps && Listed(base', kids') && Put(base, base', ps - rest, t)
    {
      var p :| p in rest;
      base', kids' := EnqueueAt(base', kids', p, t);
      rest := rest - {p};
    }
  }

  lemma TakenOff(base: map<Path, set<nat>>, kids: map<Path, set<nat>>, base': map<Path, set<nat>>, p: Path, t: nat)
    requires Listed(base, kids) && t in At(base, p) && Taken(base, base', {p}, t)
    ensures ListedOff(base', kids, p, |p|)
  {
    forall i: Path, k: nat | i != []
      ensures if OnPath(i, k, p) && |i| < |p| then k in At(kids, i) else ListedAt(base', kids, i, k)
    {
      assert ListedAt(base, kids, i, k);
      if !OnPath(i, k, p) && Below(base, i + [k]) {
        var q :| i + [k] <= q && At(base, q) != {};
        assert At(base', q) != {};
      }
      if Below(base', i + [k]) {
        var q :| i + [k] <= q && At(base', q) != {};
        assert At(base, q) != {};
      }
    }
  }

  /** removeQueuedFromInvocation for one operation. */
  method DequeueAt(base: map<Path, set<nat>>, kids: map<Path, set<nat>>, p: Path, t: nat)
    returns (base': map<Path, set<nat>>, kids': map<Path, set<nat>>)
    requires Listed(base, kids) && t in At(base, p)
    ensures Listed(base', kids') && Taken(base, base', {p}, t)
  {
    base' := base[p := At(base, p) - {t}];
    TakenOff(base, kids, base', p, t);
    kids' := RemoveUp(base', kids, p);
  }

  method DequeueAll(base: map<Path, set<nat>>, kids: map<Path, set<nat>>, ps: set<Path>, t: nat)
    returns (base': map<Path, set<nat>>, kids': map<Path, set<nat>>)
    requires Listed(base, kids) && forall p :: p in ps ==> t in At(base, p)
    ensures Listed(base', kids') && Taken(base, base', ps, t)
  {
    base', kids' := base, kids;
    var rest := ps;
    while rest != {}
      invariant rest <= ps && Listed(base', kids') && Taken(base, base', ps - rest, t)
    {
      var p :| p in rest;
      base', kids' := DequeueAt(base', kids', p, t);
      rest := rest - {p};
    }
  }

  // ---- Counts below ----

  lemma CountUp(ps: set<Path>, i: Path, j: Path)
    requires i <= j
    ensures Count(ps, j) <= Count(ps, i)
  {
    SubsetSize(set p | p in ps && j <= p, set p | p in ps && i <= p);
  }

  /** Counting more operations keeps invocations ahead of those below them. */
  lemma AddedUp(load: Load, ew: map<Path, map<nat, nat>>, ps: set<Path>, w: nat)
    requires Upward(load) && Positive(ew) && ExecAdded(load.executingWorkers, ew, ps, w)
    ensures Upward(load.(executingWorkers := ew))
  {
    var load' := load.(executingWorkers := ew);
    forall i: Path, j: Path | i != [] && i <= j ensures UpAt(load', i, j) {
      assert UpAt(load, i, j);
      CountUp(ps, i, j);
    }
  }

  /** So does counting another idle worker. */
  lemma RaisedUp(load: Load, idle: map<Path, nat>, last: Path)
    requires Upward(load) && Raised(load.idleWorkersCount, idle, last)
    ensures Upward(load.(idleWorkersCount := idle))
  {
    var load' := load.(idleWorkersCount := idle);
    forall i: Path, j: Path | i != [] && i <= j ensures UpAt(load', i, j) {
      assert UpAt(load, i, j);
    }
  }

  lemma RequeuedUp(load: Load, qo: map<Path, set<nat>>, qc: map<Path, set<nat>>)
    requires Upward(load) && Listed(qo, qc)
    ensures Upward(load.(queuedOperations := qo, queuedChildren := qc))
  {
    var load' := load.(queuedOperations := qo, queuedChildren := qc);
    forall i: Path, j: Path | i != [] && i <= j ensures UpAt(load', i, j) {
      assert UpAt(load, i, j);
    }
  }

  // ---- Links ----

  /** Loads that grow on the given paths make good for links that were made ahead. */
  lemma LinkedByUse(children: set<Path>, load: Load, load': Load, ps: set<Path>)
    requires Linked(children, load, ps)
    requires forall i: Path :: |i| > 1 ==> (NonEmpty(load', i) <==> NonEmpty(load, i) || Pending(ps, i))
    ensures Linked(children, load', {})
  {
    forall i: Path | |i| > 1 ensures LinkedAt(children, load', {}, i) {
      assert LinkedAt(children, load, ps, i);
    }
  }
}
