/** Bookkeeping on the tree of invocations. An invocation is named by its path: its size
    class queue, then its invocation keys. Operations and workers sit at paths, and every
    invocation keeps counters and child sets for what sits at or below it, which the
    scheduler updates by climbing from a path to the root. */
module InvocationTree {
  type Path = seq<nat>

  // ---- Sets kept along a path ----

  function At(m: map<Path, set<nat>>, p: Path): set<nat> {
    if p in m then m[p] else {}
  }

  /** Something sits at or below i. */
  ghost predicate Below(base: map<Path, set<nat>>, i: Path) {
    exists p :: i <= p && At(base, p) != {}
  }

  /** Child k of i is listed exactly when something sits at or below it. */
  ghost predicate ListedAt(base: map<Path, set<nat>>, kids: map<Path, set<nat>>, i: Path, k: nat) {
    k in At(kids, i) <==> Below(base, i + [k])
  }

  /** Children are listed in their parents exactly when they should be. */
  ghost predicate Listed(base: map<Path, set<nat>>, kids: map<Path, set<nat>>) {
    forall i: Path, k: nat {:trigger ListedAt(base, kids, i, k)} :: i != [] ==> ListedAt(base, kids, i, k)
  }

  /** Given the children, an invocation can tell whether anything sits at or below it. */
  lemma BelowByChildren(base: map<Path, set<nat>>, kids: map<Path, set<nat>>, i: Path)
    requires forall k: nat {:trigger ListedAt(base, kids, i, k)} :: ListedAt(base, kids, i, k)
    ensures Below(base, i) <==> At(base, i) != {} || At(kids, i) != {}
  {
    if Below(base, i) && At(base, i) == {} {
      var p :| i <= p && At(base, p) != {};
      assert p != i && p[..|i|] == i;
      assert i + [p[|i|]] <= p;
      assert ListedAt(base, kids, i, p[|i|]);
    }
    if At(kids, i) != {} {
      var k :| k in At(kids, i);
      assert ListedAt(base, kids, i, k);
      var p :| i + [k] <= p && At(base, p) != {};
      assert i <= p;
    }
  }

  /** i with child k lies on the way to p. */
  ghost predicate OnPath(i: Path, k: nat, p: Path) {
    i != [] && i + [k] <= p
  }

  lemma PathStep(p: Path, n: nat, i: Path, k: nat)
    requires 0 < n < |p|
    ensures OnPath(i, k, p) && |i| == n <==> i == p[..n] && k == p[n]
  {
    if i == p[..n] && k == p[n] {
      assert i + [k] == p[..n + 1];
    }
    if OnPath(i, k, p) && |i| == n {
      assert i == (i + [k])[..n] == p[..n];
      assert (i + [k])[n] == p[n];
    }
  }

  /** The climb that lists a path in its parents. */
  method PushUp(kids: map<Path, set<nat>>, p: Path) returns (kids': map<Path, set<nat>>)
    ensures forall i, k :: k in At(kids', i) <==> k in At(kids, i) || OnPath(i, k, p)
  {
    kids' := kids;
    var n := |p|;
    while n > 1
      invariant n <= |p|
      invariant forall i, k :: k in At(kids', i) <==> k in At(kids, i) || (OnPath(i, k, p) && n <= |i|)
    {
      n := n - 1;
      forall i, k ensures OnPath(i, k, p) && |i| == n <==> i == p[..n] && k == p[n] {
        PathStep(p, n, i, k);
      }
      kids' := kids'[p[..n] := At(kids', p[..n]) + {p[n]}];
    }
  }

  /** Listing after something was put at p. */
  lemma PushedListed(base: map<Path, set<nat>>, kids: map<Path, set<nat>>, base': map<Path, set<nat>>,
      kids': map<Path, set<nat>>, p: Path)
    requires Listed(base, kids) && At(base', p) != {} && forall q :: q != p ==> At(base', q) == At(base, q)
    requires At(base, p) <= At(base', p)
    requires forall i, k :: k in At(kids', i) <==> k in At(kids, i) || OnPath(i, k, p)
    ensures Listed(base', kids')
  {
    forall i: Path, k: nat | i != [] ensures ListedAt(base', kids', i, k) {
      assert ListedAt(base, kids, i, k);
      if Below(base', i + [k]) {
        var q :| i + [k] <= q && At(base', q) != {};
        assert q == p || At(base, q) != {};
      }
      if Below(base, i + [k]) {
        var q :| i + [k] <= q && At(base, q) != {};
        assert At(base', q) != {};
      }
      assert i + [k] <= p ==> Below(base', i + [k]);
    }
  }

  /** Listing is right except on the way to p, above length n, where children are still listed. */
  ghost predicate ListedOff(base: map<Path, set<nat>>, kids: map<Path, set<nat>>, p: Path, n: nat) {
    forall i: Path, k: nat {:trigger ListedAt(base, kids, i, k)} :: i != [] ==>
      if OnPath(i, k, p) && |i| < n then k in At(kids, i) else ListedAt(base, kids, i, k)
  }

  /** The climb that takes a path off its parents' lists where nothing is left below. */
  method RemoveUp(base: map<Path, set<nat>>, kids: map<Path, set<nat>>, p: Path) returns (kids': map<Path, set<nat>>)
    requires ListedOff(base, kids, p, |p|)
    ensures Listed(base, kids')
    ensures forall i, k :: !OnPath(i, k, p) ==> (k in At(kids', i) <==> k in At(kids, i))
  {
    kids' := kids;
    var n: nat := |p|;
    while n > 1
      invariant n <= |p| && ListedOff(base, kids', p, n)
      invariant forall i, k :: !OnPath(i, k, p) ==> (k in At(kids', i) <==> k in At(kids, i))
    {
      RemoveStep(base, kids', p, n);
      if At(base, p[..n]) == {} && At(kids', p[..n]) == {} {
        kids' := kids'[p[..n - 1] := At(kids', p[..n - 1]) - {p[n - 1]}];
      }
      n := n - 1;
    }
    assert Listed(base, kids') by {
      forall i: Path, k: nat | i != [] ensures ListedAt(base, kids', i, k) {
        assert !(OnPath(i, k, p) && |i| < n);
      }
    }
  }

  lemma RemoveStep(base: map<Path, set<nat>>, kids: map<Path, set<nat>>, p: Path, n: nat)
    requires 1 < n <= |p| && ListedOff(base, kids, p, n)
    ensures var gone := At(base, p[..n]) == {} && At(kids, p[..n]) == {};
            var kids' := if gone then kids[p[..n - 1] := At(kids, p[..n - 1]) - {p[n - 1]}] else kids;
            ListedOff(base, kids', p, n - 1)
    ensures OnPath(p[..n - 1], p[n - 1], p)
  {
    var j := p[..n];
    forall k: nat ensures ListedAt(base, kids, j, k) {
    }
    BelowByChildren(base, kids, j);
    var gone := At(base, j) == {} && At(kids, j) == {};
    var kids' := if gone then kids[p[..n - 1] := At(kids, p[..n - 1]) - {p[n - 1]}] else kids;
    assert p[..n - 1] + [p[n - 1]] == j;
    forall i: Path, k: nat | i != []
      ensures if OnPath(i, k, p) && |i| < n - 1 then k in At(kids', i) else ListedAt(base, kids', i, k)
    {
      assert ListedAt(base, kids, i, k) || (OnPath(i, k, p) && |i| < n && k in At(kids, i));
      if OnPath(i, k, p) && |i| == n - 1 {
        PathStep(p, n - 1, i, k);
      }
    }
  }

  // ---- Counters kept along a path ----

  /** How many of the paths lie at or below i. */
  ghost function Count(ps: set<Path>, i: Path): nat {
    |set p | p in ps && i <= p|
  }

  lemma CountAdd(ps: set<Path>, p: Path, i: Path)
    requires p !in ps
    ensures Count(ps + {p}, i) == Count(ps, i) + if i <= p then 1 else 0
  {
    var with := set q | q in ps + {p} && i <= q;
    var without := set q | q in ps && i <= q;
    if i <= p {
      assert with == without + {p};
    } else {
      assert with == without;
    }
  }

  lemma CountPositive(ps: set<Path>, i: Path)
    ensures Count(ps, i) > 0 <==> exists p :: p in ps && i <= p
  {
    var below := set p | p in ps && i <= p;
    if exists p :: p in ps && i <= p {
      var p :| p in ps && i <= p;
      assert p in below;
    }
    if below != {} {
      var p :| p in below;
    }
  }

  function Num(m: map<Path, nat>, p: Path): nat {
    if p in m then m[p] else 0
  }

  /** One more on the way to p. */
  ghost predicate Raised(m: map<Path, nat>, m': map<Path, nat>, p: Path) {
    forall i: Path :: Num(m', i) == Num(m, i) + if i != [] && i <= p then 1 else 0
  }

  lemma PrefixAt(p: Path, n: nat, i: Path)
    requires n <= |p|
    ensures i <= p && |i| == n <==> i == p[..n]
  {
  }

  /** The climb of setLastInvocation. */
  method RaiseUp(m: map<Path, nat>, p: Path) returns (m': map<Path, nat>)
    ensures Raised(m, m', p)
  {
    m' := m;
    var n: nat := |p|;
    while n > 0
      invariant n <= |p|
      invariant forall i: Path :: Num(m', i) == Num(m, i) + if n < |i| && i <= p then 1 else 0
    {
      forall i: Path ensures i <= p && |i| == n <==> i == p[..n] {
        PrefixAt(p, n, i);
      }
      m' := m'[p[..n] := Num(m', p[..n]) + 1];
      n := n - 1;
    }
  }

  // ---- Executing workers ----

  function Executing(ew: map<Path, map<nat, nat>>, i: Path): map<nat, nat> {
    if i in ew then ew[i] else map[]
  }

  function ExecAt(ew: map<Path, map<nat, nat>>, i: Path, w: nat): nat {
    if w in Executing(ew, i) then Executing(ew, i)[w] else 0
  }

  /** Zero counts are deleted, so that a worker is listed exactly when its count is positive. */
  ghost predicate Positive(ew: map<Path, map<nat, nat>>) {
    forall i: Path {:trigger PositiveAt(ew, i)} :: PositiveAt(ew, i)
  }

  ghost predicate PositiveAt(ew: map<Path, map<nat, nat>>, i: Path) {
    forall w :: w in Executing(ew, i) ==> Executing(ew, i)[w] > 0
  }

  function SetExec(ew: map<Path, map<nat, nat>>, i: Path, w: nat, count: nat): map<Path, map<nat, nat>> {
    ew[i := if count == 0 then Executing(ew, i) - {w} else Executing(ew, i)[w := count]]
  }

  lemma SetExecAt(ew: map<Path, map<nat, nat>>, i: Path, w: nat, count: nat)
    requires Positive(ew)
    ensures Positive(SetExec(ew, i, w, count))
    ensures forall j: Path, v: nat ::
              ExecAt(SetExec(ew, i, w, count), j, v) == if j == i && v == w then count else ExecAt(ew, j, v)
    ensures forall j: Path :: j != i ==> Executing(SetExec(ew, i, w, count), j) == Executing(ew, j)
  {
    var ew' := SetExec(ew, i, w, count);
    forall j: Path ensures PositiveAt(ew', j) {
      assert PositiveAt(ew, j);
      forall v | v in Executing(ew', j) ensures Executing(ew', j)[v] > 0 {
        assert Executing(ew', j)[v] == ExecAt(ew', j, v);
        assert v in Executing(ew, j) || (j == i && v == w && count > 0);
      }
    }
  }

  ghost predicate ExecRaised(ew: map<Path, map<nat, nat>>, ew': map<Path, map<nat, nat>>, p: Path, w: nat, n: nat) {
    forall i: Path, v: nat :: ExecAt(ew', i, v) == ExecAt(ew, i, v) + if v == w && n < |i| && i <= p then 1 else 0
  }

  ghost predicate ExecLowered(ew: map<Path, map<nat, nat>>, ew': map<Path, map<nat, nat>>, p: Path, w: nat, n: nat) {
    forall i: Path, v: nat :: ExecAt(ew', i, v) + (if v == w && n < |i| && i <= p then 1 else 0) == ExecAt(ew, i, v)
  }

  /** The climb of incrementExecutingWorkersCount. */
  method IncrementExecuting(ew: map<Path, map<nat, nat>>, p: Path, w: nat) returns (ew': map<Path, map<nat, nat>>)
    requires Positive(ew)
    ensures Positive(ew') && ExecRaised(ew, ew', p, w, 0)
  {
    ew' := ew;
    var n: nat := |p|;
    while n > 0
      invariant n <= |p| && Positive(ew') && ExecRaised(ew, ew', p, w, n)
    {
      forall i: Path ensures i <= p && |i| == n <==> i == p[..n] {
        PrefixAt(p, n, i);
      }
      var count := ExecAt(ew', p[..n], w);
      SetExecAt(ew', p[..n], w, count + 1);
      ew' := SetExec(ew', p[..n], w, count + 1);
      n := n - 1;
    }
  }

  // ---- Which invocations exist ----

  /** What an invocation keeps about the operations and workers at or below it. */
  datatype Load = Load(
    queuedOperations: map<Path, set<nat>>,
    queuedChildren: map<Path, set<nat>>,
    executingWorkers: map<Path, map<nat, nat>>,
    idleWorkersCount: map<Path, nat>)

  predicate IsQueued(load: Load, i: Path) {
    At(load.queuedOperations, i) != {} || At(load.queuedChildren, i) != {}
  }

  predicate IsActive(load: Load, i: Path) {
    IsQueued(load, i) || Executing(load.executingWorkers, i) != map[]
  }

  predicate NonEmpty(load: Load, i: Path) {
    IsActive(load, i) || Num(load.idleWorkersCount, i) > 0
  }

  ghost predicate Pending(pending: set<Path>, i: Path) {
    exists p :: p in pending && i <= p
  }

  /** A nested invocation is a child of its parent exactly when it is not empty, or about to be used. */
  ghost predicate LinkedAt(children: set<Path>, load: Load, pending: set<Path>, i: Path) {
    i in children <==> NonEmpty(load, i) || Pending(pending, i)
  }

  ghost predicate Linked(children: set<Path>, load: Load, pending: set<Path>) {
    forall i: Path {:trigger LinkedAt(children, load, pending, i)} :: |i| > 1 ==> LinkedAt(children, load, pending, i)
  }

  // ---- Invocations count what lies below them ----

  lemma HasWorker(ew: map<Path, map<nat, nat>>, i: Path)
    requires Positive(ew)
    ensures Executing(ew, i) != map[] <==> exists v :: ExecAt(ew, i, v) > 0
  {
    assert PositiveAt(ew, i);
    if Executing(ew, i) != map[] {
      var v :| v in Executing(ew, i);
      assert ExecAt(ew, i, v) > 0;
    }
  }

  lemma QueuedIsBelow(load: Load, i: Path)
    requires Listed(load.queuedOperations, load.queuedChildren) && i != []
    ensures IsQueued(load, i) <==> Below(load.queuedOperations, i)
  {
    forall k: nat ensures ListedAt(load.queuedOperations, load.queuedChildren, i, k) {
    }
    BelowByChildren(load.queuedOperations, load.queuedChildren, i);
  }

  /** An invocation counts at least as much as one below it. */
  ghost predicate UpAt(load: Load, i: Path, j: Path) {
    && (forall v: nat :: ExecAt(load.executingWorkers, j, v) <= ExecAt(load.executingWorkers, i, v))
    && Num(load.idleWorkersCount, j) <= Num(load.idleWorkersCount, i)
  }

  ghost predicate Upward(load: Load) {
    && Listed(load.queuedOperations, load.queuedChildren) && Positive(load.executingWorkers)
    && forall i: Path, j: Path {:trigger UpAt(load, i, j)} :: i != [] && i <= j ==> UpAt(load, i, j)
  }

  /** An invocation is not empty when one below it is not. */
  lemma NonEmptyUp(load: Load, i: Path, j: Path)
    requires Listed(load.queuedOperations, load.queuedChildren) && Positive(load.executingWorkers)
    requires i != [] && i <= j && UpAt(load, i, j) && NonEmpty(load, j)
    ensures NonEmpty(load, i)
  {
    QueuedIsBelow(load, i);
    QueuedIsBelow(load, j);
    HasWorker(load.executingWorkers, i);
    HasWorker(load.executingWorkers, j);
    if IsQueued(load, j) {
      var p :| j <= p && At(load.queuedOperations, p) != {};
      assert i <= p;
    } else if Executing(load.executingWorkers, j) != map[] {
      var v :| ExecAt(load.executingWorkers, j, v) > 0;
      assert ExecAt(load.executingWorkers, i, v) > 0;
    }
  }

  /** The tree is closed: the parent of every invocation but the roots is in it. */
  ghost predicate Rooted(children: set<Path>) {
    forall i: Path, j: Path :: j in children && |i| > 1 && i <= j ==> i in children
  }

  lemma LinkedIsRooted(children: set<Path>, load: Load)
    requires Linked(children, load, {}) && Upward(load)
    ensures Rooted(children)
  {
    forall i: Path, j: Path | j in children && |i| > 1 && i <= j ensures i in children {
      assert LinkedAt(children, load, {}, i) && LinkedAt(children, load, {}, j);
      assert UpAt(load, i, j);
      NonEmptyUp(load, i, j);
    }
  }

  /** removeIfEmpty. Removing an invocation that is not there, or one that has children, would be an error. */
  method RemoveIfEmpty(children: set<Path>, load: Load, i: Path) returns (children': set<Path>, removed: bool)
    requires |i| > 1 && !NonEmpty(load, i) ==> i in children && forall j :: j in children ==> !(i < j)
    ensures removed == (|i| > 1 && !NonEmpty(load, i))
    ensures children' == if removed then children - {i} else children
  {
    if |i| > 1 && !IsActive(load, i) && Num(load.idleWorkersCount, i) == 0 {
      children', removed := children - {i}, true;
    } else {
      children', removed := children, false;
    }
  }

  /** After one invocation's load changed and it was removed if empty, all links are right again. */
  lemma Relinked(children: set<Path>, load: Load, children': set<Path>, load': Load, i: Path)
    requires Linked(children, load, {}) && (|i| > 1 ==> i in children)
    requires forall j: Path :: j != i ==> NonEmpty(load', j) == NonEmpty(load, j)
    requires children' == if |i| > 1 && !NonEmpty(load', i) then children - {i} else children
    ensures Linked(children', load', {})
  {
    forall j: Path | |j| > 1 ensures LinkedAt(children', load', {}, j) {
      assert LinkedAt(children, load, {}, j);
    }
  }

  /** If an invocation still counts what lies below it, it is not empty while it has children. */
  lemma NoneBelow(children: set<Path>, load: Load, load': Load, i: Path)
    requires Linked(children, load, {}) && |i| > 1
    requires Listed(load'.queuedOperations, load'.queuedChildren) && Positive(load'.executingWorkers)
    requires forall j: Path :: j != i ==> NonEmpty(load', j) == NonEmpty(load, j)
    requires forall j: Path {:trigger UpAt(load', i, j)} :: i <= j ==> UpAt(load', i, j)
    ensures !NonEmpty(load', i) ==> forall j :: j in children ==> !(i < j)
  {
    forall j | j in children && i < j ensures NonEmpty(load', i) {
      assert LinkedAt(children, load, {}, j) && UpAt(load', i, j);
      NonEmptyUp(load', i, j);
    }
  }

  // ---- Climbs that may empty invocations ----

  /** On the way to p, the worker counts more than at any invocation off the way. */
  ghost predicate ExecExceeds(ew: map<Path, map<nat, nat>>, p: Path, w: nat) {
    forall i: Path, j: Path :: i != [] && i <= p && i <= j && !(j <= p) ==> ExecAt(ew, j, w) < ExecAt(ew, i, w)
  }

  /** The climb of decrementExecutingWorkersCount. */
  method DecrementExecuting(children: set<Path>, load: Load, p: Path, w: nat)
      returns (children': set<Path>, load': Load)
    requires Linked(children, load, {}) && Upward(load) && ExecExceeds(load.executingWorkers, p, w)
    requires forall i: Path :: i != [] && i <= p ==> ExecAt(load.executingWorkers, i, w) > 0
    ensures Linked(children', load', {}) && Upward(load') && Rooted(children')
    ensures load' == load.(executingWorkers := load'.executingWorkers)
    ensures ExecLowered(load.executingWorkers, load'.executingWorkers, p, w, 0)
  {
    children', load' := children, load;
    var n: nat := |p|;
    while n > 0
      invariant n <= |p| && Linked(children', load', {}) && Positive(load'.executingWorkers)
      invariant load' == load.(executingWorkers := load'.executingWorkers)
      invariant ExecLowered(load.executingWorkers, load'.executingWorkers, p, w, n)
    {
      children', load' := DecrementAt(children', load', p, n, w, load);
      n := n - 1;
    }
    forall i: Path, j: Path | i != [] && i <= j ensures UpAt(load', i, j) {
      LoweredUp(load, load', p, w, 0, i, j);
    }
    LinkedIsRooted(children', load');
  }

  /** Once the climb has passed an invocation, it counts what lies below it again. */
  lemma LoweredUp(start: Load, load: Load, p: Path, w: nat, n: nat, i: Path, j: Path)
    requires Upward(start) && ExecExceeds(start.executingWorkers, p, w)
             && load == start.(executingWorkers := load.executingWorkers)
    requires ExecLowered(start.executingWorkers, load.executingWorkers, p, w, n) && i != [] && i <= j && n < |i|
    ensures UpAt(load, i, j)
  {
    assert UpAt(start, i, j);
  }

  method DecrementAt(children: set<Path>, load: Load, p: Path, n: nat, w: nat, ghost start: Load)
      returns (children': set<Path>, load': Load)
    requires 0 < n <= |p| && Linked(children, load, {}) && Positive(load.executingWorkers)
    requires Upward(start) && ExecExceeds(start.executingWorkers, p, w)
             && load == start.(executingWorkers := load.executingWorkers)
    requires ExecLowered(start.executingWorkers, load.executingWorkers, p, w, n)
    requires forall i: Path :: i != [] && i <= p ==> ExecAt(start.executingWorkers, i, w) > 0
    ensures Linked(children', load', {}) && Positive(load'.executingWorkers)
    ensures load' == load.(executingWorkers := load'.executingWorkers)
    ensures ExecLowered(start.executingWorkers, load'.executingWorkers, p, w, n - 1)
  {
    var i, ew := p[..n], load.executingWorkers;
    var count := ExecAt(ew, i, w);
    assert count > 0;
    assert |i| > 1 ==> LinkedAt(children, load, {}, i);
    SetExecAt(ew, i, w, count - 1);
    load' := load.(executingWorkers := SetExec(ew, i, w, count - 1));
    forall j: Path ensures j <= p && |j| == n <==> j == i {
      PrefixAt(p, n, j);
    }
    if |i| > 1 {
      forall j: Path | i <= j ensures UpAt(load', i, j) {
        LoweredUp(start, load', p, w, n - 1, i, j);
      }
      NoneBelow(children, load, load', i);
    }
    var removed;
    children', removed := RemoveIfEmpty(children, load', i);
    Relinked(children, load, children', load', i);
  }

  ghost predicate Lowered(m: map<Path, nat>, m': map<Path, nat>, p: Path, n: nat) {
    forall i: Path :: Num(m', i) + (if n < |i| && i <= p then 1 else 0) == Num(m, i)
  }

  /** On the way to p, more is counted than at any invocation off the way. */
  ghost predicate Exceeds(m: map<Path, nat>, p: Path) {
    forall i: Path, j: Path :: i != [] && i <= p && i <= j && !(j <= p) ==> Num(m, j) < Num(m, i)
  }

  lemma IdleLoweredUp(start: Load, load: Load, p: Path, n: nat, i: Path, j: Path)
    requires Upward(start) && Exceeds(start.idleWorkersCount, p)
             && load == start.(idleWorkersCount := load.idleWorkersCount)
    requires Lowered(start.idleWorkersCount, load.idleWorkersCount, p, n) && i != [] && i <= j && n < |i|
    ensures UpAt(load, i, j)
  {
    assert UpAt(start, i, j);
  }

  /** The climb of clearLastInvocation. */
  method LowerUp(children: set<Path>, load: Load, p: Path) returns (children': set<Path>, load': Load)
    requires Linked(children, load, {}) && Upward(load) && Exceeds(load.idleWorkersCount, p)
    requires forall i: Path :: i != [] && i <= p ==> Num(load.idleWorkersCount, i) > 0
    ensures Linked(children', load', {}) && Upward(load') && Rooted(children')
    ensures load' == load.(idleWorkersCount := load'.idleWorkersCount)
    ensures Lowered(load.idleWorkersCount, load'.idleWorkersCount, p, 0)
  {
    children', load' := children, load;
    var n: nat := |p|;
    while n > 0
      invariant n <= |p| && Linked(children', load', {}) && load' == load.(idleWorkersCount := load'.idleWorkersCount)
      invariant Lowered(load.idleWorkersCount, load'.idleWorkersCount, p, n)
    {
      children', load' := LowerAt(children', load', p, n, load);
      n := n - 1;
    }
    forall i: Path, j: Path | i != [] && i <= j ensures UpAt(load', i, j) {
      IdleLoweredUp(load, load', p, 0, i, j);
    }
    LinkedIsRooted(children', load');
  }

  method LowerAt(children: set<Path>, load: Load, p: Path, n: nat, ghost start: Load)
      returns (children': set<Path>, load': Load)
    requires 0 < n <= |p| && Linked(children, load, {})
    requires Upward(start) && Exceeds(start.idleWorkersCount, p)
             && load == start.(idleWorkersCount := load.idleWorkersCount)
    requires Lowered(start.idleWorkersCount, load.idleWorkersCount, p, n)
    requires forall i: Path :: i != [] && i <= p ==> Num(start.idleWorkersCount, i) > 0
    ensures Linked(children', load', {}) && load' == load.(idleWorkersCount := load'.idleWorkersCount)
    ensures Lowered(start.idleWorkersCount, load'.idleWorkersCount, p, n - 1)
  {
    var i := p[..n];
    forall j: Path ensures j <= p && |j| == n <==> j == i {
      PrefixAt(p, n, j);
    }
    assert |i| > 1 ==> LinkedAt(children, load, {}, i);
    load' := load.(idleWorkersCount := load.idleWorkersCount[i := Num(load.idleWorkersCount, i) - 1]);
    if |i| > 1 {
      forall j: Path | i <= j ensures UpAt(load', i, j) {
        IdleLoweredUp(start, load', p, n - 1, i, j);
      }
      NoneBelow(children, load, load', i);
    }
    var removed;
    children', removed := RemoveIfEmpty(children, load', i);
    Relinked(children, load, children', load', i);
  }
}
