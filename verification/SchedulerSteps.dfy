/** How the parts of the scheduler's state follow a change of a task or a worker. */
module SchedulerSteps {
  import opened Folding
  import opened InvocationTree
  import opened InvocationMoves
  import opened Options
  import opened SchedulerState

  // ---- A worker takes a task ----

  ghost function TakesTask(tasks: map<nat, Task>, t: nat, w: nat): map<nat, Task>
    requires t in tasks
  {
    tasks[t := tasks[t].(currentWorker := Some(w), retryCount := 0)]
  }

  ghost function GetsTask(workers: map<nat, Worker>, w: nat, t: nat): map<nat, Worker>
    requires w in workers
  {
    workers[w := workers[w].(currentTask := Some(t), lastInvocation := None)]
  }

  /** The worker is idle and not listed as waiting, the task unfinished and not executing, and they fit. */
  ghost predicate MayTake(tasks: map<nat, Task>, workers: map<nat, Worker>, t: nat, w: nat) {
    && t in tasks && IsQueuedTask(tasks, t) && w in workers && workers[w].currentTask.None? && !workers[w].waiting
    && OnQueue(tasks[t].operations, workers[w].queue)
  }

  lemma TakenPaired(tasks: map<nat, Task>, workers: map<nat, Worker>, t: nat, w: nat)
    requires Paired(tasks, workers) && MayTake(tasks, workers, t, w)
    ensures Paired(TakesTask(tasks, t, w), GetsTask(workers, w, t))
  {
    var tasks', workers' := TakesTask(tasks, t, w), GetsTask(workers, w, t);
    forall u | u in tasks' ensures TaskOk(tasks', workers', u) {
      assert TaskOk(tasks, workers, u);
    }
    forall v | v in workers' ensures WorkerOk(tasks', workers', v) {
      assert WorkerOk(tasks, workers, v);
    }
  }

  lemma TakenExec(tasks: map<nat, Task>, workers: map<nat, Worker>, t: nat, w: nat, ew: map<Path, map<nat, nat>>,
      ew': map<Path, map<nat, nat>>)
    requires ExecOk(tasks, workers, ew) && MayTake(tasks, workers, t, w)
    requires Positive(ew') && ExecAdded(ew, ew', tasks[t].operations, w)
    ensures ExecOk(TakesTask(tasks, t, w), GetsTask(workers, w, t), ew')
  {
    var tasks', workers' := TakesTask(tasks, t, w), GetsTask(workers, w, t);
    forall i: Path, v: nat | i != [] ensures ExecAt(ew', i, v) == Count(OperationsOf(tasks', workers', v), i) {
      if v == w {
        assert OperationsOf(tasks, workers, w) == {} && Count({}, i) == 0;
        assert OperationsOf(tasks', workers', w) == tasks[t].operations;
      } else {
        assert OperationsOf(tasks', workers', v) == OperationsOf(tasks, workers, v);
      }
    }
  }

  lemma TakenRest(tasks: map<nat, Task>, workers: map<nat, Worker>, t: nat, w: nat, queued: set<nat>,
      qo: map<Path, set<nat>>, waiting: map<Path, set<nat>>)
    requires MayTake(tasks, workers, t, w)
    requires QueueOk(tasks, queued, qo) && WaitOk(workers, waiting) && Conserved(tasks, queued, workers)
    ensures QueueOk(TakesTask(tasks, t, w), queued, qo) && WaitOk(GetsTask(workers, w, t), waiting)
    ensures Conserved(TakesTask(tasks, t, w), queued, GetsTask(workers, w, t))
  {
  }

  /** The increments make good for the links made ahead for the task. */
  lemma TakenLinked(children: set<Path>, load: Load, ps: set<Path>, w: nat, ew: map<Path, map<nat, nat>>)
    requires Linked(children, load, ps) && Positive(load.executingWorkers) && Positive(ew)
             && ExecAdded(load.executingWorkers, ew, ps, w)
    ensures Linked(children, load.(executingWorkers := ew), {})
  {
    var load' := load.(executingWorkers := ew);
    forall i: Path | |i| > 1 ensures NonEmpty(load', i) <==> NonEmpty(load, i) || Pending(ps, i) {
      NowExecuting(load.executingWorkers, ew, ps, w, i);
    }
    LinkedByUse(children, load, load', ps);
  }

  /** Handing over the task, with all the counters that follow. */
  lemma TaskTaken(tasks: map<nat, Task>, workers: map<nat, Worker>, queued: set<nat>, children: set<Path>, load: Load,
      waiting: map<Path, set<nat>>, waitingChildren: map<Path, set<nat>>,
              t: nat, w: nat, children': set<Path>, load': Load)
    requires MayTake(tasks, workers, t, w)
    requires Consistent(tasks, workers, queued, tasks[t].operations, children, load, waiting, waitingChildren)
    requires load' == load.(executingWorkers := load'.executingWorkers, idleWorkersCount := load'.idleWorkersCount)
    requires Positive(load'.executingWorkers)
             && ExecAdded(load.executingWorkers, load'.executingWorkers, tasks[t].operations, w)
    requires workers[w].lastInvocation.Some?
             && Lowered(load.idleWorkersCount, load'.idleWorkersCount, workers[w].lastInvocation.value, 0)
    requires Linked(children', load', {})
    ensures Consistent(TakesTask(tasks, t, w), GetsTask(workers, w, t), queued, {}, children', load', waiting,
            waitingChildren)
  {
    assert Opened(OfScheduler);
    TakenPaired(tasks, workers, t, w);
    TakenExec(tasks, workers, t, w, load.executingWorkers, load'.executingWorkers);
    TakenRest(tasks, workers, t, w, queued, load.queuedOperations, waiting);
    IdleLeft(workers, w, GetsTask(workers, w, t)[w], load.idleWorkersCount, load'.idleWorkersCount,
      workers[w].lastInvocation.value);
  }

  /** What taking a task needs to know of the state. */
  lemma BeforeTaking(tasks: map<nat, Task>, workers: map<nat, Worker>, queued: set<nat>, pending: set<Path>,
      children: set<Path>, load: Load, waiting: map<Path, set<nat>>, waitingChildren: map<Path, set<nat>>, w: nat)
    requires Consistent(tasks, workers, queued, pending, children, load, waiting, waitingChildren) && w in workers
             && workers[w].currentTask.None?
    ensures Linked(children, load, pending) && Upward(load) && workers[w].lastInvocation.Some?
    ensures Exceeds(load.idleWorkersCount, workers[w].lastInvocation.value)
    ensures forall i: Path :: i != [] && i <= workers[w].lastInvocation.value ==> Num(load.idleWorkersCount, i) > 0
  {
    assert Opened(OfScheduler);
    assert WorkerOk(tasks, workers, w);
    CountersUp(tasks, workers, load);
    LastExceeds(workers, load.idleWorkersCount, w, workers[w].lastInvocation.value);
    LastIsCounted(workers, load.idleWorkersCount, w, workers[w].lastInvocation.value);
  }

  /** The counters of an invocation are never below those of one below it. */
  lemma CountersUp(tasks: map<nat, Task>, workers: map<nat, Worker>, load: Load)
    requires ExecOk(tasks, workers, load.executingWorkers) && IdleOk(workers, load.idleWorkersCount)
    requires Listed(load.queuedOperations, load.queuedChildren)
    ensures Upward(load)
  {
    forall i: Path, j: Path | i != [] && i <= j ensures UpAt(load, i, j) {
      forall v: nat ensures ExecAt(load.executingWorkers, j, v) <= ExecAt(load.executingWorkers, i, v) {
        CountUp(OperationsOf(tasks, workers, v), i, j);
      }
      SubsetSize(IdleAt(workers, j), IdleAt(workers, i));
    }
  }

  /** A worker is counted beyond those that were last used off the way to its last invocation. */
  lemma LastExceeds(workers: map<nat, Worker>, idle: map<Path, nat>, w: nat, p: Path)
    requires IdleOk(workers, idle) && w in workers && workers[w].lastInvocation == Some(p)
    ensures Exceeds(idle, p)
  {
    forall i: Path, j: Path | i != [] && i <= p && i <= j && !(j <= p) ensures Num(idle, j) < Num(idle, i) {
      var below, above := IdleAt(workers, j), IdleAt(workers, i);
      assert w in above - below && below <= above - {w};
      SubsetSize(below, above - {w});
    }
  }

  // ---- A task leaves its queues ----

  /** Removing the operations of an executing task from the queues empties no invocation. */
  lemma DequeuedLinked(children: set<Path>, load: Load, load': Load, ps: set<Path>, t: nat)
    requires Linked(children, load, {}) && Listed(load.queuedOperations, load.queuedChildren)
    requires load' == load.(queuedOperations := load'.queuedOperations, queuedChildren := load'.queuedChildren)
    requires Listed(load'.queuedOperations, load'.queuedChildren)
             && Taken(load.queuedOperations, load'.queuedOperations, ps, t)
    requires forall i: Path :: i != [] && Pending(ps, i) ==> Executing(load.executingWorkers, i) != map[]
    ensures Linked(children, load', {})
  {
    forall i: Path | |i| > 1 ensures LinkedAt(children, load', {}, i) {
      assert LinkedAt(children, load, {}, i);
      QueuedIsBelow(load, i);
      QueuedIsBelow(load', i);
      if Below(load'.queuedOperations, i) {
        var p :| i <= p && At(load'.queuedOperations, p) != {};
        assert At(load.queuedOperations, p) != {};
      }
      if Below(load.queuedOperations, i) && !Pending(ps, i) {
        var p :| i <= p && At(load.queuedOperations, p) != {};
        assert At(load'.queuedOperations, p) != {};
      }
    }
  }

  lemma DequeuedQueues(tasks: map<nat, Task>, workers: map<nat, Worker>, queued: set<nat>, t: nat,
      qo: map<Path, set<nat>>, qo': map<Path, set<nat>>)
    requires QueueOk(tasks, queued, qo) && Conserved(tasks, queued, workers) && t in tasks
             && Taken(qo, qo', tasks[t].operations, t)
    ensures QueueOk(tasks, queued - {t}, qo') && Conserved(tasks, queued - {t}, workers)
  {
  }

  lemma TaskIsQueued(tasks: map<nat, Task>, queued: set<nat>, t: nat, qo: map<Path, set<nat>>)
    requires QueueOk(tasks, queued, qo) && t in queued && t in tasks
    ensures forall p :: p in tasks[t].operations ==> t in At(qo, p)
  {
  }

  /** The invocations on the way to a queued task's operations exist. */
  lemma LinkedAhead(tasks: map<nat, Task>, queued: set<nat>, t: nat, children: set<Path>, load: Load)
    requires QueueOk(tasks, queued, load.queuedOperations) && Listed(load.queuedOperations, load.queuedChildren)
    requires t in queued && t in tasks && Linked(children, load, {})
    ensures Linked(children, load, tasks[t].operations)
  {
    var ps := tasks[t].operations;
    TaskIsQueued(tasks, queued, t, load.queuedOperations);
    forall i: Path | |i| > 1 ensures LinkedAt(children, load, ps, i) {
      assert LinkedAt(children, load, {}, i);
      if Pending(ps, i) {
        var p :| p in ps && i <= p;
        assert At(load.queuedOperations, p) != {};
        QueuedIsBelow(load, i);
      }
    }
  }

  /** A worker's task keeps the invocations of its operations executing. */
  lemma TaskIsExecuting(tasks: map<nat, Task>, workers: map<nat, Worker>, ew: map<Path, map<nat, nat>>, w: nat)
    requires ExecOk(tasks, workers, ew)
    ensures forall i: Path :: i != [] && Pending(OperationsOf(tasks, workers, w), i) ==> Executing(ew, i) != map[]
  {
    var ps := OperationsOf(tasks, workers, w);
    forall i: Path | i != [] && Pending(ps, i) ensures Executing(ew, i) != map[] {
      CountPositive(ps, i);
      HasWorker(ew, i);
      assert ExecAt(ew, i, w) == Count(ps, i);
    }
  }

  lemma TaskDequeued(tasks: map<nat, Task>, workers: map<nat, Worker>, queued: set<nat>, children: set<Path>,
      load: Load, waiting: map<Path, set<nat>>, waitingChildren: map<Path, set<nat>>,
                     t: nat, load': Load)
    requires Consistent(tasks, workers, queued, {}, children, load, waiting, waitingChildren)
    requires t in tasks && tasks[t].currentWorker.Some?
    requires load' == load.(queuedOperations := load'.queuedOperations, queuedChildren := load'.queuedChildren)
    requires Listed(load'.queuedOperations, load'.queuedChildren)
             && Taken(load.queuedOperations, load'.queuedOperations, tasks[t].operations, t)
    ensures Consistent(tasks, workers, queued - {t}, {}, children, load', waiting, waitingChildren)
  {
    assert Opened(OfScheduler);
    assert TaskOk(tasks, workers, t);
    TaskIsExecuting(tasks, workers, load.executingWorkers, tasks[t].currentWorker.value);
    DequeuedLinked(children, load, load', tasks[t].operations, t);
    DequeuedQueues(tasks, workers, queued, t, load.queuedOperations, load'.queuedOperations);
  }

  lemma BeforeDequeuing(tasks: map<nat, Task>, workers: map<nat, Worker>, queued: set<nat>, pending: set<Path>,
      children: set<Path>, load: Load, waiting: map<Path, set<nat>>, waitingChildren: map<Path, set<nat>>, t: nat)
    requires Consistent(tasks, workers, queued, pending, children, load, waiting, waitingChildren) && t in tasks
             && t in queued
    ensures Listed(load.queuedOperations, load.queuedChildren)
    ensures forall p :: p in tasks[t].operations ==> t in At(load.queuedOperations, p)
    ensures pending == {} ==>
              Consistent(tasks, workers, queued, tasks[t].operations, children, load, waiting, waitingChildren)
  {
    assert Opened(OfScheduler);
    TaskIsQueued(tasks, queued, t, load.queuedOperations);
    if pending == {} {
      LinkedAhead(tasks, queued, t, children, load);
    }
  }

  // ---- A worker starts or stops waiting ----

  ghost function Waits(workers: map<nat, Worker>, w: nat, waits: bool): map<nat, Worker>
    requires w in workers
  {
    workers[w := workers[w].(waiting := waits)]
  }

  lemma WaitsPaired(tasks: map<nat, Task>, workers: map<nat, Worker>, w: nat, waits: bool)
    requires Paired(tasks, workers) && w in workers && workers[w].currentTask.None?
             && (waits ==> workers[w].synchronizing)
    ensures Paired(tasks, Waits(workers, w, waits))
  {
    var workers' := Waits(workers, w, waits);
    forall u | u in tasks ensures TaskOk(tasks, workers', u) {
      assert TaskOk(tasks, workers, u);
    }
    forall v | v in workers' ensures WorkerOk(tasks, workers', v) {
      assert WorkerOk(tasks, workers, v);
    }
  }

  lemma WaitsExec(tasks: map<nat, Task>, workers: map<nat, Worker>, w: nat, waits: bool, load: Load)
    requires ExecOk(tasks, workers, load.executingWorkers) && IdleOk(workers, load.idleWorkersCount) && w in workers
    ensures ExecOk(tasks, Waits(workers, w, waits), load.executingWorkers)
            && IdleOk(Waits(workers, w, waits), load.idleWorkersCount)
  {
    forall v: nat ensures OperationsOf(tasks, Waits(workers, w, waits), v) == OperationsOf(tasks, workers, v) {
    }
    IdleKept(workers, w, workers[w].(waiting := waits), load.idleWorkersCount);
  }

  /** Nothing is queued on the queue. */
  ghost predicate NothingQueued(tasks: map<nat, Task>, queued: set<nat>, q: nat) {
    forall t :: t in queued && t in tasks ==> Elsewhere(tasks[t].operations, q)
  }

  /** A worker may wait where nothing is queued. */
  lemma StartsWaiting(tasks: map<nat, Task>, workers: map<nat, Worker>, queued: set<nat>, pending: set<Path>,
      children: set<Path>, load: Load, waiting: map<Path, set<nat>>, waitingChildren: map<Path, set<nat>>,
                      w: nat, waiting': map<Path, set<nat>>, waitingChildren': map<Path, set<nat>>)
    requires Consistent(tasks, workers, queued, pending, children, load, waiting, waitingChildren)
    requires w in workers && workers[w].currentTask.None? && workers[w].synchronizing && !workers[w].waiting
             && workers[w].lastInvocation.Some?
    requires NothingQueued(tasks, queued, workers[w].queue)
    requires Listed(waiting', waitingChildren') && Put(waiting, waiting', {workers[w].lastInvocation.value}, w)
    ensures Consistent(tasks, Waits(workers, w, true), queued, pending, children, load, waiting', waitingChildren')
  {
    assert Opened(OfScheduler);
    WaitsPaired(tasks, workers, w, true);
    WaitsExec(tasks, workers, w, true, load);
  }

  lemma StopsWaiting(tasks: map<nat, Task>, workers: map<nat, Worker>, queued: set<nat>, pending: set<Path>,
      children: set<Path>, load: Load, waiting: map<Path, set<nat>>, waitingChildren: map<Path, set<nat>>,
                     w: nat, waiting': map<Path, set<nat>>, waitingChildren': map<Path, set<nat>>)
    requires Consistent(tasks, workers, queued, pending, children, load, waiting, waitingChildren)
    requires w in workers && workers[w].waiting && workers[w].lastInvocation.Some?
    requires Listed(waiting', waitingChildren')
             && InvocationMoves.Taken(waiting, waiting', {workers[w].lastInvocation.value}, w)
    ensures Consistent(tasks, Waits(workers, w, false), queued, pending, children, load, waiting', waitingChildren')
  {
    assert Opened(OfScheduler);
    assert WorkerOk(tasks, workers, w);
    WaitsPaired(tasks, workers, w, false);
    WaitsExec(tasks, workers, w, false, load);
  }

  lemma WaitingIsListed(tasks: map<nat, Task>, workers: map<nat, Worker>, queued: set<nat>, pending: set<Path>,
      children: set<Path>, load: Load, waiting: map<Path, set<nat>>, waitingChildren: map<Path, set<nat>>, w: nat)
    requires Consistent(tasks, workers, queued, pending, children, load, waiting, waitingChildren) && w in workers
             && workers[w].currentTask.None?
    ensures Listed(waiting, waitingChildren) && workers[w].lastInvocation.Some?
    ensures workers[w].waiting ==> w in At(waiting, workers[w].lastInvocation.value)
  {
    assert Opened(OfScheduler);
    assert WorkerOk(tasks, workers, w);
  }

  // ---- A task joins its queues ----

  /** No worker waits on the queue. */
  ghost predicate NobodyWaits(workers: map<nat, Worker>, q: nat) {
    forall w :: w in workers && workers[w].waiting ==> workers[w].queue != q
  }

  lemma EnqueuedLinked(children: set<Path>, load: Load, load': Load, ps: set<Path>, t: nat)
    requires Linked(children, load, ps) && Listed(load.queuedOperations, load.queuedChildren)
    requires load' == load.(queuedOperations := load'.queuedOperations, queuedChildren := load'.queuedChildren)
    requires Listed(load'.queuedOperations, load'.queuedChildren)
             && Put(load.queuedOperations, load'.queuedOperations, ps, t)
    ensures Linked(children, load', {})
  {
    forall i: Path | |i| > 1 ensures NonEmpty(load', i) <==> NonEmpty(load, i) || Pending(ps, i) {
      QueuedIsBelow(load, i);
      QueuedIsBelow(load', i);
      if Below(load'.queuedOperations, i) {
        var p :| i <= p && At(load'.queuedOperations, p) != {};
        assert p in ps || At(load.queuedOperations, p) != {};
      }
      if Below(load.queuedOperations, i) {
        var p :| i <= p && At(load.queuedOperations, p) != {};
        assert At(load'.queuedOperations, p) != {};
      }
      if Pending(ps, i) {
        var p :| p in ps && i <= p;
        assert t in At(load'.queuedOperations, p);
      }
    }
    LinkedByUse(children, load, load', ps);
  }

  lemma TaskEnqueued(tasks: map<nat, Task>, workers: map<nat, Worker>, queued: set<nat>, children: set<Path>,
      load: Load, waiting: map<Path, set<nat>>, waitingChildren: map<Path, set<nat>>,
                     t: nat, q: nat, load': Load)
    requires t in tasks && OnQueue(tasks[t].operations, q) && NobodyWaits(workers, q)
    requires Consistent(tasks, workers, queued, tasks[t].operations, children, load, waiting, waitingChildren)
    requires load' == load.(queuedOperations := load'.queuedOperations, queuedChildren := load'.queuedChildren)
    requires Listed(load'.queuedOperations, load'.queuedChildren)
             && Put(load.queuedOperations, load'.queuedOperations, tasks[t].operations, t)
    ensures Consistent(tasks, workers, queued + {t}, {}, children, load', waiting, waitingChildren)
  {
    assert Opened(OfScheduler);
    EnqueuedLinked(children, load, load', tasks[t].operations, t);
  }

  // ---- Finding a waiting worker ----

  ghost function MaxLength(ps: set<Path>): (n: nat)
    ensures forall p :: p in ps ==> |p| <= n
  {
    if ps == {} then 0
    else
      var p :| p in ps;
      var n := MaxLength(ps - {p});
      if |p| > n then |p| else n
  }

  lemma NoneWaitsBelow(tasks: map<nat, Task>, workers: map<nat, Worker>, waiting: map<Path, set<nat>>,
      waitingChildren: map<Path, set<nat>>, q: nat)
    requires Paired(tasks, workers) && WaitOk(workers, waiting) && Listed(waiting, waitingChildren)
    requires At(waiting, [q]) == {} && At(waitingChildren, [q]) == {}
    ensures NobodyWaits(workers, q)
  {
    forall k: nat ensures ListedAt(waiting, waitingChildren, [q], k) {
    }
    BelowByChildren(waiting, waitingChildren, [q]);
    forall w | w in workers && workers[w].waiting ensures workers[w].queue != q {
      assert WorkerOk(tasks, workers, w);
      var p := workers[w].lastInvocation.value;
      assert w in At(waiting, p);
      assert workers[w].queue == q ==> [q] <= p;
    }
  }

  lemma BelowFromLists(waiting: map<Path, set<nat>>, waitingChildren: map<Path, set<nat>>, i: Path)
    requires Listed(waiting, waitingChildren) && i != [] && (At(waiting, i) != {} || At(waitingChildren, i) != {})
    ensures Below(waiting, i)
  {
    forall k: nat ensures ListedAt(waiting, waitingChildren, i, k) {
    }
    BelowByChildren(waiting, waitingChildren, i);
  }

  /** Some child of i has a waiting worker at or below it. */
  lemma StepDown(waiting: map<Path, set<nat>>, waitingChildren: map<Path, set<nat>>, i: Path)
    requires Listed(waiting, waitingChildren) && i != [] && Below(waiting, i) && At(waiting, i) == {}
    ensures At(waitingChildren, i) != {}
    ensures forall k :: k in At(waitingChildren, i) ==> Below(waiting, i + [k]) && |i| < MaxLength(waiting.Keys)
  {
    forall k: nat ensures ListedAt(waiting, waitingChildren, i, k) {
    }
    BelowByChildren(waiting, waitingChildren, i);
    forall k | k in At(waitingChildren, i) ensures Below(waiting, i + [k]) && |i| < MaxLength(waiting.Keys) {
      assert ListedAt(waiting, waitingChildren, i, k);
      var p :| i + [k] <= p && At(waiting, p) != {};
      assert p in waiting.Keys;
    }
  }

  ghost function TotalLength(ps: seq<Path>): nat {
    if ps == [] then 0 else |ps[0]| + TotalLength(ps[1..])
  }

  lemma {:induction false} Shortened(ps: seq<Path>, k: nat, p: Path)
    requires k < |ps| && |p| < |ps[k]|
    ensures TotalLength(ps[k := p]) < TotalLength(ps)
  {
    if k == 0 {
      assert ps[k := p][1..] == ps[1..];
    } else {
      Shortened(ps[1..], k - 1, p);
      assert ps[k := p][1..] == ps[1..][k - 1 := p];
    }
  }

  // ---- A task is scheduled ----

  /** The waiting worker w was handed the task. */
  /** A worker waits at or below the invocation. */
  ghost predicate SomebodyAt(workers: map<nat, Worker>, i: Path) {
    exists w :: w in workers && workers[w].waiting && workers[w].lastInvocation.Some?
                && i <= workers[w].lastInvocation.value
  }

  /** d steps up from p. */
  ghost function Up(p: Path, d: nat): Path
    requires d <= |p|
  {
    p[..|p| - d]
  }

  /** Nobody waits at or below what is fewer than d steps up from one of the paths. */
  ghost predicate NobodyCloser(workers: map<nat, Worker>, ps: set<Path>, d: nat) {
    forall p: Path, e: nat {:trigger Up(p, e)} :: p in ps && e < d && e < |p| ==> !SomebodyAt(workers, Up(p, e))
  }

  /** The worker is one of those that are closest to the paths. */
  ghost predicate IsNearest(workers: map<nat, Worker>, ps: set<Path>, w: nat) {
    && w in workers && workers[w].lastInvocation.Some?
    && exists p: Path, d: nat {:trigger Up(p, d)} ::
         p in ps && d < |p| && Up(p, d) <= workers[w].lastInvocation.value && NobodyCloser(workers, ps, d)
  }

  // ---- Climbing from invocation to invocation ----

  /** An invocation that was reached from another one, d steps up, without finding a worker on the way. */
  ghost predicate Climbed(workers: map<nat, Worker>, origin: Path, i: Path, d: nat) {
    && d < |origin| && i == Up(origin, d)
    && forall e: nat {:trigger Up(origin, e)} :: e < d ==> !SomebodyAt(workers, Up(origin, e))
  }

  /** The search in front of the idx-th invocation: those before it are one step ahead. */
  ghost predicate Climbing(workers: map<nat, Worker>, origins: seq<Path>, invocations: seq<Path>, idx: nat, d: nat) {
    && |origins| == |invocations|
    && (forall k {:trigger invocations[k]} :: 0 <= k < |invocations| ==>
         Climbed(workers, origins[k], invocations[k], if k < idx then d + 1 else d))
  }

  lemma StartsClimbing(workers: map<nat, Worker>, origins: seq<Path>)
    requires forall k :: 0 <= k < |origins| ==> origins[k] != []
    ensures Climbing(workers, origins, origins, 0, 0)
  {
    forall k | 0 <= k < |origins| ensures Climbed(workers, origins[k], origins[k], 0) {
      assert Up(origins[k], 0) == origins[k];
    }
  }

  lemma RoundDone(workers: map<nat, Worker>, origins: seq<Path>, invocations: seq<Path>, d: nat)
    requires Climbing(workers, origins, invocations, |invocations|, d)
    ensures Climbing(workers, origins, invocations, 0, d + 1)
  {
  }

  lemma ClimbsOn(workers: map<nat, Worker>, origins: seq<Path>, invocations: seq<Path>, idx: nat, d: nat)
    requires Climbing(workers, origins, invocations, idx, d) && idx < |invocations|
    requires |invocations[idx]| > 1 && !SomebodyAt(workers, invocations[idx])
    ensures Climbing(workers, origins, invocations[idx := invocations[idx][..|invocations[idx]| - 1]], idx + 1, d)
  {
    var i, origin := invocations[idx], origins[idx];
    assert Climbed(workers, origin, i, d);
    assert i[..|i| - 1] == Up(origin, d + 1);
  }

  /** Everything closer than d steps has been looked at. */
  lemma NoneCloser(workers: map<nat, Worker>, ps: set<Path>, origins: seq<Path>, invocations: seq<Path>, idx: nat,
      d: nat)
    requires Climbing(workers, origins, invocations, idx, d) && forall o :: o in ps ==> o in origins
    ensures NobodyCloser(workers, ps, d)
  {
    forall p: Path, e: nat | p in ps && e < d && e < |p| ensures !SomebodyAt(workers, Up(p, e)) {
      var k :| 0 <= k < |origins| && origins[k] == p;
      assert Climbed(workers, origins[k], invocations[k], if k < idx then d + 1 else d);
    }
  }

  /** An invocation that lists nobody has nobody waiting at or below it. */
  lemma NobodyListed(workers: map<nat, Worker>, waiting: map<Path, set<nat>>, waitingChildren: map<Path, set<nat>>,
      i: Path)
    requires WaitOk(workers, waiting) && Listed(waiting, waitingChildren) && i != []
    requires At(waiting, i) == {} && At(waitingChildren, i) == {}
    ensures !SomebodyAt(workers, i)
  {
    forall k: nat ensures ListedAt(waiting, waitingChildren, i, k) {
    }
    BelowByChildren(waiting, waitingChildren, i);
    forall w | w in workers && workers[w].waiting && workers[w].lastInvocation.Some?
      ensures !(i <= workers[w].lastInvocation.value)
    {
      assert w in At(waiting, workers[w].lastInvocation.value);
    }
  }

  ghost predicate HandedTo(tasks: map<nat, Task>, workers: map<nat, Worker>, tasks': map<nat, Task>,
      workers': map<nat, Worker>, t: nat, q: nat, w: nat) {
    && t in tasks && w in workers && workers[w].waiting && workers[w].queue == q
    && IsNearest(workers, tasks[t].operations, w)
    && tasks' == TakesTask(tasks, t, w) && workers' == GetsTask(Waits(workers, w, false), w, t)
  }

  /** A waiting worker of the queue, one of the nearest, was handed the task, or none waits and it stays queued. */
  ghost predicate Scheduled(tasks: map<nat, Task>, workers: map<nat, Worker>, tasks': map<nat, Task>,
      workers': map<nat, Worker>, t: nat, q: nat) {
    || (NobodyWaits(workers, q) && tasks' == tasks && workers' == workers)
    || (exists w :: HandedTo(tasks, workers, tasks', workers', t, q, w))
  }

  lemma QueuedAfterTaking(tasks: map<nat, Task>, t: nat, w: nat)
    requires t in tasks
    ensures QueuedTasks(TakesTask(tasks, t, w)) == QueuedTasks(tasks) - {t}
  {
  }

  // ---- A task leaves its worker ----

  /** c is an ancestor of both, or the same. */
  ghost predicate AboveBoth(c: Path, a: Path, b: Path) {
    c <= a && c <= b
  }

  /** c is an ancestor of all the paths, or the same. */
  ghost predicate AboveAll(c: Path, ps: set<Path>) {
    forall p :: p in ps ==> c <= p
  }

  method CommonPrefix(a: Path, b: Path) returns (c: Path)
    ensures AboveBoth(c, a, b) && forall d: Path :: AboveBoth(d, a, b) ==> d <= c
  {
    c := a;
    var i := b;
    if |c| > |i| {
      c := c[..|i|];
    }
    if |i| > |c| {
      i := i[..|c|];
    }
    while c != i
      invariant c <= a && i <= b && |c| == |i|
      invariant forall d: Path :: AboveBoth(d, a, b) ==> d <= c && d <= i
      decreases |c|
    {
      forall d: Path | AboveBoth(d, a, b) ensures |d| < |c| {
        Same(d, c, i);
      }
      c, i := c[..|c| - 1], i[..|i| - 1];
    }
  }

  lemma Same(d: Path, c: Path, i: Path)
    requires d <= c && d <= i && |c| == |i| && c != i
    ensures |d| < |c|
  {
  }

  /** The lowest common ancestor of the invocations of a task. */
  method LowestCommonAncestor(ps: set<Path>, ghost q: nat) returns (l: Path)
    requires ps != {} && OnQueue(ps, q)
    ensures l != [] && l[0] == q && AboveAll(l, ps)
    ensures forall c: Path :: AboveAll(c, ps) ==> c <= l
  {
    var first :| first in ps;
    l := first;
    var rest := ps - {first};
    ghost var seen := {first};
    while rest != {}
      invariant seen + rest == ps && [q] <= l && AboveAll(l, seen)
      invariant forall c: Path :: AboveAll(c, seen) ==> c <= l
    {
      var p :| p in rest;
      assert AboveBoth([q], l, p);
      ghost var before := l;
      l := CommonPrefix(l, p);
      forall c: Path | AboveAll(c, seen + {p}) ensures c <= l {
        assert AboveAll(c, seen);
        assert AboveBoth(c, before, p);
      }
      seen, rest := seen + {p}, rest - {p};
    }
    assert seen == ps;
  }

  ghost function LeavesWorker(tasks: map<nat, Task>, t: nat): map<nat, Task>
    requires t in tasks
  {
    tasks[t := tasks[t].(currentWorker := None)]
  }

  ghost function LosesTask(workers: map<nat, Worker>, w: nat, last: Path): map<nat, Worker>
    requires w in workers
  {
    workers[w := workers[w].(currentTask := None, lastInvocation := Some(last))]
  }

  /** Counting a worker as idle on the way to its last invocation makes no invocation appear. */
  lemma IdleLinked(children: set<Path>, load: Load, idle: map<Path, nat>, ps: set<Path>, last: Path)
    requires Linked(children, load, {}) && Raised(load.idleWorkersCount, idle, last)
    requires forall i: Path :: i != [] && Pending(ps, i) ==> Executing(load.executingWorkers, i) != map[]
    requires forall i: Path :: |i| > 1 && i <= last ==> Pending(ps, i)
    ensures Linked(children, load.(idleWorkersCount := idle), {})
  {
    var load' := load.(idleWorkersCount := idle);
    forall i: Path | |i| > 1 ensures LinkedAt(children, load', {}, i) {
      assert LinkedAt(children, load, {}, i);
    }
  }

  lemma LeftPaired(tasks: map<nat, Task>, workers: map<nat, Worker>, t: nat, w: nat, last: Path)
    requires Paired(tasks, workers) && t in tasks && tasks[t].currentWorker == Some(w) && w in workers
             && workers[w].currentTask == Some(t)
    requires last != [] && last[0] == workers[w].queue
    ensures Paired(LeavesWorker(tasks, t), LosesTask(workers, w, last))
  {
    var tasks', workers' := LeavesWorker(tasks, t), LosesTask(workers, w, last);
    forall u | u in tasks' ensures TaskOk(tasks', workers', u) {
      assert TaskOk(tasks, workers, u);
    }
    forall v | v in workers' ensures WorkerOk(tasks', workers', v) {
      assert WorkerOk(tasks, workers, v);
    }
  }

  lemma LeftExec(tasks: map<nat, Task>, workers: map<nat, Worker>, t: nat, w: nat, last: Path,
      ew: map<Path, map<nat, nat>>, ew': map<Path, map<nat, nat>>)
    requires ExecOk(tasks, workers, ew) && t in tasks && w in workers && workers[w].currentTask == Some(t)
    requires Positive(ew') && ExecAdded(ew', ew, tasks[t].operations, w)
    ensures ExecOk(LeavesWorker(tasks, t), LosesTask(workers, w, last), ew')
  {
    var tasks', workers' := LeavesWorker(tasks, t), LosesTask(workers, w, last);
    forall i: Path, v: nat | i != [] ensures ExecAt(ew', i, v) == Count(OperationsOf(tasks', workers', v), i) {
      if v == w {
        assert OperationsOf(tasks, workers, w) == tasks[t].operations;
        assert OperationsOf(tasks', workers', w) == {} && Count({}, i) == 0;
      } else {
        assert OperationsOf(tasks', workers', v) == OperationsOf(tasks, workers, v);
      }
    }
  }

  lemma LeftRest(tasks: map<nat, Task>, workers: map<nat, Worker>, t: nat, w: nat, last: Path, queued: set<nat>,
      qo: map<Path, set<nat>>, waiting: map<Path, set<nat>>)
    requires t in tasks && w in workers && !workers[w].waiting
    requires QueueOk(tasks, queued, qo) && WaitOk(workers, waiting) && Conserved(tasks, queued, workers)
    ensures QueueOk(LeavesWorker(tasks, t), queued, qo) && WaitOk(LosesTask(workers, w, last), waiting)
    ensures Conserved(LeavesWorker(tasks, t), queued, LosesTask(workers, w, last))
  {
  }

  lemma TaskLeft(tasks: map<nat, Task>, workers: map<nat, Worker>, queued: set<nat>, children: set<Path>, load: Load,
      waiting: map<Path, set<nat>>, waitingChildren: map<Path, set<nat>>,
                 t: nat, w: nat, last: Path, children': set<Path>, load': Load)
    requires Consistent(tasks, workers, queued, {}, children, load, waiting, waitingChildren)
    requires t in tasks && tasks[t].currentWorker == Some(w) && w in workers && last != []
             && last[0] == workers[w].queue
    requires load' == load.(executingWorkers := load'.executingWorkers, idleWorkersCount := load'.idleWorkersCount)
    requires Positive(load'.executingWorkers)
             && ExecAdded(load'.executingWorkers, load.executingWorkers, tasks[t].operations, w)
    requires Raised(load.idleWorkersCount, load'.idleWorkersCount, last) && Linked(children', load', {})
    ensures Consistent(LeavesWorker(tasks, t), LosesTask(workers, w, last), queued, {}, children', load', waiting,
            waitingChildren)
  {
    assert Opened(OfScheduler);
    assert TaskOk(tasks, workers, t) && WorkerOk(tasks, workers, w);
    LeftPaired(tasks, workers, t, w, last);
    LeftExec(tasks, workers, t, w, last, load.executingWorkers, load'.executingWorkers);
    LeftRest(tasks, workers, t, w, last, queued, load.queuedOperations, waiting);
    IdleJoined(workers, w, LosesTask(workers, w, last)[w], load.idleWorkersCount, load'.idleWorkersCount, last);
  }

  /** What leaving a worker needs to know of the state. */
  lemma BeforeLeaving(tasks: map<nat, Task>, workers: map<nat, Worker>, queued: set<nat>, children: set<Path>,
      load: Load, waiting: map<Path, set<nat>>, waitingChildren: map<Path, set<nat>>, t: nat)
    requires Consistent(tasks, workers, queued, {}, children, load, waiting, waitingChildren) && t in tasks
             && tasks[t].currentWorker.Some?
    ensures tasks[t].currentWorker.value in workers && workers[tasks[t].currentWorker.value].currentTask == Some(t)
    ensures tasks[t].operations != {} && OnQueue(tasks[t].operations, workers[tasks[t].currentWorker.value].queue)
    ensures Linked(children, load, {}) && Upward(load)
    ensures forall i: Path :: i != [] && Pending(tasks[t].operations, i) ==>
              Executing(load.executingWorkers, i) != map[]
    ensures Counts(load.executingWorkers, tasks[t].currentWorker.value, tasks[t].operations)
  {
    assert Opened(OfScheduler);
    assert TaskOk(tasks, workers, t);
    CountersUp(tasks, workers, load);
    TaskIsExecuting(tasks, workers, load.executingWorkers, tasks[t].currentWorker.value);
  }

  /** A queued task left all its queues, by way of a worker that is not part of the queue. */
  lemma TaskUnqueued(tasks: map<nat, Task>, workers: map<nat, Worker>, queued: set<nat>, children: set<Path>,
      load: Load, waiting: map<Path, set<nat>>, waitingChildren: map<Path, set<nat>>,
                     t: nat, temporary: nat, ew: map<Path, map<nat, nat>>, children': set<Path>, load': Load)
    requires Consistent(tasks, workers, queued, {}, children, load, waiting, waitingChildren) && t in tasks
    requires load' == load.(executingWorkers := load'.executingWorkers, queuedOperations := load'.queuedOperations,
             queuedChildren := load'.queuedChildren)
    requires Listed(load'.queuedOperations, load'.queuedChildren)
             && InvocationMoves.Taken(load.queuedOperations, load'.queuedOperations, tasks[t].operations, t)
    requires ExecAdded(load.executingWorkers, ew, tasks[t].operations, temporary)
             && ExecAdded(load'.executingWorkers, ew, tasks[t].operations, temporary)
    requires Positive(load'.executingWorkers) && Linked(children', load', {})
    ensures Consistent(tasks, workers, queued - {t}, {}, children', load', waiting, waitingChildren)
  {
    assert Opened(OfScheduler);
    assert forall i: Path, v: nat :: ExecAt(load'.executingWorkers, i, v) == ExecAt(load.executingWorkers, i, v);
    DequeuedQueues(tasks, workers, queued, t, load.queuedOperations, load'.queuedOperations);
  }

  /** The worker keeps the lowest common ancestor of the task's invocations if it completed the task itself, and the
      root otherwise. */
  ghost predicate LeftAt(tasks: map<nat, Task>, workers: map<nat, Worker>, workers': map<nat, Worker>, t: nat,
      completedByWorker: bool, last: Path) {
    && t in tasks && tasks[t].currentWorker.Some? && tasks[t].currentWorker.value in workers
    && (if completedByWorker then AboveAll(last, tasks[t].operations) && forall c: Path ::
         AboveAll(c, tasks[t].operations) ==> c <= last
        else last == [workers[tasks[t].currentWorker.value].queue])
    && workers' == LosesTask(workers, tasks[t].currentWorker.value, last)
  }

  /** All invocations on the way to an ancestor of the operations are on the way to an operation. */
  lemma OnTheWay(ps: set<Path>, last: Path)
    requires ps != {} && (AboveAll(last, ps) || |last| == 1)
    ensures forall i: Path :: |i| > 1 && i <= last ==> Pending(ps, i)
  {
    var p :| p in ps;
    forall i: Path | |i| > 1 && i <= last ensures Pending(ps, i) {
      assert i <= p;
    }
  }

  lemma BeforeEnqueuing(tasks: map<nat, Task>, workers: map<nat, Worker>, queued: set<nat>, pending: set<Path>,
      children: set<Path>, load: Load, waiting: map<Path, set<nat>>, waitingChildren: map<Path, set<nat>>)
    requires Consistent(tasks, workers, queued, pending, children, load, waiting, waitingChildren)
    ensures Listed(load.queuedOperations, load.queuedChildren)
  {
    assert Opened(OfScheduler);
  }

  /** A number that is not used yet. */
  method Unused(used: set<nat>) returns (n: nat)
    ensures n !in used
  {
    n := 0;
    var rest := used;
    while rest != {}
      invariant rest <= used && forall u :: u in used && u !in rest ==> u < n
    {
      var u :| u in rest;
      n := if u >= n then u + 1 else n;
      rest := rest - {u};
    }
  }

  lemma NoCounts(tasks: map<nat, Task>, workers: map<nat, Worker>, queued: set<nat>, pending: set<Path>,
      children: set<Path>, load: Load, waiting: map<Path, set<nat>>, waitingChildren: map<Path, set<nat>>, w: nat)
    requires Consistent(tasks, workers, queued, pending, children, load, waiting, waitingChildren) && w !in workers
    ensures Positive(load.executingWorkers) && forall i: Path :: i != [] ==> ExecAt(load.executingWorkers, i, w) == 0
  {
    assert Opened(OfScheduler);
    assert forall i: Path :: Count({}, i) == 0;
  }

  lemma BeforeLinking(tasks: map<nat, Task>, workers: map<nat, Worker>, queued: set<nat>, pending: set<Path>,
      children: set<Path>, load: Load, waiting: map<Path, set<nat>>, waitingChildren: map<Path, set<nat>>)
    requires Consistent(tasks, workers, queued, pending, children, load, waiting, waitingChildren)
    ensures Linked(children, load, pending) && Upward(load)
  {
    assert Opened(OfScheduler);
    CountersUp(tasks, workers, load);
  }

  lemma AllExecuting(ew: map<Path, map<nat, nat>>, ew': map<Path, map<nat, nat>>, ps: set<Path>, w: nat)
    requires Positive(ew) && Positive(ew') && ExecAdded(ew, ew', ps, w) && forall i: Path :: i != [] ==>
               ExecAt(ew, i, w) == 0
    ensures forall i: Path :: i != [] && Pending(ps, i) ==> Executing(ew', i) != map[]
    ensures Counts(ew', w, ps)
  {
    forall i: Path | i != [] && Pending(ps, i) ensures Executing(ew', i) != map[] {
      NowExecuting(ew, ew', ps, w, i);
    }
  }

  // ---- A task is completed ----

  /** The task left its queues or its worker. */
  ghost predicate Left(tasks: map<nat, Task>, workers: map<nat, Worker>, tasks': map<nat, Task>,
      workers': map<nat, Worker>, t: nat, completedByWorker: bool) {
    && t in tasks && tasks' == LeavesWorker(tasks, t)
    && (if tasks[t].currentWorker.Some? then exists last ::
         LeftAt(tasks, workers, workers', t, completedByWorker, last) else workers' == workers)
  }

  /** Changes to a task that is neither queued nor executing, other than to its operations, concern no invocation. */
  lemma TaskChanged(tasks: map<nat, Task>, workers: map<nat, Worker>, queued: set<nat>, pending: set<Path>,
      children: set<Path>, load: Load, waiting: map<Path, set<nat>>, waitingChildren: map<Path, set<nat>>,
                    t: nat, task: Task)
    requires Consistent(tasks, workers, queued, pending, children, load, waiting, waitingChildren)
    requires t in tasks && t !in queued && tasks[t].currentWorker.None? && task.currentWorker.None?
    requires task.learner.Some? ==> task.operations != {} && exists q :: OnQueue(task.operations, q)
    ensures Consistent(tasks[t := task], workers, queued, pending, children, load, waiting, waitingChildren)
  {
    assert Opened(OfScheduler);
    var tasks' := tasks[t := task];
    forall u | u in tasks' ensures TaskOk(tasks', workers, u) {
      assert u in tasks ==> TaskOk(tasks, workers, u);
    }
    forall v | v in workers ensures WorkerOk(tasks', workers, v) {
      assert WorkerOk(tasks, workers, v);
    }
    forall v: nat ensures OperationsOf(tasks', workers, v) == OperationsOf(tasks, workers, v) {
      assert v in workers ==> WorkerOk(tasks, workers, v);
    }
  }

  /** The in-flight map and the learners are right. Kept folded like Consistent. */
  ghost predicate Registered(tasks: map<nat, Task>, inFlight: map<nat, nat>, held: set<nat>,
      verdicts: map<nat, seq<Verdict>>) {
    forall f: Fold {:trigger Opened(f)} :: Opened(f) && f == OfScheduler ==>
        DedupOk(tasks, inFlight) && LearnersOk(tasks, held, verdicts)
  }

  function Told(verdicts: map<nat, seq<Verdict>>, l: nat, v: Verdict): map<nat, seq<Verdict>> {
    verdicts[l := VerdictsOf(verdicts, l) + [v]]
  }

  /** Learners that were held stay known, and verdicts are never taken back. */
  ghost predicate Remembers(held: set<nat>, held': set<nat>, verdicts: map<nat, seq<Verdict>>,
      verdicts': map<nat, seq<Verdict>>) {
    held <= held' && forall l: nat :: VerdictsOf(verdicts, l) <= VerdictsOf(verdicts', l)
  }

  lemma ToldRemembers(held: set<nat>, held': set<nat>, verdicts: map<nat, seq<Verdict>>, l: nat, v: Verdict)
    requires held <= held'
    ensures Remembers(held, held', verdicts, Told(verdicts, l, v))
  {
  }

  /** delete on the in-flight map; tasks without a key are not in it. */
  function Forgotten(inFlight: map<nat, nat>, key: Option<nat>): map<nat, nat> {
    if key.Some? then inFlight - {key.value} else inFlight
  }

  ghost function Completed(tasks: map<nat, Task>, t: nat): map<nat, Task>
    requires t in tasks
  {
    tasks[t := tasks[t].(currentWorker := None, learner := None)]
  }

  lemma CompletedDedup(tasks: map<nat, Task>, inFlight: map<nat, nat>, t: nat)
    requires DedupOk(tasks, inFlight) && Unfinished(tasks, t)
    ensures DedupOk(Completed(tasks, t), Forgotten(inFlight, tasks[t].key))
  {
  }

  lemma CompletedLearners(tasks: map<nat, Task>, held: set<nat>, verdicts: map<nat, seq<Verdict>>, t: nat, v: Verdict)
    requires LearnersOk(tasks, held, verdicts) && Unfinished(tasks, t)
    ensures LearnersOk(Completed(tasks, t), held, Told(verdicts, tasks[t].learner.value, v))
  {
    var tasks' := Completed(tasks, t);
    var l, verdicts' := tasks[t].learner.value, Told(verdicts, tasks[t].learner.value, v);
    assert Held(tasks, l);
    forall k: nat | k in held ensures |VerdictsOf(verdicts', k)| == if Held(tasks', k) then 0 else 1 {
      if k == l {
        assert !Held(tasks', l);
      } else {
        HeldElsewhere(tasks, tasks', t, k);
      }
    }
  }

  /** Completing a task, its learner told, keeps the registers right. */
  lemma CompletedRegistered(tasks: map<nat, Task>, inFlight: map<nat, nat>, held: set<nat>,
      verdicts: map<nat, seq<Verdict>>, t: nat, v: Verdict)
    requires Registered(tasks, inFlight, held, verdicts) && Unfinished(tasks, t)
    ensures Registered(Completed(tasks, t), Forgotten(inFlight, tasks[t].key), held,
            Told(verdicts, tasks[t].learner.value, v))
  {
    assert Opened(OfScheduler);
    CompletedDedup(tasks, inFlight, t);
    CompletedLearners(tasks, held, verdicts, t, v);
  }

  /** Whether a learner is held does not depend on a task that does not hold it. */
  lemma HeldElsewhere(tasks: map<nat, Task>, tasks': map<nat, Task>, t: nat, l: nat)
    requires t in tasks' && tasks' == tasks[t := tasks'[t]] && tasks'[t].learner != Some(l)
             && (t in tasks ==> tasks[t].learner != Some(l))
    ensures Held(tasks', l) <==> Held(tasks, l)
  {
    if Held(tasks, l) {
      var u :| u in tasks && tasks[u].learner == Some(l);
      assert u in tasks' && tasks'[u].learner == Some(l);
    }
    if Held(tasks', l) {
      var u :| u in tasks' && tasks'[u].learner == Some(l);
      assert u in tasks && tasks[u].learner == Some(l);
    }
  }

  lemma LearnerKept(tasks: map<nat, Task>, t: nat, task: Task, l: nat)
    requires t in tasks && task.learner == tasks[t].learner
    ensures Held(tasks[t := task], l) <==> Held(tasks, l)
  {
    var tasks' := tasks[t := task];
    if Held(tasks, l) {
      var u :| u in tasks && tasks[u].learner == Some(l);
      assert u in tasks' && tasks'[u].learner == Some(l);
    }
    if Held(tasks', l) {
      var u :| u in tasks' && tasks'[u].learner == Some(l);
      assert u in tasks && tasks[u].learner == Some(l);
    }
  }

  /** Workers and operations do not matter to the registers. */
  lemma LeftRegistered(tasks: map<nat, Task>, inFlight: map<nat, nat>, held: set<nat>, verdicts: map<nat, seq<Verdict>>,
      t: nat, task: Task)
    requires Registered(tasks, inFlight, held, verdicts) && t in tasks && task.learner == tasks[t].learner
             && task.key == tasks[t].key
    ensures Registered(tasks[t := task], inFlight, held, verdicts)
  {
    assert Opened(OfScheduler);
    LeftDedup(tasks, inFlight, t, task);
    LeftLearners(tasks, held, verdicts, t, task);
  }

  lemma LeftDedup(tasks: map<nat, Task>, inFlight: map<nat, nat>, t: nat, task: Task)
    requires DedupOk(tasks, inFlight) && t in tasks && task.learner == tasks[t].learner && task.key == tasks[t].key
    ensures DedupOk(tasks[t := task], inFlight)
  {
  }

  lemma LeftLearners(tasks: map<nat, Task>, held: set<nat>, verdicts: map<nat, seq<Verdict>>, t: nat, task: Task)
    requires LearnersOk(tasks, held, verdicts) && t in tasks && task.learner == tasks[t].learner
    ensures LearnersOk(tasks[t := task], held, verdicts)
  {
    forall l: nat ensures Held(tasks[t := task], l) <==> Held(tasks, l) {
      LearnerKept(tasks, t, task, l);
    }
  }

  lemma CompletedHasNoWorker(tasks: map<nat, Task>, workers: map<nat, Worker>, queued: set<nat>, pending: set<Path>,
      children: set<Path>, load: Load, waiting: map<Path, set<nat>>, waitingChildren: map<Path, set<nat>>, t: nat)
    requires Consistent(tasks, workers, queued, pending, children, load, waiting, waitingChildren) && t in tasks
             && tasks[t].learner.None?
    ensures tasks[t].currentWorker.None?
  {
    assert Opened(OfScheduler);
    assert TaskOk(tasks, workers, t);
  }
}
