/** How the parts of the scheduler's state follow tasks, operations and workers that come and go. */
module SchedulerEvents {
  import opened Folding
  import opened InvocationTree
  import opened InvocationMoves
  import opened Options
  import opened SchedulerState
  import opened SchedulerSteps

  // ---- New operations ----

  lemma AheadLinked(children: set<Path>, load: Load, pending: set<Path>, p: Path, children': set<Path>)
    requires Linked(children, load, pending)
    requires forall i: Path :: i in children' <==> i in children || (|i| > 1 && i <= p)
    ensures Linked(children', load, pending + {p})
  {
    forall i: Path | |i| > 1 ensures LinkedAt(children', load, pending + {p}, i) {
      assert LinkedAt(children, load, pending, i);
      if Pending(pending, i) {
        var r :| r in pending && i <= r;
        assert r in pending + {p};
      }
      assert i <= p ==> p in pending + {p};
    }
  }

  lemma CreatedAhead(tasks: map<nat, Task>, workers: map<nat, Worker>, queued: set<nat>, pending: set<Path>,
      children: set<Path>, load: Load, waiting: map<Path, set<nat>>, waitingChildren: map<Path, set<nat>>,
                     p: Path, children': set<Path>)
    requires Consistent(tasks, workers, queued, pending, children, load, waiting, waitingChildren)
    requires forall i: Path :: i in children' <==> i in children || (|i| > 1 && i <= p)
    ensures Consistent(tasks, workers, queued, pending + {p}, children', load, waiting, waitingChildren)
  {
    assert Opened(OfScheduler);
    AheadLinked(children, load, pending, p, children');
  }

  /** An invocation that holds an operation, queued or executing, exists already. */
  lemma OperationIsLinked(tasks: map<nat, Task>, workers: map<nat, Worker>, queued: set<nat>, children: set<Path>,
      load: Load, waiting: map<Path, set<nat>>, waitingChildren: map<Path, set<nat>>, t: nat, p: Path)
    requires Consistent(tasks, workers, queued, {p}, children, load, waiting, waitingChildren)
    requires t in tasks && p in tasks[t].operations && (t in queued || tasks[t].currentWorker.Some?)
    ensures Consistent(tasks, workers, queued, {}, children, load, waiting, waitingChildren)
  {
    assert Opened(OfScheduler);
    assert TaskOk(tasks, workers, t);
    if t !in queued {
      TaskIsExecuting(tasks, workers, load.executingWorkers, tasks[t].currentWorker.value);
    }
    forall i: Path | |i| > 1 ensures LinkedAt(children, load, {}, i) {
      assert LinkedAt(children, load, {p}, i);
      if i <= p {
        if t in queued {
          assert t in At(load.queuedOperations, p);
          QueuedIsBelow(load, i);
        } else {
          assert Pending(tasks[t].operations, i);
        }
      }
    }
  }

  ghost function Joined(tasks: map<nat, Task>, t: nat, p: Path): map<nat, Task>
    requires t in tasks
  {
    tasks[t := tasks[t].(operations := tasks[t].operations + {p})]
  }

  lemma JoinedPaired(tasks: map<nat, Task>, workers: map<nat, Worker>, t: nat, p: Path, q: nat)
    requires Paired(tasks, workers) && Unfinished(tasks, t) && OnQueue(tasks[t].operations + {p}, q)
    ensures Paired(Joined(tasks, t, p), workers)
  {
    var tasks' := Joined(tasks, t, p);
    forall u | u in tasks' ensures TaskOk(tasks', workers, u) {
      assert TaskOk(tasks, workers, u);
    }
    forall v | v in workers ensures WorkerOk(tasks', workers, v) {
      assert WorkerOk(tasks, workers, v);
    }
  }

  /** Another operation for a task that is executing. */
  lemma JoinedExecuting(tasks: map<nat, Task>, workers: map<nat, Worker>, queued: set<nat>, children: set<Path>,
      load: Load, waiting: map<Path, set<nat>>, waitingChildren: map<Path, set<nat>>,
                        t: nat, w: nat, p: Path, q: nat, ew: map<Path, map<nat, nat>>)
    requires Consistent(tasks, workers, queued, {p}, children, load, waiting, waitingChildren)
    requires Unfinished(tasks, t) && t !in queued && tasks[t].currentWorker == Some(w) && p !in tasks[t].operations
             && OnQueue(tasks[t].operations + {p}, q)
    requires Positive(ew) && ExecRaised(load.executingWorkers, ew, p, w, 0)
    ensures Consistent(Joined(tasks, t, p), workers, queued, {}, children, load.(executingWorkers := ew), waiting,
            waitingChildren)
  {
    assert Opened(OfScheduler);
    assert TaskOk(tasks, workers, t);
    JoinedPaired(tasks, workers, t, p, q);
    JoinedExec(tasks, workers, t, w, p, load.executingWorkers, ew);
    assert ExecAdded(load.executingWorkers, ew, {p}, w) by {
      assert forall i: Path :: Count({}, i) == 0;
      AddedOne(load.executingWorkers, load.executingWorkers, ew, {}, p, w);
      assert {} + {p} == {p};
    }
    TakenLinked(children, load, {p}, w, ew);
  }

  lemma JoinedExec(tasks: map<nat, Task>, workers: map<nat, Worker>, t: nat, w: nat, p: Path,
      ew: map<Path, map<nat, nat>>, ew': map<Path, map<nat, nat>>)
    requires Paired(tasks, workers) && ExecOk(tasks, workers, ew) && t in tasks && w in workers
             && workers[w].currentTask == Some(t)
    requires p !in tasks[t].operations && Positive(ew') && ExecRaised(ew, ew', p, w, 0)
    ensures ExecOk(Joined(tasks, t, p), workers, ew')
  {
    var tasks' := Joined(tasks, t, p);
    forall i: Path, v: nat | i != [] ensures ExecAt(ew', i, v) == Count(OperationsOf(tasks', workers, v), i) {
      if v == w {
        CountAdd(tasks[t].operations, p, i);
      } else {
        assert v in workers ==> WorkerOk(tasks, workers, v) && WorkerOk(tasks, workers, w);
        assert OperationsOf(tasks', workers, v) == OperationsOf(tasks, workers, v);
      }
    }
  }

  /** Another operation for a task that is queued. */
  lemma JoinedQueued(tasks: map<nat, Task>, workers: map<nat, Worker>, queued: set<nat>, children: set<Path>,
      load: Load, waiting: map<Path, set<nat>>, waitingChildren: map<Path, set<nat>>,
                     t: nat, p: Path, q: nat, load': Load)
    requires Consistent(tasks, workers, queued, {p}, children, load, waiting, waitingChildren)
    requires IsQueuedTask(tasks, t) && t in queued && p !in tasks[t].operations && OnQueue(tasks[t].operations + {p}, q)
    requires load' == load.(queuedOperations := load'.queuedOperations, queuedChildren := load'.queuedChildren)
    requires Listed(load'.queuedOperations, load'.queuedChildren)
             && Put(load.queuedOperations, load'.queuedOperations, {p}, t)
    ensures Consistent(Joined(tasks, t, p), workers, queued, {}, children, load', waiting, waitingChildren)
  {
    assert Opened(OfScheduler);
    assert TaskOk(tasks, workers, t);
    JoinedPaired(tasks, workers, t, p, q);
    forall v: nat ensures OperationsOf(Joined(tasks, t, p), workers, v) == OperationsOf(tasks, workers, v) {
      assert v in workers ==> WorkerOk(tasks, workers, v);
    }
    EnqueuedLinked(children, load, load', {p}, t);
    JoinedConserved(tasks, workers, queued, t, p, q);
  }

  lemma JoinedConserved(tasks: map<nat, Task>, workers: map<nat, Worker>, queued: set<nat>, t: nat, p: Path, q: nat)
    requires Conserved(tasks, queued, workers) && t in tasks && t in queued && tasks[t].operations != {}
             && OnQueue(tasks[t].operations + {p}, q)
    ensures Conserved(Joined(tasks, t, p), queued, workers)
  {
    var r :| r in tasks[t].operations;
    assert r[0] == q;
    forall w | w in workers && workers[w].waiting ensures Elsewhere(tasks[t].operations + {p}, workers[w].queue) {
      assert Elsewhere(tasks[t].operations, workers[w].queue);
    }
  }

  // ---- New tasks ----

  lemma TaskAdded(tasks: map<nat, Task>, workers: map<nat, Worker>, queued: set<nat>, pending: set<Path>,
      children: set<Path>, load: Load, waiting: map<Path, set<nat>>, waitingChildren: map<Path, set<nat>>,
                  t: nat, task: Task)
    requires Consistent(tasks, workers, queued, pending, children, load, waiting, waitingChildren)
    requires t !in tasks && t !in queued && task.currentWorker.None? && task.operations != {} && exists q ::
               OnQueue(task.operations, q)
    ensures Consistent(tasks[t := task], workers, queued, pending, children, load, waiting, waitingChildren)
  {
    assert Opened(OfScheduler);
    var tasks' := tasks[t := task];
    forall u | u in tasks' ensures TaskOk(tasks', workers, u) {
      assert u in tasks ==> TaskOk(tasks, workers, u);
    }
    forall v | v in workers ensures WorkerOk(tasks', workers, v) {
      assert WorkerOk(tasks, workers, v);
    }
    forall v: nat ensures OperationsOf(tasks', workers, v) == OperationsOf(tasks, workers, v) {
      assert v in workers ==> WorkerOk(tasks, workers, v);
    }
  }

  /** A learner no task has held and that was told nothing. */
  ghost predicate NewLearner(held: set<nat>, verdicts: map<nat, seq<Verdict>>, l: nat) {
    l !in held && VerdictsOf(verdicts, l) == []
  }

  ghost function Remembered(inFlight: map<nat, nat>, key: Option<nat>, t: nat): map<nat, nat> {
    if key.Some? then inFlight[key.value := t] else inFlight
  }

  lemma AddedDedup(tasks: map<nat, Task>, inFlight: map<nat, nat>, t: nat, task: Task)
    requires DedupOk(tasks, inFlight) && t !in tasks && task.learner.Some?
             && (task.key.Some? ==> task.key.value !in inFlight)
    ensures DedupOk(tasks[t := task], Remembered(inFlight, task.key, t))
  {
  }

  lemma AddedLearners(tasks: map<nat, Task>, held: set<nat>, verdicts: map<nat, seq<Verdict>>, t: nat, task: Task)
    requires LearnersOk(tasks, held, verdicts) && (t in tasks ==> tasks[t].learner.None?)
    requires task.learner.Some? && NewLearner(held, verdicts, task.learner.value)
    ensures LearnersOk(tasks[t := task], held + {task.learner.value}, verdicts)
  {
    var tasks', l := tasks[t := task], task.learner.value;
    assert tasks'[t].learner == Some(l);
    forall k: nat | k in held + {l} ensures |VerdictsOf(verdicts, k)| == if Held(tasks', k) then 0 else 1 {
      if k != l {
        HeldElsewhere(tasks, tasks', t, k);
      }
    }
  }

  lemma AddedRegistered(tasks: map<nat, Task>, inFlight: map<nat, nat>, held: set<nat>,
      verdicts: map<nat, seq<Verdict>>, t: nat, task: Task)
    requires Registered(tasks, inFlight, held, verdicts) && t !in tasks
             && (task.key.Some? ==> task.key.value !in inFlight)
    requires task.learner.Some? && NewLearner(held, verdicts, task.learner.value)
    ensures Registered(tasks[t := task], Remembered(inFlight, task.key, t), held + {task.learner.value}, verdicts)
  {
    assert Opened(OfScheduler);
    AddedDedup(tasks, inFlight, t, task);
    AddedLearners(tasks, held, verdicts, t, task);
  }

  /** A new learner is told something at once. */
  lemma StrangerTold(tasks: map<nat, Task>, inFlight: map<nat, nat>, held: set<nat>, verdicts: map<nat, seq<Verdict>>,
      l: nat, v: Verdict)
    requires Registered(tasks, inFlight, held, verdicts) && NewLearner(held, verdicts, l)
    ensures Registered(tasks, inFlight, held + {l}, Told(verdicts, l, v))
  {
    assert Opened(OfScheduler);
    assert !Held(tasks, l);
  }

  /** The learner of an unfinished task is told of a failure and replaced. */
  lemma RetriedRegistered(tasks: map<nat, Task>, inFlight: map<nat, nat>, held: set<nat>,
      verdicts: map<nat, seq<Verdict>>, t: nat, task: Task)
    requires Registered(tasks, inFlight, held, verdicts) && Unfinished(tasks, t) && task.key == tasks[t].key
    requires task.learner.Some? && NewLearner(held, verdicts, task.learner.value)
    ensures Registered(tasks[t := task], inFlight, held + {task.learner.value},
            Told(verdicts, tasks[t].learner.value, Failed))
  {
    assert Opened(OfScheduler);
    CompletedLearners(tasks, held, verdicts, t, Failed);
    var done, told := Completed(tasks, t), Told(verdicts, tasks[t].learner.value, Failed);
    AddedLearners(done, held, told, t, task);
    assert done[t := task] == tasks[t := task];
    RetriedDedup(tasks, inFlight, t, task);
  }

  lemma RetriedDedup(tasks: map<nat, Task>, inFlight: map<nat, nat>, t: nat, task: Task)
    requires DedupOk(tasks, inFlight) && Unfinished(tasks, t) && task.key == tasks[t].key && task.learner.Some?
    ensures DedupOk(tasks[t := task], inFlight)
  {
  }

  /** The task registered under a key is unfinished. */
  lemma InFlightTask(tasks: map<nat, Task>, inFlight: map<nat, nat>, held: set<nat>, verdicts: map<nat, seq<Verdict>>,
      key: nat)
    requires Registered(tasks, inFlight, held, verdicts) && key in inFlight
    ensures Unfinished(tasks, inFlight[key]) && tasks[inFlight[key]].key == Some(key)
  {
    assert Opened(OfScheduler);
  }

  lemma UnfinishedHasQueue(tasks: map<nat, Task>, workers: map<nat, Worker>, queued: set<nat>, pending: set<Path>,
      children: set<Path>, load: Load, waiting: map<Path, set<nat>>, waitingChildren: map<Path, set<nat>>, t: nat)
      returns (q: nat)
    requires Consistent(tasks, workers, queued, pending, children, load, waiting, waitingChildren)
             && Unfinished(tasks, t)
    ensures tasks[t].operations != {} && OnQueue(tasks[t].operations, q)
    ensures tasks[t].currentWorker.Some? ==>
              tasks[t].currentWorker.value in workers && workers[tasks[t].currentWorker.value].queue == q
  {
    assert Opened(OfScheduler);
    assert TaskOk(tasks, workers, t);
    if tasks[t].currentWorker.Some? {
      q := workers[tasks[t].currentWorker.value].queue;
    } else {
      q :| OnQueue(tasks[t].operations, q);
    }
  }

  /** Scheduling does not concern the registers. */
  lemma ScheduledRegistered(tasks: map<nat, Task>, workers: map<nat, Worker>, tasks': map<nat, Task>,
      workers': map<nat, Worker>, t: nat, q: nat, inFlight: map<nat, nat>, held: set<nat>,
      verdicts: map<nat, seq<Verdict>>)
    requires Registered(tasks, inFlight, held, verdicts) && t in tasks
             && Scheduled(tasks, workers, tasks', workers', t, q)
    ensures Registered(tasks', inFlight, held, verdicts)
  {
    if tasks' != tasks {
      var w :| HandedTo(tasks, workers, tasks', workers', t, q, w);
      LeftRegistered(tasks, inFlight, held, verdicts, t, tasks'[t]);
    }
  }

  // ---- Operations are removed ----

  ghost function Parted(tasks: map<nat, Task>, t: nat, p: Path): map<nat, Task>
    requires t in tasks
  {
    tasks[t := tasks[t].(operations := tasks[t].operations - {p})]
  }

  lemma PartedPaired(tasks: map<nat, Task>, workers: map<nat, Worker>, t: nat, p: Path)
    requires Paired(tasks, workers) && t in tasks && (tasks[t].learner.Some? ==> tasks[t].operations - {p} != {})
    ensures Paired(Parted(tasks, t, p), workers)
  {
    var tasks' := Parted(tasks, t, p);
    forall u | u in tasks' ensures TaskOk(tasks', workers, u) {
      assert TaskOk(tasks, workers, u);
      if u == t && tasks[t].learner.Some? {
        var q :| OnQueue(tasks[t].operations, q);
        assert OnQueue(tasks'[t].operations, q);
      }
    }
    forall v | v in workers ensures WorkerOk(tasks', workers, v) {
      assert WorkerOk(tasks, workers, v);
    }
  }

  lemma PartedExec(tasks: map<nat, Task>, workers: map<nat, Worker>, t: nat, w: nat, p: Path,
      ew: map<Path, map<nat, nat>>, ew': map<Path, map<nat, nat>>)
    requires Paired(tasks, workers) && ExecOk(tasks, workers, ew) && t in tasks && w in workers
             && workers[w].currentTask == Some(t)
    requires p in tasks[t].operations && Positive(ew') && ExecLowered(ew, ew', p, w, 0)
    ensures ExecOk(Parted(tasks, t, p), workers, ew')
  {
    var tasks' := Parted(tasks, t, p);
    forall i: Path, v: nat | i != [] ensures ExecAt(ew', i, v) == Count(OperationsOf(tasks', workers, v), i) {
      if v == w {
        CountAdd(tasks[t].operations - {p}, p, i);
        assert tasks[t].operations - {p} + {p} == tasks[t].operations;
      } else {
        assert v in workers ==> WorkerOk(tasks, workers, v) && WorkerOk(tasks, workers, w);
        assert OperationsOf(tasks', workers, v) == OperationsOf(tasks, workers, v);
      }
    }
  }

  lemma PartedRest(tasks: map<nat, Task>, workers: map<nat, Worker>, queued: set<nat>, t: nat, p: Path,
      qo: map<Path, set<nat>>, qo': map<Path, set<nat>>)
    requires t in tasks && QueueOk(tasks, queued, qo) && Conserved(tasks, queued, workers)
    requires if t in queued then InvocationMoves.Taken(qo, qo', {p}, t) else qo' == qo
    ensures QueueOk(Parted(tasks, t, p), queued, qo') && Conserved(Parted(tasks, t, p), queued, workers)
  {
    forall w | t in queued && w in workers
      && workers[w].waiting ensures Elsewhere(tasks[t].operations - {p}, workers[w].queue) {
      assert Elsewhere(tasks[t].operations, workers[w].queue);
    }
  }

  /** An executing task loses one of several operations. */
  lemma PartedExecuting(tasks: map<nat, Task>, workers: map<nat, Worker>, queued: set<nat>, children: set<Path>,
      load: Load, waiting: map<Path, set<nat>>, waitingChildren: map<Path, set<nat>>,
                        t: nat, w: nat, p: Path, children': set<Path>, load': Load)
    requires Consistent(tasks, workers, queued, {}, children, load, waiting, waitingChildren)
    requires t in tasks && t !in queued && tasks[t].currentWorker == Some(w) && p in tasks[t].operations
             && tasks[t].operations - {p} != {}
    requires load' == load.(executingWorkers := load'.executingWorkers) && Positive(load'.executingWorkers)
    requires ExecLowered(load.executingWorkers, load'.executingWorkers, p, w, 0) && Linked(children', load', {})
    ensures Consistent(Parted(tasks, t, p), workers, queued, {}, children', load', waiting, waitingChildren)
  {
    assert Opened(OfScheduler);
    assert TaskOk(tasks, workers, t);
    PartedPaired(tasks, workers, t, p);
    PartedExec(tasks, workers, t, w, p, load.executingWorkers, load'.executingWorkers);
    PartedRest(tasks, workers, queued, t, p, load.queuedOperations, load.queuedOperations);
  }

  /** A queued task loses one of several operations; the invocations on the way to it may now be empty. */
  lemma PartedQueued(tasks: map<nat, Task>, workers: map<nat, Worker>, queued: set<nat>, children: set<Path>,
      load: Load, waiting: map<Path, set<nat>>, waitingChildren: map<Path, set<nat>>,
                     t: nat, p: Path, load': Load)
    requires Consistent(tasks, workers, queued, {}, children, load, waiting, waitingChildren)
    requires t in tasks && t in queued && tasks[t].currentWorker.None? && p in tasks[t].operations
             && tasks[t].operations - {p} != {}
    requires load' == load.(queuedOperations := load'.queuedOperations, queuedChildren := load'.queuedChildren)
    requires Listed(load'.queuedOperations, load'.queuedChildren)
             && InvocationMoves.Taken(load.queuedOperations, load'.queuedOperations, {p}, t)
    ensures Consistent(Parted(tasks, t, p), workers, queued, {p}, children, load', waiting, waitingChildren)
  {
    assert Opened(OfScheduler);
    PartedPaired(tasks, workers, t, p);
    PartedRest(tasks, workers, queued, t, p, load.queuedOperations, load'.queuedOperations);
    forall v: nat ensures OperationsOf(Parted(tasks, t, p), workers, v) == OperationsOf(tasks, workers, v) {
      assert v in workers ==> WorkerOk(tasks, workers, v);
    }
    PartedLinked(children, load, load', p, t);
  }

  lemma PartedLinked(children: set<Path>, load: Load, load': Load, p: Path, t: nat)
    requires Linked(children, load, {}) && Listed(load.queuedOperations, load.queuedChildren)
             && t in At(load.queuedOperations, p)
    requires load' == load.(queuedOperations := load'.queuedOperations, queuedChildren := load'.queuedChildren)
    requires Listed(load'.queuedOperations, load'.queuedChildren)
             && InvocationMoves.Taken(load.queuedOperations, load'.queuedOperations, {p}, t)
    ensures Linked(children, load', {p})
  {
    forall i: Path | |i| > 1 ensures LinkedAt(children, load', {p}, i) {
      assert LinkedAt(children, load, {}, i);
      QueuedIsBelow(load, i);
      QueuedIsBelow(load', i);
      assert Pending({p}, i) <==> i <= p;
      if Below(load'.queuedOperations, i) {
        var r :| i <= r && At(load'.queuedOperations, r) != {};
        assert At(load.queuedOperations, r) != {};
      }
      if Below(load.queuedOperations, i) && !(i <= p) {
        var r :| i <= r && At(load.queuedOperations, r) != {};
        assert At(load'.queuedOperations, r) != {};
      }
    }
  }

  /** The climb after a queued operation was removed: invocations are removed until one is not empty. */
  method UnlinkUp(children: set<Path>, load: Load, p: Path) returns (children': set<Path>)
    requires Upward(load) && Linked(children, load, {p})
    ensures Linked(children', load, {}) && Rooted(children')
  {
    children' := children;
    var n: nat := |p|;
    assert p[..n] == p;
    while n > 1
      invariant n <= |p| && Linked(children', load, {p[..n]})
    {
      var i := p[..n];
      assert LinkedAt(children', load, {i}, i);
      NoneBelowPending(children', load, i);
      var removed;
      var before := children';
      children', removed := RemoveIfEmpty(children', load, i);
      if !removed {
        break;
      }
      Unlinked(before, children', load, p, n);
      n := n - 1;
    }
    forall i: Path | |i| > 1 ensures LinkedAt(children', load, {}, i) {
      assert LinkedAt(children', load, {p[..n]}, i);
      if i <= p[..n] {
        assert UpAt(load, i, p[..n]);
        NonEmptyUp(load, i, p[..n]);
      }
    }
    LinkedIsRooted(children', load);
  }

  lemma NoneBelowPending(children: set<Path>, load: Load, i: Path)
    requires Upward(load) && Linked(children, load, {i}) && |i| > 1
    ensures !NonEmpty(load, i) ==> forall j :: j in children ==> !(i < j)
  {
    forall j | j in children && i < j ensures NonEmpty(load, i) {
      assert LinkedAt(children, load, {i}, j) && UpAt(load, i, j);
      NonEmptyUp(load, i, j);
    }
  }

  lemma Unlinked(children: set<Path>, children': set<Path>, load: Load, p: Path, n: nat)
    requires 1 < n <= |p| && Linked(children, load, {p[..n]}) && !NonEmpty(load, p[..n])
             && children' == children - {p[..n]}
    ensures Linked(children', load, {p[..n - 1]})
  {
    forall i: Path | |i| > 1 ensures LinkedAt(children', load, {p[..n - 1]}, i) {
      assert LinkedAt(children, load, {p[..n]}, i);
      assert Pending({p[..n]}, i) <==> i <= p[..n];
      assert Pending({p[..n - 1]}, i) <==> i <= p[..n - 1];
      if i <= p[..n] && i != p[..n] {
        assert i <= p[..n - 1];
      }
    }
  }

  lemma BeforeUnlinking(tasks: map<nat, Task>, workers: map<nat, Worker>, queued: set<nat>, pending: set<Path>,
      children: set<Path>, load: Load, waiting: map<Path, set<nat>>, waitingChildren: map<Path, set<nat>>)
    requires Consistent(tasks, workers, queued, pending, children, load, waiting, waitingChildren)
    ensures ExecOk(tasks, workers, load.executingWorkers) && IdleOk(workers, load.idleWorkersCount)
    ensures Listed(load.queuedOperations, load.queuedChildren) && Linked(children, load, pending) && Upward(load)
  {
    assert Opened(OfScheduler);
    CountersUp(tasks, workers, load);
  }

  lemma AfterUnlinking(tasks: map<nat, Task>, workers: map<nat, Worker>, queued: set<nat>, pending: set<Path>,
      children: set<Path>, load: Load, waiting: map<Path, set<nat>>, waitingChildren: map<Path, set<nat>>,
      children': set<Path>)
    requires Consistent(tasks, workers, queued, pending, children, load, waiting, waitingChildren)
             && Linked(children', load, {})
    ensures Consistent(tasks, workers, queued, {}, children', load, waiting, waitingChildren)
  {
    assert Opened(OfScheduler);
  }

  lemma BeforeParting(tasks: map<nat, Task>, workers: map<nat, Worker>, queued: set<nat>, children: set<Path>,
      load: Load, waiting: map<Path, set<nat>>, waitingChildren: map<Path, set<nat>>, t: nat, p: Path)
    requires Consistent(tasks, workers, queued, {}, children, load, waiting, waitingChildren) && t in tasks
             && p in tasks[t].operations && tasks[t].currentWorker.Some?
    ensures Linked(children, load, {}) && Upward(load)
            && ExecExceeds(load.executingWorkers, p, tasks[t].currentWorker.value)
    ensures forall i: Path :: i != [] && i <= p ==> ExecAt(load.executingWorkers, i, tasks[t].currentWorker.value) > 0
  {
    BeforeLeaving(tasks, workers, queued, children, load, waiting, waitingChildren, t);
    CountsExceed(load.executingWorkers, tasks[t].currentWorker.value, tasks[t].operations, p);
  }

  lemma QueuedAfterParting(tasks: map<nat, Task>, t: nat, p: Path)
    requires t in tasks
    ensures QueuedTasks(Parted(tasks, t, p)) == QueuedTasks(tasks)
            && QueuedTasks(Joined(tasks, t, p)) == QueuedTasks(tasks)
  {
  }

  lemma OneOfSeveral(ps: set<Path>, p: Path)
    requires p in ps && ps != {p}
    ensures ps - {p} != {}
  {
    assert ps == (ps - {p}) + {p};
  }

  /** The queued tasks after a new one was scheduled. */
  lemma QueuedWithNew(tasks: map<nat, Task>, workers: map<nat, Worker>, tasks': map<nat, Task>,
      workers': map<nat, Worker>, t: nat, q: nat, task: Task)
    requires (t in tasks ==> !IsQueuedTask(tasks, t)) && task.learner.Some? && task.currentWorker.None?
    requires Scheduled(tasks[t := task], workers, tasks', workers', t, q)
    ensures t in tasks' && QueuedTasks(tasks') == if tasks'[t].currentWorker.Some? then QueuedTasks(tasks)
            else QueuedTasks(tasks) + {t}
  {
    var added := tasks[t := task];
    assert QueuedTasks(added) == QueuedTasks(tasks) + {t};
    if tasks' != added {
      var w :| HandedTo(added, workers, tasks', workers', t, q, w);
      QueuedAfterTaking(added, t, w);
    }
  }

  // ---- Workers come and go ----

  /** A worker seen for the first time, with the root as its last invocation. */
  lemma WorkerAdded(tasks: map<nat, Task>, workers: map<nat, Worker>, queued: set<nat>, children: set<Path>, load: Load,
      waiting: map<Path, set<nat>>, waitingChildren: map<Path, set<nat>>,
                    w: nat, q: nat, idle: map<Path, nat>)
    requires Consistent(tasks, workers, queued, {}, children, load, waiting, waitingChildren) && w !in workers
    requires Raised(load.idleWorkersCount, idle, [q])
    ensures Consistent(tasks, workers[w := Worker(q, None, Some([q]), false, true)], queued, {}, children,
            load.(idleWorkersCount := idle), waiting, waitingChildren)
  {
    assert Opened(OfScheduler);
    var worker := Worker(q, None, Some([q]), false, true);
    var workers' := workers[w := worker];
    forall u | u in tasks ensures TaskOk(tasks, workers', u) {
      assert TaskOk(tasks, workers, u);
    }
    forall v | v in workers' ensures WorkerOk(tasks, workers', v) {
      assert v != w ==> WorkerOk(tasks, workers, v);
    }
    forall v: nat ensures OperationsOf(tasks, workers', v) == OperationsOf(tasks, workers, v) {
    }
    IdleJoined(workers, w, worker, load.idleWorkersCount, idle, [q]);
    RootIdleLinked(children, load, idle, q);
  }

  lemma RootIdleLinked(children: set<Path>, load: Load, idle: map<Path, nat>, q: nat)
    requires Linked(children, load, {}) && Raised(load.idleWorkersCount, idle, [q])
    ensures Linked(children, load.(idleWorkersCount := idle), {})
  {
    var load' := load.(idleWorkersCount := idle);
    forall i: Path | |i| > 1 ensures LinkedAt(children, load', {}, i) {
      assert LinkedAt(children, load, {}, i);
    }
  }

  /** Entering and leaving Synchronize. */
  lemma WorkerSynchronizes(tasks: map<nat, Task>, workers: map<nat, Worker>, queued: set<nat>, children: set<Path>,
      load: Load, waiting: map<Path, set<nat>>, waitingChildren: map<Path, set<nat>>, w: nat, synchronizing: bool)
    requires Consistent(tasks, workers, queued, {}, children, load, waiting, waitingChildren) && w in workers
             && (workers[w].waiting ==> synchronizing)
    ensures Consistent(tasks, workers[w := workers[w].(synchronizing := synchronizing)], queued, {}, children, load,
            waiting, waitingChildren)
  {
    assert Opened(OfScheduler);
    var workers' := workers[w := workers[w].(synchronizing := synchronizing)];
    forall u | u in tasks ensures TaskOk(tasks, workers', u) {
      assert TaskOk(tasks, workers, u);
    }
    forall v | v in workers' ensures WorkerOk(tasks, workers', v) {
      assert WorkerOk(tasks, workers, v);
    }
    forall v: nat ensures OperationsOf(tasks, workers', v) == OperationsOf(tasks, workers, v) {
    }
    IdleKept(workers, w, workers'[w], load.idleWorkersCount);
  }

  lemma RemovedPaired(tasks: map<nat, Task>, workers: map<nat, Worker>, w: nat)
    requires Paired(tasks, workers) && w in workers && workers[w].currentTask.None?
    ensures Paired(tasks, workers - {w})
  {
    var workers' := workers - {w};
    forall u | u in tasks ensures TaskOk(tasks, workers', u) {
      assert TaskOk(tasks, workers, u);
    }
    forall v | v in workers' ensures WorkerOk(tasks, workers', v) {
      assert WorkerOk(tasks, workers, v);
    }
  }

  lemma RemovedRest(tasks: map<nat, Task>, workers: map<nat, Worker>, w: nat, queued: set<nat>,
      ew: map<Path, map<nat, nat>>, waiting: map<Path, set<nat>>)
    requires w in workers && workers[w].currentTask.None? && !workers[w].waiting
    requires ExecOk(tasks, workers, ew) && WaitOk(workers, waiting) && Conserved(tasks, queued, workers)
    ensures ExecOk(tasks, workers - {w}, ew) && WaitOk(workers - {w}, waiting)
            && Conserved(tasks, queued, workers - {w})
  {
    forall v: nat ensures OperationsOf(tasks, workers - {w}, v) == OperationsOf(tasks, workers, v) {
    }
  }

  /** An idle worker that does not wait is removed. */
  lemma WorkerRemoved(tasks: map<nat, Task>, workers: map<nat, Worker>, queued: set<nat>, children: set<Path>,
      load: Load, waiting: map<Path, set<nat>>, waitingChildren: map<Path, set<nat>>,
                      w: nat, children': set<Path>, load': Load)
    requires Consistent(tasks, workers, queued, {}, children, load, waiting, waitingChildren) && w in workers
             && workers[w].currentTask.None? && !workers[w].waiting
    requires workers[w].lastInvocation.Some?
             && Lowered(load.idleWorkersCount, load'.idleWorkersCount, workers[w].lastInvocation.value, 0)
    requires load' == load.(idleWorkersCount := load'.idleWorkersCount) && Linked(children', load', {})
    ensures Consistent(tasks, workers - {w}, queued, {}, children', load', waiting, waitingChildren)
  {
    assert Opened(OfScheduler);
    RemovedPaired(tasks, workers, w);
    RemovedRest(tasks, workers, w, queued, load.executingWorkers, waiting);
    IdleLeft(workers, w, workers[w].(lastInvocation := None), load.idleWorkersCount, load'.idleWorkersCount,
      workers[w].lastInvocation.value);
  }

  // ---- Finding a queued task ----

  /** The sticky child of an idle worker is never missing: its last invocation exists. */
  lemma LastIsLinked(tasks: map<nat, Task>, workers: map<nat, Worker>, queued: set<nat>, children: set<Path>,
      load: Load, waiting: map<Path, set<nat>>, waitingChildren: map<Path, set<nat>>, w: nat, i: Path)
    requires Consistent(tasks, workers, queued, {}, children, load, waiting, waitingChildren) && w in workers
             && workers[w].lastInvocation.Some?
    requires |i| > 1 && i <= workers[w].lastInvocation.value
    ensures i in children
  {
    assert Opened(OfScheduler);
    LastIsCounted(workers, load.idleWorkersCount, w, workers[w].lastInvocation.value);
    assert LinkedAt(children, load, {}, i);
  }

  /** Going down: a queued invocation holds a queued operation itself or lists a queued child. */
  lemma QueuedChild(load: Load, i: Path)
    requires Listed(load.queuedOperations, load.queuedChildren) && i != [] && IsQueued(load, i)
             && At(load.queuedOperations, i) == {}
    ensures forall k :: k in At(load.queuedChildren, i) ==>
              IsQueued(load, i + [k]) && |i| < MaxLength(load.queuedOperations.Keys)
    ensures forall k: nat :: IsQueued(load, i + [k]) ==> k in At(load.queuedChildren, i)
  {
    forall k: nat ensures IsQueued(load, i + [k]) <==> k in At(load.queuedChildren, i) {
      assert ListedAt(load.queuedOperations, load.queuedChildren, i, k);
      QueuedIsBelow(load, i + [k]);
    }
    forall k | k in At(load.queuedChildren, i) ensures |i| < MaxLength(load.queuedOperations.Keys) {
      assert ListedAt(load.queuedOperations, load.queuedChildren, i, k);
      var p :| i + [k] <= p && At(load.queuedOperations, p) != {};
      assert p in load.queuedOperations.Keys;
    }
  }

  /** The root knows whether anything is queued. */
  lemma RootKnows(tasks: map<nat, Task>, workers: map<nat, Worker>, queued: set<nat>, load: Load, q: nat)
    requires Paired(tasks, workers) && QueueOk(tasks, queued, load.queuedOperations)
             && Listed(load.queuedOperations, load.queuedChildren)
    requires queued <= QueuedTasks(tasks) && !IsQueued(load, [q])
    ensures NothingQueued(tasks, queued, q)
  {
    QueuedIsBelow(load, [q]);
    forall t | t in queued && t in tasks ensures Elsewhere(tasks[t].operations, q) {
      assert TaskOk(tasks, workers, t);
      forall p | p in tasks[t].operations ensures p != [] && p[0] != q {
        assert t in At(load.queuedOperations, p);
        assert p != [] && p[0] == q ==> [q] <= p;
      }
    }
  }

  lemma QueuedFits(tasks: map<nat, Task>, workers: map<nat, Worker>, children: set<Path>, load: Load,
      waiting: map<Path, set<nat>>, waitingChildren: map<Path, set<nat>>, t: nat, p: Path)
    requires Consistent(tasks, workers, QueuedTasks(tasks), {}, children, load, waiting, waitingChildren)
             && t in At(load.queuedOperations, p) && p != []
    ensures IsQueuedTask(tasks, t) && OnQueue(tasks[t].operations, p[0])
  {
    assert Opened(OfScheduler);
    assert TaskOk(tasks, workers, t);
  }

  lemma LastOnQueue(tasks: map<nat, Task>, workers: map<nat, Worker>, children: set<Path>, load: Load,
      waiting: map<Path, set<nat>>, waitingChildren: map<Path, set<nat>>, w: nat)
    requires Consistent(tasks, workers, QueuedTasks(tasks), {}, children, load, waiting, waitingChildren)
             && w in workers && workers[w].lastInvocation.Some?
    ensures workers[w].lastInvocation.value != [] && workers[w].lastInvocation.value[0] == workers[w].queue
    ensures [workers[w].queue] + workers[w].lastInvocation.value[1..] == workers[w].lastInvocation.value
  {
    assert Opened(OfScheduler);
    assert WorkerOk(tasks, workers, w);
  }

  // ---- Retries ----

  /** The path of an invocation in another size class queue. */
  function MovedTo(q: nat, p: Path): Path {
    [q] + if p == [] then [] else p[1..]
  }

  ghost function AllMoved(q: nat, ps: set<Path>): set<Path> {
    set p | p in ps :: MovedTo(q, p)
  }

  lemma MovedDiffer(q: nat, p: Path, r: Path, q0: nat)
    requires p != [] && r != [] && p[0] == q0 && r[0] == q0 && p != r
    ensures MovedTo(q, p) != MovedTo(q, r)
  {
    assert r == [q0] + r[1..] && p == [q0] + p[1..];
    assert MovedTo(q, r)[1..] == r[1..] && MovedTo(q, p)[1..] == p[1..];
  }

  /** No two operations of a task move to the same invocation. */
  lemma {:induction false} MovedCount(q: nat, ps: set<Path>, q0: nat)
    requires OnQueue(ps, q0)
    ensures |AllMoved(q, ps)| == |ps| && OnQueue(AllMoved(q, ps), q)
  {
    if ps != {} {
      var p :| p in ps;
      var rest := ps - {p};
      MovedCount(q, rest, q0);
      MovedOne(q, ps, p, q0);
    }
  }

  lemma MovedOne(q: nat, ps: set<Path>, p: Path, q0: nat)
    requires OnQueue(ps, q0) && p in ps
    ensures MovedTo(q, p) !in AllMoved(q, ps - {p}) && AllMoved(q, ps) == AllMoved(q, ps - {p}) + {MovedTo(q, p)}
  {
    forall r | r in ps - {p} ensures MovedTo(q, r) != MovedTo(q, p) {
      MovedDiffer(q, p, r, q0);
    }
  }

  /** Counting a retry concerns nothing else. */
  lemma RetryCounted(tasks: map<nat, Task>, workers: map<nat, Worker>, queued: set<nat>, pending: set<Path>,
      children: set<Path>, load: Load, waiting: map<Path, set<nat>>, waitingChildren: map<Path, set<nat>>, t: nat,
      n: nat)
    requires Consistent(tasks, workers, queued, pending, children, load, waiting, waitingChildren) && t in tasks
    ensures Consistent(tasks[t := tasks[t].(retryCount := n)], workers, queued, pending, children, load, waiting,
            waitingChildren)
    ensures QueuedTasks(tasks[t := tasks[t].(retryCount := n)]) == QueuedTasks(tasks)
  {
    assert Opened(OfScheduler);
    var tasks' := tasks[t := tasks[t].(retryCount := n)];
    forall u | u in tasks' ensures TaskOk(tasks', workers, u) {
      assert TaskOk(tasks, workers, u);
    }
    forall v | v in workers ensures WorkerOk(tasks', workers, v) {
      assert WorkerOk(tasks, workers, v);
    }
    forall v: nat ensures OperationsOf(tasks', workers, v) == OperationsOf(tasks, workers, v) {
    }
  }

  lemma WorkersTask(tasks: map<nat, Task>, workers: map<nat, Worker>, queued: set<nat>, pending: set<Path>,
      children: set<Path>, load: Load, waiting: map<Path, set<nat>>, waitingChildren: map<Path, set<nat>>, w: nat)
    requires Consistent(tasks, workers, queued, pending, children, load, waiting, waitingChildren) && w in workers
    ensures workers[w].currentTask.Some? ==>
              Unfinished(tasks, workers[w].currentTask.value)
              && tasks[workers[w].currentTask.value].currentWorker == Some(w)
    ensures workers[w].waiting ==> workers[w].currentTask.None? && workers[w].synchronizing
  {
    assert Opened(OfScheduler);
    assert WorkerOk(tasks, workers, w);
    if workers[w].currentTask.Some? {
      assert TaskOk(tasks, workers, workers[w].currentTask.value);
    }
  }

  // ---- Workers that are not concerned ----

  /** What may happen to a worker that does not wait, in a step of others: it may lose its task. */
  ghost predicate SparedAt(a: Worker, b: Worker) {
    !b.waiting && b.synchronizing == a.synchronizing && b.queue == a.queue
      && (b.currentTask.Some? ==> b.currentTask == a.currentTask)
  }

  /** No worker appears, none that synchronizes disappears, and only waiting ones are handed a task. */
  ghost predicate Spared(workers: map<nat, Worker>, workers': map<nat, Worker>, except: set<nat>) {
    && (forall v :: v in workers' && v !in except ==>
         v in workers && (!workers[v].waiting ==> SparedAt(workers[v], workers'[v])))
    && (forall v :: v in workers && v !in except && workers[v].synchronizing ==>
          v in workers' && workers'[v].synchronizing && workers'[v].queue == workers[v].queue)
  }

  lemma ScheduledSpares(tasks: map<nat, Task>, workers: map<nat, Worker>, tasks': map<nat, Task>,
      workers': map<nat, Worker>, t: nat, q: nat)
    requires Scheduled(tasks, workers, tasks', workers', t, q)
    ensures Spared(workers, workers', {})
  {
    if workers' != workers {
      var v :| HandedTo(tasks, workers, tasks', workers', t, q, v);
    }
  }

  // ---- Completions ----

  /** Another run of the task, wanted by its learner for training. */
  datatype Background = Background(learner: nat, queue: nat, keys: seq<nat>, maximum: nat, task: nat)

  /** How a task ended on a worker, and what its learner asks for. */
  datatype Outcome =
    | Success(background: Option<Background>)
    | Failure(retry: Option<nat>)

  /** Learners and tasks that the outcome brings in are new. */
  ghost predicate OutcomeIsNew(tasks: map<nat, Task>, held: set<nat>, verdicts: map<nat, seq<Verdict>>,
      outcome: Outcome) {
    match outcome
    case Success(background) => background.Some? ==>
        NewLearner(held, verdicts, background.value.learner) && background.value.task !in tasks
    case Failure(retry) => retry.Some? ==> NewLearner(held, verdicts, retry.value)
  }

  /** The learners that an outcome brings in. */
  function LearnersFrom(outcome: Outcome): set<nat> {
    match outcome
    case Success(background) => if background.Some? then {background.value.learner} else {}
    case Failure(retry) => if retry.Some? then {retry.value} else {}
  }

  /** No task holds the learner, and it was never told anything. */
  predicate Unknown(tasks: map<nat, Task>, verdicts: map<nat, seq<Verdict>>, l: nat) {
    VerdictsOf(verdicts, l) == [] && forall t :: t in tasks ==> tasks[t].learner != Some(l)
  }

  predicate OutcomeUnknown(tasks: map<nat, Task>, verdicts: map<nat, seq<Verdict>>, outcome: Outcome) {
    match outcome
    case Success(background) => background.Some? ==>
        Unknown(tasks, verdicts, background.value.learner) && background.value.task !in tasks
    case Failure(retry) => retry.Some? ==> Unknown(tasks, verdicts, retry.value)
  }

  /** Such a learner is new, because all that were ever held and are no longer have been told something. */
  lemma UnknownIsNew(tasks: map<nat, Task>, inFlight: map<nat, nat>, held: set<nat>, verdicts: map<nat, seq<Verdict>>,
      l: nat)
    requires Registered(tasks, inFlight, held, verdicts) && Unknown(tasks, verdicts, l)
    ensures NewLearner(held, verdicts, l)
  {
    assert Opened(OfScheduler);
  }

  lemma OutcomeUnknownIsNew(tasks: map<nat, Task>, inFlight: map<nat, nat>, held: set<nat>,
      verdicts: map<nat, seq<Verdict>>, outcome: Outcome)
    requires Registered(tasks, inFlight, held, verdicts) && OutcomeUnknown(tasks, verdicts, outcome)
    ensures OutcomeIsNew(tasks, held, verdicts, outcome)
  {
    match outcome {
      case Success(background) =>
        if background.Some? {
          UnknownIsNew(tasks, inFlight, held, verdicts, background.value.learner);
        }
      case Failure(retry) =>
        if retry.Some? {
          UnknownIsNew(tasks, inFlight, held, verdicts, retry.value);
        }
    }
  }

  /** A worker that does not wait is not handed anything. */
  lemma NotHanded(tasks: map<nat, Task>, workers: map<nat, Worker>, tasks': map<nat, Task>, workers': map<nat, Worker>,
      t: nat, q: nat, w: nat)
    requires Scheduled(tasks, workers, tasks', workers', t, q) && w in workers && !workers[w].waiting
    ensures w in workers' && workers'[w] == workers[w]
    ensures forall u :: u in tasks && u != t ==> u in tasks' && tasks'[u] == tasks[u]
    ensures t in tasks ==>
              t in tasks' && tasks'[t] == tasks[t].(currentWorker := tasks'[t].currentWorker,
              retryCount := tasks'[t].retryCount)
  {
    if workers' != workers {
      var v :| HandedTo(tasks, workers, tasks', workers', t, q, v);
    }
  }

  /** The worker has been left without a task. */
  ghost predicate LeftIdle(workers: map<nat, Worker>, workers': map<nat, Worker>, w: nat) {
    && w in workers && w in workers' && workers'[w].currentTask.None? && workers'[w].lastInvocation.Some?
    && workers'[w] == workers[w].(currentTask := None, lastInvocation := workers'[w].lastInvocation)
  }

  lemma LeavingIdles(tasks: map<nat, Task>, workers: map<nat, Worker>, tasks': map<nat, Task>,
      workers': map<nat, Worker>, t: nat, completedByWorker: bool)
    requires Left(tasks, workers, tasks', workers', t, completedByWorker) && tasks[t].currentWorker.Some?
    ensures LeftIdle(workers, workers', tasks[t].currentWorker.value)
    ensures forall v :: v in workers && v != tasks[t].currentWorker.value ==> v in workers' && workers'[v] == workers[v]
    ensures workers'.Keys == workers.Keys && Spared(workers, workers', {})
  {
    var last :| LeftAt(tasks, workers, workers', t, completedByWorker, last);
  }

  /** An invocation with a queued operation exists already. */
  lemma QueuedIsLinked(tasks: map<nat, Task>, workers: map<nat, Worker>, queued: set<nat>, children: set<Path>,
      load: Load, waiting: map<Path, set<nat>>, waitingChildren: map<Path, set<nat>>, p: Path)
    requires Consistent(tasks, workers, queued, {p}, children, load, waiting, waitingChildren)
             && At(load.queuedOperations, p) != {}
    ensures Consistent(tasks, workers, queued, {}, children, load, waiting, waitingChildren)
  {
    var t :| t in At(load.queuedOperations, p);
    assert t in queued && t in tasks && p in tasks[t].operations by {
      assert Opened(OfScheduler);
    }
    OperationIsLinked(tasks, workers, queued, children, load, waiting, waitingChildren, t, p);
  }

  lemma RetriedQueued(tasks: map<nat, Task>, workers: map<nat, Worker>, tasks': map<nat, Task>,
      workers': map<nat, Worker>, t: nat, q: nat, task: Task, queued: set<nat>)
    requires IsQueuedTask(tasks, t) && queued == QueuedTasks(tasks) - {t} && task.learner.Some?
             && task.currentWorker.None?
    requires Scheduled(tasks[t := task], workers, tasks', workers', t, q)
    ensures t in tasks' && QueuedTasks(tasks') == if tasks'[t].currentWorker.Some? then queued else queued + {t}
  {
    assert (tasks - {t})[t := task] == tasks[t := task];
    QueuedWithNew(tasks - {t}, workers, tasks', workers', t, q, task);
    assert QueuedTasks(tasks - {t}) == queued;
  }

  /** The queued tasks, other than one in transit, after a background task was scheduled. */
  lemma BackgroundQueued(tasks: map<nat, Task>, workers: map<nat, Worker>, tasks': map<nat, Task>,
      workers': map<nat, Worker>, t: nat, b: nat, q: nat, task: Task, queued: set<nat>)
    requires IsQueuedTask(tasks, t) && queued == QueuedTasks(tasks) - {t} && b !in tasks && task.learner.Some?
             && task.currentWorker.None?
    requires Scheduled(tasks[b := task], workers, tasks', workers', b, q)
    ensures b in tasks' && QueuedTasks(tasks') - {t} == if tasks'[b].currentWorker.Some? then queued else queued + {b}
  {
    QueuedWithNew(tasks, workers, tasks', workers', b, q, task);
  }

  lemma LearnerIsHeld(tasks: map<nat, Task>, inFlight: map<nat, nat>, held: set<nat>, verdicts: map<nat, seq<Verdict>>,
      t: nat)
    requires Registered(tasks, inFlight, held, verdicts) && Unfinished(tasks, t)
    ensures tasks[t].learner.value in held
  {
    assert Opened(OfScheduler);
  }

  // ---- Synchronization ----

  /** What a worker reports to be doing. */
  datatype Report =
    | Idling
    | Rejecting(task: nat, isError: bool)
    | Running(task: nat)
    | Finishing(task: nat, outcome: Outcome)

  /** What Synchronize answers; `Waiting` and `Drained` mean that the call blocks. */
  datatype Response =
    | GoIdle
    | Run(task: nat)
    | Continue
    | Waiting
    | Drained
    | Refused

  /** What a worker without a task is answered: to go idle if it asked for that or may not block, to wait for being
      undrained, to run a queued task whenever there is one, and otherwise to wait. */
  ghost predicate NextAnswer(tasks: map<nat, Task>, q: nat, mayBlock: bool, isDrained: bool, preferBeingIdle: bool,
      r: Response) {
    && (r.Run? || r.GoIdle? || r.Waiting? || r.Drained?)
    && (r.Run? ==> !preferBeingIdle && !isDrained && IsQueuedTask(tasks, r.task))
    && (!preferBeingIdle && !isDrained && !NothingQueued(tasks, QueuedTasks(tasks), q) ==> r.Run?)
    && (r.GoIdle? ==> preferBeingIdle || !mayBlock)
    && (r.Drained? <==> !preferBeingIdle && isDrained && mayBlock)
    && (r.Waiting? ==> !preferBeingIdle && !isDrained && mayBlock)
  }

  /** What the answer says about the worker. */
  ghost predicate Answers(workers: map<nat, Worker>, w: nat, r: Response) {
    && w in workers && (r.GoIdle? || r.Waiting? || r.Drained? ==> workers[w].currentTask.None?)
    && (r.Run? ==> workers[w].currentTask == Some(r.task))
    && (r.Waiting? <==> workers[w].waiting)
    && (workers[w].synchronizing <==> r.Waiting? || r.Drained?)
  }

  lemma EmptyConsistent()
    ensures Consistent(map[], map[], {}, {}, {}, Load(map[], map[], map[], map[]), map[], map[])
            && Registered(map[], map[], {}, map[])
  {
    assert Opened(OfScheduler);
    assert forall i: Path :: Count({}, i) == 0;
    assert forall i: Path :: IdleAt(map[], i) == {};
    assert forall i: Path :: PositiveAt(map[], i);
    assert forall i: Path, k: nat :: ListedAt(map[], map[], i, k);
    assert forall i: Path :: LinkedAt({}, Load(map[], map[], map[], map[]), {}, i);
  }

  /** Why a blocked call of Synchronize goes on. */
  datatype Wake = Timeout | Cancelled | Woken
}
