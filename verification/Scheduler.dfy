/** The in-memory build queue. Each method is one critical section, or a part of one. */
module Scheduler {
  import opened Folding
  import opened InvocationTree
  import opened InvocationMoves
  import opened Options
  import opened SchedulerState
  import opened SchedulerSteps
  import opened SchedulerEvents
  import opened SchedulerEffects

  class BuildQueue {
    var tasks: map<nat, Task>
    var workers: map<nat, Worker>
    var inFlight: map<nat, nat>

    // The tree of invocations: which nested ones exist, and what they keep.
    var children: set<Path>
    var load: Load
    var waiting: map<Path, set<nat>>
    var waitingChildren: map<Path, set<nat>>

    /** What the learners were told. */
    var verdicts: map<nat, seq<Verdict>>

    /** The learners that the scheduler ever got, for a task or only to abandon them. */
    ghost var held: set<nat>

    function Seen(): View
      reads this
    {
      View(tasks, workers, inFlight, verdicts)
    }

    ghost predicate Mid(queued: set<nat>, pending: set<Path>)
      reads this
    {
      Consistent(tasks, workers, queued, pending, children, load, waiting, waitingChildren)
    }

    /** What holds whenever the lock is free. */
    ghost predicate Valid()
      reads this
    {
      Mid(QueuedTasks(tasks), {}) && Registered(tasks, inFlight, held, verdicts)
    }

    /** assignUnqueuedTask: a worker starts on a task. */
    method AssignUnqueuedTask(w: nat, t: nat, ghost queued: set<nat>)
      requires MayTake(tasks, workers, t, w) && Mid(queued, tasks[t].operations)
      modifies this`tasks, this`workers, this`children, this`load
      ensures Mid(queued, {}) && tasks == TakesTask(old(tasks), t, w) && workers == GetsTask(old(workers), w, t)
    {
      BeforeTaking(tasks, workers, queued, tasks[t].operations, children, load, waiting, waitingChildren, w);
      var operations, last := tasks[t].operations, workers[w].lastInvocation.value;
      var ew := IncrementAll(load.executingWorkers, operations, w);
      TakenLinked(children, load, operations, w, ew);
      AddedUp(load, ew, operations, w);
      var linked, counted := LowerUp(children, load.(executingWorkers := ew), last);
      TaskTaken(tasks, workers, queued, children, load, waiting, waitingChildren, t, w, linked, counted);
      tasks := tasks[t := tasks[t].(currentWorker := Some(w), retryCount := 0)];
      workers := workers[w := workers[w].(currentTask := Some(t), lastInvocation := None)];
      children, load := linked, counted;
    }

    /** removeQueuedFromInvocation for all operations of an executing task. */
    method RemoveQueued(t: nat, ghost queued: set<nat>)
      requires t in tasks && t in queued && tasks[t].currentWorker.Some? && Mid(queued, {})
      modifies this`load
      ensures Mid(queued - {t}, {})
    {
      BeforeDequeuing(tasks, workers, queued, {}, children, load, waiting, waitingChildren, t);
      var qo, qc := DequeueAll(load.queuedOperations, load.queuedChildren, tasks[t].operations, t);
      var after := load.(queuedOperations := qo, queuedChildren := qc);
      TaskDequeued(tasks, workers, queued, children, load, waiting, waitingChildren, t, after);
      load := after;
    }

    /** assignQueuedTask: a worker starts on a task that is queued. */
    method AssignQueuedTask(w: nat, t: nat, ghost queued: set<nat>)
      requires MayTake(tasks, workers, t, w) && t in queued && Mid(queued, {})
      modifies this`tasks, this`workers, this`children, this`load
      ensures Mid(queued - {t}, {}) && tasks == TakesTask(old(tasks), t, w) && workers == GetsTask(old(workers), w, t)
    {
      BeforeDequeuing(tasks, workers, queued, {}, children, load, waiting, waitingChildren, t);
      AssignUnqueuedTask(w, t, queued);
      RemoveQueued(t, queued);
    }

    /** Lists the worker as idle and synchronizing, where nothing is queued. */
    method Wait(w: nat, ghost queued: set<nat>)
      requires Mid(queued, {}) && w in workers && workers[w].currentTask.None? && workers[w].synchronizing
               && !workers[w].waiting
      requires NothingQueued(tasks, queued, workers[w].queue)
      modifies this`workers, this`waiting, this`waitingChildren
      ensures Mid(queued, {}) && workers == Waits(old(workers), w, true)
    {
      WaitingIsListed(tasks, workers, queued, {}, children, load, waiting, waitingChildren, w);
      var base, kids := EnqueueAt(waiting, waitingChildren, workers[w].lastInvocation.value, w);
      StartsWaiting(tasks, workers, queued, {}, children, load, waiting, waitingChildren, w, base, kids);
      waiting, waitingChildren := base, kids;
      workers := workers[w := workers[w].(waiting := true)];
    }

    /** worker.dequeue: the worker no longer waits. */
    method Dequeue(w: nat, ghost queued: set<nat>, ghost pending: set<Path>)
      requires Mid(queued, pending) && w in workers && workers[w].waiting && workers[w].currentTask.None?
      modifies this`workers, this`waiting, this`waitingChildren
      ensures Mid(queued, pending) && workers == Waits(old(workers), w, false)
    {
      WaitingIsListed(tasks, workers, queued, pending, children, load, waiting, waitingChildren, w);
      var base, kids := DequeueAt(waiting, waitingChildren, workers[w].lastInvocation.value, w);
      StopsWaiting(tasks, workers, queued, pending, children, load, waiting, waitingChildren, w, base, kids);
      waiting, waitingChildren := base, kids;
      workers := workers[w := workers[w].(waiting := false)];
    }

    /** The search of schedule(): from the task's invocations upward, breadth first, for one that
        has a waiting worker at or below it. None is found closer to any of the invocations. */
    method FindWaiting(ps: set<Path>, ghost q: nat, ghost queued: set<nat>, ghost pending: set<Path>)
        returns (found: bool, i: Path, ghost p: Path, ghost d: nat)
      requires Mid(queued, pending) && ps != {} && OnQueue(ps, q)
      ensures found ==> i != [] && i[0] == q && (At(waiting, i) != {} || At(waitingChildren, i) != {})
      ensures found ==> p in ps && d < |p| && i == Up(p, d) && NobodyCloser(workers, ps, d)
      ensures !found ==> NobodyWaits(workers, q)
    {
      assert Opened(OfScheduler);
      var invocations: seq<Path> := [];
      var rest := ps;
      while rest != {}
        invariant rest <= ps && (invocations == [] ==> rest == ps)
        invariant forall o :: o in ps ==> o in rest || o in invocations
        invariant forall k :: 0 <= k < |invocations| ==> invocations[k] in ps
      {
        var next :| next in rest;
        invocations, rest := invocations + [next], rest - {next};
      }
      var idx := 0;
      ghost var origins := invocations;
      d := 0;
      StartsClimbing(workers, origins);
      while true
        invariant invocations != [] && idx <= |invocations| && Climbing(workers, origins, invocations, idx, d)
        invariant forall k :: 0 <= k < |origins| ==> origins[k] in ps && origins[k] != [] && origins[k][0] == q
        invariant forall o :: o in ps ==> o in origins
        decreases TotalLength(invocations)
      {
        if idx == |invocations| {
          RoundDone(workers, origins, invocations, d);
          idx := 0;
          d := d + 1;
        }
        i := invocations[idx];
        p := origins[idx];
        assert Climbed(workers, origins[idx], invocations[idx], d);
        if At(waiting, i) != {} || At(waitingChildren, i) != {} {
          NoneCloser(workers, ps, origins, invocations, idx, d);
          return true, i, p, d;
        }
        NobodyListed(workers, waiting, waitingChildren, i);
        if |i| == 1 {
          assert i == [q];
          NoneWaitsBelow(tasks, workers, waiting, waitingChildren, q);
          return false, i, p, d;
        }
        Shortened(invocations, idx, i[..|i| - 1]);
        ClimbsOn(workers, origins, invocations, idx, d);
        invocations := invocations[idx := i[..|i| - 1]];
        idx := idx + 1;
      }
    }

    /** Goes down to an invocation where a worker waits, and picks one. */
    method PickWaiting(start: Path, ghost queued: set<nat>, ghost pending: set<Path>) returns (w: nat)
      requires Mid(queued, pending) && start != [] && (At(waiting, start) != {} || At(waitingChildren, start) != {})
      ensures w in workers && workers[w].waiting && workers[w].queue == start[0] && workers[w].currentTask.None?
      ensures workers[w].lastInvocation.Some? && start <= workers[w].lastInvocation.value
    {
      assert Opened(OfScheduler);
      var i := start;
      BelowFromLists(waiting, waitingChildren, i);
      while At(waiting, i) == {}
        invariant i != [] && start <= i && Below(waiting, i)
        decreases MaxLength(waiting.Keys) - |i|
      {
        StepDown(waiting, waitingChildren, i);
        var k :| k in At(waitingChildren, i);
        i := i + [k];
      }
      w :| w in At(waiting, i);
      assert WorkerOk(tasks, workers, w);
    }

    /** schedule: hands the task to a waiting worker of its queue, or queues all its operations. */
    method Schedule(t: nat, ghost q: nat, ghost queued: set<nat>)
      requires t in tasks && IsQueuedTask(tasks, t) && tasks[t].operations != {} && OnQueue(tasks[t].operations, q)
      requires Mid(queued, tasks[t].operations)
      modifies this`tasks, this`workers, this`children, this`load, this`waiting, this`waitingChildren
      ensures Scheduled(old(tasks), old(workers), tasks, workers, t, q)
      ensures Mid(if t in tasks && tasks[t].currentWorker.Some? then queued else queued + {t}, {})
    {
      var operations := tasks[t].operations;
      var found, i, p, d := FindWaiting(operations, q, queued, operations);
      if found {
        var w := PickWaiting(i, queued, operations);
        Dequeue(w, queued, operations);
        AssignUnqueuedTask(w, t, queued);
        assert IsNearest(old(workers), operations, w);
        assert HandedTo(old(tasks), old(workers), tasks, workers, t, q, w);
      } else {
        BeforeEnqueuing(tasks, workers, queued, operations, children, load, waiting, waitingChildren);
        var qo, qc := EnqueueAll(load.queuedOperations, load.queuedChildren, operations, t);
        var after := load.(queuedOperations := qo, queuedChildren := qc);
        TaskEnqueued(tasks, workers, queued, children, load, waiting, waitingChildren, t, q, after);
        load := after;
      }
    }

    /** leaveQueuedOrExecutingStage for a task that is executing. */
    method LeaveWorker(t: nat, completedByWorker: bool, ghost queued: set<nat>)
      requires Mid(queued, {}) && t in tasks && tasks[t].currentWorker.Some?
      modifies this`tasks, this`workers, this`children, this`load
      ensures Mid(queued, {}) && old(tasks)[t].currentWorker.value in old(workers)
      ensures tasks == LeavesWorker(old(tasks), t)
      ensures exists last :: LeftAt(old(tasks), old(workers), workers, t, completedByWorker, last)
    {
      BeforeLeaving(tasks, workers, queued, children, load, waiting, waitingChildren, t);
      var w, operations := tasks[t].currentWorker.value, tasks[t].operations;
      var last := [workers[w].queue];
      if completedByWorker {
        last := LowestCommonAncestor(operations, workers[w].queue);
      }
      var idle := RaiseUp(load.idleWorkersCount, last);
      OnTheWay(operations, last);
      IdleLinked(children, load, idle, operations, last);
      RaisedUp(load, idle, last);
      var linked, counted := DecrementAll(children, load.(idleWorkersCount := idle), operations, w);
      TaskLeft(tasks, workers, queued, children, load, waiting, waitingChildren, t, w, last, linked, counted);
      assert LeftAt(tasks, workers, LosesTask(workers, w, last), t, completedByWorker, last);
      tasks := tasks[t := tasks[t].(currentWorker := None)];
      workers := workers[w := workers[w].(currentTask := None, lastInvocation := Some(last))];
      children, load := linked, counted;
    }

    /** leaveQueuedOrExecutingStage for a task that is queued: a temporary worker starts it, so that it
        can leave the way executing tasks do. */
    method LeaveQueues(t: nat, ghost queued: set<nat>)
      requires Mid(queued, {}) && t in tasks && t in queued
      modifies this`children, this`load
      ensures Mid(queued - {t}, {})
    {
      BeforeDequeuing(tasks, workers, queued, {}, children, load, waiting, waitingChildren, t);
      var temporary := Unused(workers.Keys);
      NoCounts(tasks, workers, queued, {}, children, load, waiting, waitingChildren, temporary);
      var operations := tasks[t].operations;
      var ew := IncrementAll(load.executingWorkers, operations, temporary);
      BeforeLinking(tasks, workers, queued, operations, children, load, waiting, waitingChildren);
      TakenLinked(children, load, operations, temporary, ew);
      AddedUp(load, ew, operations, temporary);
      var qo, qc := DequeueAll(load.queuedOperations, load.queuedChildren, operations, t);
      var started := load.(executingWorkers := ew);
      var dequeued := started.(queuedOperations := qo, queuedChildren := qc);
      AllExecuting(load.executingWorkers, ew, operations, temporary);
      DequeuedLinked(children, started, dequeued, operations, t);
      RequeuedUp(started, qo, qc);
      var linked, counted := DecrementAll(children, dequeued, operations, temporary);
      TaskUnqueued(tasks, workers, queued, children, load, waiting, waitingChildren, t, temporary, ew, linked, counted);
      children, load := linked, counted;
    }

    /** leaveQueuedOrExecutingStage. */
    method Leave(t: nat, completedByWorker: bool)
      requires Valid() && Unfinished(tasks, t)
      modifies this`tasks, this`workers, this`children, this`load
      ensures Mid(QueuedTasks(old(tasks)) - {t}, {})
              && Left(old(tasks), old(workers), tasks, workers, t, completedByWorker)
      ensures Registered(tasks, inFlight, held, verdicts)
    {
      ghost var queued := QueuedTasks(tasks);
      LeftRegistered(tasks, inFlight, held, verdicts, t, tasks[t].(currentWorker := None));
      if tasks[t].currentWorker.Some? {
        assert queued - {t} == queued;
        LeaveWorker(t, completedByWorker, queued);
      } else {
        LeaveQueues(t, queued);
        assert tasks[t].(currentWorker := None) == tasks[t];
      }
    }

    /** markCompleted, after the learner was told. */
    method MarkCompleted(t: nat, verdict: Verdict, ghost queued: set<nat>)
      requires Mid(queued, {}) && t !in queued && Unfinished(tasks, t) && tasks[t].currentWorker.None?
      requires Registered(tasks, inFlight, held, verdicts)
      modifies this`tasks, this`inFlight, this`verdicts
      ensures Mid(queued, {}) && Registered(tasks, inFlight, held, verdicts)
      ensures tasks == Completed(old(tasks), t) && inFlight == Forgotten(old(inFlight), old(tasks)[t].key)
      ensures verdicts == Told(old(verdicts), old(tasks)[t].learner.value, verdict)
    {
      CompletedRegistered(tasks, inFlight, held, verdicts, t, verdict);
      TaskChanged(tasks, workers, queued, {}, children, load, waiting, waitingChildren, t,
        tasks[t].(currentWorker := None, learner := None));
      verdicts := Told(verdicts, tasks[t].learner.value, verdict);
      inFlight := Forgotten(inFlight, tasks[t].key);
      tasks := tasks[t := tasks[t].(currentWorker := None, learner := None)];
    }

    /** fail: completes a task without a result. */
    method Fail(t: nat, completedByWorker: bool)
      requires Valid() && t in tasks
      modifies this`tasks, this`workers, this`inFlight, this`children, this`load, this`verdicts
      ensures Valid() && tasks == Completed(old(tasks), t)
      ensures if Unfinished(old(tasks), t) then Ended(old(Seen()), Seen(), t, Abandoned, completedByWorker)
              else Seen() == old(Seen())
      ensures Spared(old(workers), workers, {}) && Remembers(old(held), held, old(verdicts), verdicts)
    {
      if tasks[t].learner.None? {
        CompletedHasNoWorker(tasks, workers, QueuedTasks(tasks), {}, children, load, waiting, waitingChildren, t);
        assert tasks[t].(currentWorker := None, learner := None) == tasks[t];
        return;
      }
      ghost var queued := QueuedTasks(tasks) - {t};
      Leave(t, completedByWorker);
      ghost var mid := tasks;
      assert Left(old(tasks), old(workers), mid, workers, t, completedByWorker);
      if old(tasks)[t].currentWorker.Some? {
        LeavingIdles(old(tasks), old(workers), mid, workers, t, completedByWorker);
      }
      ToldRemembers(held, held, verdicts, tasks[t].learner.value, Abandoned);
      MarkCompleted(t, Abandoned, queued);
      assert QueuedTasks(tasks) == queued;
      AfterLeaving(old(Seen()), mid, Seen(), t, Abandoned, completedByWorker);
    }

    /** getOrCreateInvocation: creates the missing invocations on the way to p. */
    method GetOrCreateInvocation(p: Path, ghost queued: set<nat>, ghost pending: set<Path>)
      requires Mid(queued, pending)
      modifies this`children
      ensures Mid(queued, pending + {p})
    {
      var created := children;
      var n := 2;
      while n <= |p|
        invariant 2 <= n && (n <= |p| + 1 || n == 2)
        invariant forall i: Path :: i in created <==> i in children || (1 < |i| < n && i <= p)
      {
        forall i: Path ensures i <= p && |i| == n <==> i == p[..n] {
          PrefixAt(p, n, i);
        }
        created := created + {p[..n]};
        n := n + 1;
      }
      CreatedAhead(tasks, workers, queued, pending, children, load, waiting, waitingChildren, p, created);
      children := created;
    }

    /** Adds a task with one operation, in an invocation that was made ahead for it. */
    method AddTask(t: nat, p: Path, learner: nat, key: Option<nat>, ghost queued: set<nat>)
      requires Mid(queued, {p}) && Registered(tasks, inFlight, held, verdicts)
      requires t !in tasks && t !in queued && p != [] && NewLearner(held, verdicts, learner)
               && (key.Some? ==> key.value !in inFlight)
      modifies this`tasks, this`inFlight, this`held
      ensures Mid(queued, {p}) && Registered(tasks, inFlight, held, verdicts) && held == old(held) + {learner}
      ensures inFlight == Remembered(old(inFlight), key, t)
              && tasks == old(tasks)[t := Task({p}, None, Some(learner), key, 0)]
    {
      var task := Task({p}, None, Some(learner), key, 0);
      assert OnQueue({p}, p[0]);
      AddedRegistered(tasks, inFlight, held, verdicts, t, task);
      TaskAdded(tasks, workers, queued, {p}, children, load, waiting, waitingChildren, t, task);
      tasks := tasks[t := task];
      held := held + {learner};
      if key.Some? {
        inFlight := inFlight[key.value := t];
      }
    }

    /** Adds a task with one operation and schedules it. */
    method NewTask(t: nat, p: Path, learner: nat, key: Option<nat>, ghost queued: set<nat>)
      requires Mid(queued, {p}) && Registered(tasks, inFlight, held, verdicts)
      requires t !in tasks && t !in queued && p != [] && NewLearner(held, verdicts, learner)
               && (key.Some? ==> key.value !in inFlight)
      modifies this
      ensures Registered(tasks, inFlight, held, verdicts) && verdicts == old(verdicts) && held == old(held) + {learner}
      ensures inFlight == Remembered(old(inFlight), key, t)
      ensures Scheduled(old(tasks)[t := Task({p}, None, Some(learner), key, 0)], old(workers), tasks, workers, t, p[0])
      ensures Mid(if t in tasks && tasks[t].currentWorker.Some? then queued else queued + {t}, {})
    {
      AddTask(t, p, learner, key, queued);
      ghost var added := tasks;
      assert OnQueue({p}, p[0]);
      Schedule(t, p[0], queued);
      ScheduledRegistered(added, old(workers), tasks, workers, t, p[0], inFlight, held, verdicts);
    }

    /** Execute, when a task for the same action is in flight: the task gets another operation,
        unless the invocation has one already. */
    method Join(t: nat, keys: seq<nat>) returns (p: Path)
      requires Valid() && Unfinished(tasks, t)
      modifies this`tasks, this`children, this`load
      ensures Valid() && Fits(old(tasks), t, keys, p) && tasks == Joined(old(tasks), t, p)
    {
      ghost var queued := QueuedTasks(tasks);
      ghost var q := UnfinishedHasQueue(tasks, workers, queued, {}, children, load, waiting, waitingChildren, t);
      var any :| any in tasks[t].operations;
      p := [any[0]] + keys;
      QueuedAfterParting(tasks, t, p);
      LeftRegistered(tasks, inFlight, held, verdicts, t, tasks[t].(operations := tasks[t].operations + {p}));
      GetOrCreateInvocation(p, queued, {});
      assert {} + {p} == {p};
      if p in tasks[t].operations {
        OperationIsLinked(tasks, workers, queued, children, load, waiting, waitingChildren, t, p);
        assert tasks[t].operations + {p} == tasks[t].operations;
        assert tasks[t].(operations := tasks[t].operations + {p}) == tasks[t];
        return;
      }
      BeforeUnlinking(tasks, workers, queued, {p}, children, load, waiting, waitingChildren);
      if tasks[t].currentWorker.Some? {
        var ew := IncrementExecuting(load.executingWorkers, p, tasks[t].currentWorker.value);
        JoinedExecuting(tasks, workers, queued, children, load, waiting, waitingChildren, t,
          tasks[t].currentWorker.value, p, q, ew);
        load := load.(executingWorkers := ew);
      } else {
        var qo, qc := EnqueueAt(load.queuedOperations, load.queuedChildren, p, t);
        JoinedQueued(tasks, workers, queued, children, load, waiting, waitingChildren, t, p, q,
          load.(queuedOperations := qo, queuedChildren := qc));
        load := load.(queuedOperations := qo, queuedChildren := qc);
      }
      tasks := tasks[t := tasks[t].(operations := tasks[t].operations + {p})];
    }

    /** Execute: deduplicates against a task in flight, or creates and schedules a new one. Without a
        queue for the platform the request fails. */
    method Execute(keys: seq<nat>, key: nat, queue: Option<nat>, newTask: nat, learner: nat)
        returns (r: Option<(nat, Path)>)
      requires Valid() && newTask !in tasks && NewLearner(held, verdicts, learner)
      modifies this
      ensures Valid() && Requested(old(Seen()), Seen(), keys, key, queue, newTask, learner)
      ensures r.None? <==> key !in old(inFlight) && queue.None?
      ensures r.Some? ==>
                && r.value.0 in tasks && r.value.1 in tasks[r.value.0].operations
                && r.value.1 != [] && r.value.1[1..] == keys
                && r.value.0 == if key in old(inFlight) then old(inFlight)[key] else newTask
      ensures r.Some? && key !in old(inFlight) ==> learner in held
      ensures Spared(old(workers), workers, {}) && Remembers(old(held), held, old(verdicts), verdicts)
    {
      if key in inFlight {
        InFlightTask(tasks, inFlight, held, verdicts, key);
        var t := inFlight[key];
        var p := Join(t, keys);
        return Some((t, p));
      }
      if queue.None? {
        return None;
      }
      var p := [queue.value] + keys;
      ghost var queued := QueuedTasks(tasks);
      GetOrCreateInvocation(p, queued, {});
      assert {} + {p} == {p};
      NewTask(newTask, p, learner, Some(key), queued);
      QueuedWithNew(old(tasks), old(workers), tasks, workers, newTask, queue.value,
        Task({p}, None, Some(learner), Some(key), 0));
      ScheduledSpares(old(tasks)[newTask := Task({p}, None, Some(learner), Some(key), 0)], old(workers), tasks, workers,
        newTask, queue.value);
      r := Some((newTask, p));
    }

    /** operation.remove: a client gave up on an operation. */
    method RemoveOperation(t: nat, p: Path)
      requires Valid() && t in tasks && p in tasks[t].operations
      modifies this`tasks, this`workers, this`inFlight, this`children, this`load, this`verdicts
      ensures Valid() && Withdrawn(old(Seen()), Seen(), t, p)
      ensures Spared(old(workers), workers, {}) && Remembers(old(held), held, old(verdicts), verdicts)
    {
      ghost var queued := QueuedTasks(tasks);
      QueuedAfterParting(tasks, t, p);
      LeftRegistered(tasks, inFlight, held, verdicts, t, tasks[t].(operations := tasks[t].operations - {p}));
      if tasks[t].operations == {p} {
        Fail(t, false);
        PartCompleted(t, p);
      } else {
        OneOfSeveral(tasks[t].operations, p);
        if tasks[t].currentWorker.Some? {
          PartExecuting(t, p);
        } else if tasks[t].learner.Some? {
          PartQueued(t, p);
        } else {
          PartCompleted(t, p);
        }
      }
    }

    method PartExecuting(t: nat, p: Path)
      requires Valid() && t in tasks && tasks[t].currentWorker.Some? && p in tasks[t].operations
               && tasks[t].operations - {p} != {}
      modifies this`tasks, this`children, this`load
      ensures Valid() && tasks == Parted(old(tasks), t, p)
    {
      ghost var queued := QueuedTasks(tasks);
      QueuedAfterParting(tasks, t, p);
      LeftRegistered(tasks, inFlight, held, verdicts, t, tasks[t].(operations := tasks[t].operations - {p}));
      BeforeParting(tasks, workers, queued, children, load, waiting, waitingChildren, t, p);
      var linked, counted := DecrementExecuting(children, load, p, tasks[t].currentWorker.value);
      PartedExecuting(tasks, workers, queued, children, load, waiting, waitingChildren, t, tasks[t].currentWorker.value,
        p, linked, counted);
      children, load := linked, counted;
      tasks := tasks[t := tasks[t].(operations := tasks[t].operations - {p})];
    }

    method PartQueued(t: nat, p: Path)
      requires Valid() && IsQueuedTask(tasks, t) && p in tasks[t].operations && tasks[t].operations - {p} != {}
      modifies this`tasks, this`children, this`load
      ensures Valid() && tasks == Parted(old(tasks), t, p)
    {
      ghost var queued := QueuedTasks(tasks);
      QueuedAfterParting(tasks, t, p);
      LeftRegistered(tasks, inFlight, held, verdicts, t, tasks[t].(operations := tasks[t].operations - {p}));
      BeforeDequeuing(tasks, workers, queued, {}, children, load, waiting, waitingChildren, t);
      var qo, qc := DequeueAt(load.queuedOperations, load.queuedChildren, p, t);
      var after := load.(queuedOperations := qo, queuedChildren := qc);
      PartedQueued(tasks, workers, queued, children, load, waiting, waitingChildren, t, p, after);
      load := after;
      tasks := tasks[t := tasks[t].(operations := tasks[t].operations - {p})];
      BeforeUnlinking(tasks, workers, queued, {p}, children, load, waiting, waitingChildren);
      var linked := UnlinkUp(children, load, p);
      AfterUnlinking(tasks, workers, queued, {p}, children, load, waiting, waitingChildren, linked);
      children := linked;
    }

    method PartCompleted(t: nat, p: Path)
      requires Valid() && t in tasks && tasks[t].learner.None? && tasks[t].currentWorker.None?
      modifies this`tasks
      ensures Valid() && tasks == Parted(old(tasks), t, p)
    {
      ghost var queued := QueuedTasks(tasks);
      QueuedAfterParting(tasks, t, p);
      LeftRegistered(tasks, inFlight, held, verdicts, t, tasks[t].(operations := tasks[t].operations - {p}));
      TaskChanged(tasks, workers, queued, {}, children, load, waiting, waitingChildren, t,
        tasks[t].(operations := tasks[t].operations - {p}));
      tasks := tasks[t := tasks[t].(operations := tasks[t].operations - {p})];
    }

    /** assignNextQueuedTask: the worker starts on a queued task of its queue, if there is one. Ties
        are broken by floating point scores and clocks, so every choice is allowed for here. */
    method AssignNextQueuedTask(w: nat, stickinessLimits: nat) returns (started: bool)
      requires Valid() && w in workers && workers[w].currentTask.None? && !workers[w].waiting
      modifies this`tasks, this`workers, this`children, this`load
      ensures Valid() && w in workers && (started <==> workers[w].currentTask.Some?)
      ensures started ==>
                var t := workers[w].currentTask.value;
                && IsQueuedTask(old(tasks), t) && OnQueue(old(tasks)[t].operations, workers[w].queue)
                && tasks == TakesTask(old(tasks), t, w) && workers == GetsTask(old(workers), w, t)
      ensures !started ==>
                tasks == old(tasks) && workers == old(workers)
                && NothingQueued(tasks, QueuedTasks(tasks), workers[w].queue)
    {
      var found, i := FindQueued(w, stickinessLimits);
      if !found {
        return false;
      }
      var t :| t in At(load.queuedOperations, i);
      ghost var queued := QueuedTasks(tasks);
      QueuedFits(tasks, workers, children, load, waiting, waitingChildren, t, i);
      LeftRegistered(tasks, inFlight, held, verdicts, t, tasks[t].(currentWorker := Some(w), retryCount := 0));
      QueuedAfterTaking(tasks, t, w);
      AssignQueuedTask(w, t, queued);
      started := true;
    }

    /** The descent of assignNextQueuedTask, preferring the worker's last invocation while it is sticky. */
    method FindQueued(w: nat, stickinessLimits: nat) returns (found: bool, i: Path)
      requires Valid() && w in workers && workers[w].currentTask.None?
      ensures found ==> i != [] && i[0] == workers[w].queue && At(load.queuedOperations, i) != {}
      ensures !found ==> NothingQueued(tasks, QueuedTasks(tasks), workers[w].queue)
    {
      var limits := stickinessLimits;
      BeforeTaking(tasks, workers, QueuedTasks(tasks), {}, children, load, waiting, waitingChildren, w);
      var q, last := workers[w].queue, workers[w].lastInvocation.value;
      LastOnQueue(tasks, workers, children, load, waiting, waitingChildren, w);
      var lastKeys := last[1..];
      i := [q];
      if !IsQueued(load, i) {
        assert NothingQueued(tasks, QueuedTasks(tasks), q) by {
          assert Opened(OfScheduler);
          RootKnows(tasks, workers, QueuedTasks(tasks), load, q);
        }
        return false, i;
      }
      BeforeEnqueuing(tasks, workers, QueuedTasks(tasks), {}, children, load, waiting, waitingChildren);
      while At(load.queuedOperations, i) == {}
        invariant i != [] && i[0] == q && IsQueued(load, i) && (lastKeys != [] ==> i + lastKeys == last)
        decreases MaxLength(load.queuedOperations.Keys) - |i|
      {
        QueuedChild(load, i);
        var best :| best in At(load.queuedChildren, i);
        if lastKeys != [] && limits > 0 {
          var sticky := i + [lastKeys[0]];
          assert i + lastKeys == sticky + lastKeys[1..];
          LastIsLinked(tasks, workers, QueuedTasks(tasks), children, load, waiting, waitingChildren, w, sticky);
          assert sticky in children;
          if * {
            if IsQueued(load, sticky) {
              best := lastKeys[0];
            }
          }
          if best == lastKeys[0] {
            lastKeys, limits := lastKeys[1..], limits - 1;
          } else {
            lastKeys := [];
          }
        } else {
          lastKeys := [];
        }
        i := i + [best];
      }
      found := true;
    }

    /** Finds or creates the invocations of all operations in another size class queue. */
    method MoveOperations(ps: set<Path>, q: nat, ghost q0: nat, ghost queued: set<nat>) returns (moved: set<Path>)
      requires Mid(queued, {}) && OnQueue(ps, q0)
      modifies this`children
      ensures Mid(queued, moved) && moved == AllMoved(q, ps) && |moved| == |ps| && OnQueue(moved, q)
    {
      moved := {};
      var rest := ps;
      ghost var done: set<Path> := {};
      while rest != {}
        invariant done + rest == ps && Mid(queued, moved) && moved == AllMoved(q, done)
      {
        var p :| p in rest;
        GetOrCreateInvocation(MovedTo(q, p), queued, moved);
        assert AllMoved(q, done + {p}) == AllMoved(q, done) + {MovedTo(q, p)};
        moved := moved + {MovedTo(q, p)};
        done, rest := done + {p}, rest - {p};
      }
      assert done == ps;
      MovedCount(q, ps, q0);
    }

    /** Moves a task's operations to another size class queue and replaces its learner. */
    method Transplant(t: nat, learner: nat, largest: nat, ghost queued: set<nat>)
      requires Mid(queued, {}) && t !in queued && IsQueuedTask(tasks, t) && Registered(tasks, inFlight, held, verdicts)
               && NewLearner(held, verdicts, learner)
      modifies this`tasks, this`children, this`held, this`verdicts
      ensures Registered(tasks, inFlight, held, verdicts)
              && verdicts == Told(old(verdicts), old(tasks)[t].learner.value, Failed)
      ensures held == old(held) + {learner}
      ensures tasks == old(tasks)[t :=
              old(tasks)[t].(operations := AllMoved(largest, old(tasks)[t].operations), learner := Some(learner))]
      ensures tasks[t].operations != {} && OnQueue(tasks[t].operations, largest)
              && |tasks[t].operations| == |old(tasks)[t].operations|
      ensures Mid(queued, tasks[t].operations)
    {
      ghost var q0 := UnfinishedHasQueue(tasks, workers, queued, {}, children, load, waiting, waitingChildren, t);
      var moved := MoveOperations(tasks[t].operations, largest, q0, queued);
      var task := tasks[t].(operations := moved, learner := Some(learner));
      RetriedRegistered(tasks, inFlight, held, verdicts, t, task);
      TaskChanged(tasks, workers, queued, moved, children, load, waiting, waitingChildren, t, task);
      verdicts := Told(verdicts, tasks[t].learner.value, Failed);
      held := held + {learner};
      tasks := tasks[t := task];
    }

    /** The part of complete that retries a failed task on the largest size class, with a new learner. */
    method Retry(t: nat, learner: nat, largest: nat, ghost queued: set<nat>)
      requires Mid(queued, {}) && t !in queued && IsQueuedTask(tasks, t) && Registered(tasks, inFlight, held, verdicts)
               && NewLearner(held, verdicts, learner)
      modifies this
      ensures Registered(tasks, inFlight, held, verdicts) && inFlight == old(inFlight)
      ensures verdicts == Told(old(verdicts), old(tasks)[t].learner.value, Failed) && held == old(held) + {learner}
      ensures Scheduled(old(tasks)[t :=
              old(tasks)[t].(operations := AllMoved(largest, old(tasks)[t].operations), learner := Some(learner))],
              old(workers), tasks, workers, t, largest)
      ensures Mid(if t in tasks && tasks[t].currentWorker.Some? then queued else queued + {t}, {})
    {
      Transplant(t, learner, largest, queued);
      ghost var moving := tasks;
      Schedule(t, largest, queued);
      ScheduledRegistered(moving, old(workers), tasks, workers, t, largest, inFlight, held, verdicts);
    }

    /** The part of complete that starts a background task, unless there are too many. */
    method StartBackground(b: Background, ghost queued: set<nat>) returns (added: bool)
      requires Mid(queued, {}) && Registered(tasks, inFlight, held, verdicts)
      requires NewLearner(held, verdicts, b.learner) && b.task !in tasks && b.task !in queued
      modifies this
      ensures Registered(tasks, inFlight, held, verdicts) && inFlight == old(inFlight)
      ensures held == old(held) + {b.learner} && (added <==> !Crowded(old(tasks), queued, b))
      ensures !added ==>
                tasks == old(tasks) && workers == old(workers) && Mid(queued, {})
                && verdicts == Told(old(verdicts), b.learner, Abandoned)
      ensures added ==>
                && verdicts == old(verdicts)
                && Scheduled(old(tasks)[b.task := BackgroundTask(b)], old(workers), tasks, workers, b.task, b.queue)
                && Mid(if b.task in tasks && tasks[b.task].currentWorker.Some? then queued else queued + {b.task}, {})
    {
      StrangerTold(tasks, inFlight, held, verdicts, b.learner, Abandoned);
      if b.maximum == 0 {
        held, verdicts := held + {b.learner}, Told(verdicts, b.learner, Abandoned);
        return false;
      }
      var p := [b.queue] + b.keys;
      GetOrCreateInvocation(p, queued, {});
      assert {} + {p} == {p};
      QueuedThere(tasks, workers, queued, {p}, children, load, waiting, waitingChildren, p);
      if |At(load.queuedOperations, p)| >= b.maximum {
        QueuedIsLinked(tasks, workers, queued, children, load, waiting, waitingChildren, p);
        held, verdicts := held + {b.learner}, Told(verdicts, b.learner, Abandoned);
        return false;
      }
      NewTask(b.task, p, b.learner, None, queued);
      added := true;
    }

    /** What holds of a task between leaving its worker and being completed or retried. */
    ghost predicate InTransit(t: nat, w: nat, queued: set<nat>)
      reads this
    {
      && Mid(queued, {}) && Registered(tasks, inFlight, held, verdicts)
      && IsQueuedTask(tasks, t) && queued == QueuedTasks(tasks) - {t} && w in workers && !workers[w].waiting
    }

    method FinishTask(t: nat, verdict: Verdict, ghost w: nat, ghost queued: set<nat>)
      requires InTransit(t, w, queued)
      modifies this`tasks, this`inFlight, this`verdicts
      ensures Valid() && tasks == Completed(old(tasks), t) && inFlight == Forgotten(old(inFlight), old(tasks)[t].key)
      ensures verdicts == Told(old(verdicts), old(tasks)[t].learner.value, verdict)
    {
      MarkCompleted(t, verdict, queued);
      assert QueuedTasks(tasks) == queued;
    }

    method FinishAndRetry(t: nat, learner: nat, largest: nat, ghost w: nat, ghost queued: set<nat>)
      requires InTransit(t, w, queued) && NewLearner(held, verdicts, learner)
      modifies this
      ensures Valid() && w in workers && workers[w] == old(workers)[w]
      ensures verdicts == Told(old(verdicts), old(tasks)[t].learner.value, Failed) && inFlight == old(inFlight)
      ensures Scheduled(old(tasks)[t := Moved(old(tasks)[t], learner, largest)], old(workers), tasks, workers, t,
              largest)
      ensures learner in held
      ensures Spared(old(workers), workers, {}) && Remembers(old(held), held, old(verdicts), verdicts)
    {
      ToldRemembers(held, held + {learner}, verdicts, tasks[t].learner.value, Failed);
      ghost var task := Moved(tasks[t], learner, largest);
      Retry(t, learner, largest, queued);
      NotHanded(old(tasks)[t := task], old(workers), tasks, workers, t, largest, w);
      ScheduledSpares(old(tasks)[t := task], old(workers), tasks, workers, t, largest);
      RetriedQueued(old(tasks), old(workers), tasks, workers, t, largest, task, queued);
    }

    method FinishWithBackground(t: nat, b: Background, ghost w: nat, ghost queued: set<nat>)
      requires InTransit(t, w, queued) && NewLearner(held, verdicts, b.learner) && b.task !in tasks
      modifies this
      ensures Valid() && w in workers && workers[w] == old(workers)[w]
      ensures inFlight == Forgotten(old(inFlight), old(tasks)[t].key) && b.learner in held
      ensures Crowded(old(tasks), queued, b) ==>
                && tasks == Completed(old(tasks), t) && workers == old(workers)
                && verdicts == Told(Told(old(verdicts), b.learner, Abandoned), old(tasks)[t].learner.value, Succeeded)
      ensures !Crowded(old(tasks), queued, b) ==>
                && verdicts == Told(old(verdicts), old(tasks)[t].learner.value, Succeeded)
                && Scheduled(Completed(old(tasks), t)[b.task := BackgroundTask(b)], old(workers), tasks, workers,
                   b.task, b.queue)
      ensures Spared(old(workers), workers, {}) && Remembers(old(held), held, old(verdicts), verdicts)
    {
      LearnerIsHeld(tasks, inFlight, held, verdicts, t);
      ghost var task := BackgroundTask(b);
      var added := StartBackground(b, queued);
      if added {
        NotHanded(old(tasks)[b.task := task], old(workers), tasks, workers, b.task, b.queue, w);
        ScheduledSpares(old(tasks)[b.task := task], old(workers), tasks, workers, b.task, b.queue);
        BackgroundQueued(old(tasks), old(workers), tasks, workers, t, b.task, b.queue, task, queued);
        CompletedAside(old(tasks), old(workers), tasks, workers, t, b.task, b.queue, task);
        FinishTask(t, Succeeded, w, if tasks[b.task].currentWorker.Some? then queued else queued + {b.task});
      } else {
        FinishTask(t, Succeeded, w, queued);
      }
    }

    /** The part of complete after the task has left its worker. What the scheduler was like before that is s. */
    method Finish(t: nat, w: nat, outcome: Outcome, largest: nat, ghost queued: set<nat>, ghost s: View)
      requires InTransit(t, w, queued) && OutcomeIsNew(tasks, held, verdicts, outcome)
      requires Unfinished(s.tasks, t) && s.tasks[t].currentWorker == Some(w) && s.tasks.Keys == tasks.Keys
               && Left(s.tasks, s.workers, tasks, workers, t, true)
      requires inFlight == s.inFlight && verdicts == s.verdicts
      modifies this
      ensures Valid() && w in workers && workers[w] == old(workers)[w]
      ensures Finished(s, Seen(), t, outcome, largest) && LearnersFrom(outcome) <= held
      ensures Spared(old(workers), workers, {}) && Remembers(old(held), held, old(verdicts), verdicts)
    {
      ghost var mid, left := tasks, workers;
      match outcome {
        case Success(background) =>
          if background.Some? {
            FinishWithBackground(t, background.value, w, queued);
            RepeatedAfterLeaving(s, mid, left, Seen(), t, background.value);
          } else {
            FinishTask(t, Succeeded, w, queued);
            AfterLeaving(s, mid, Seen(), t, Succeeded, true);
          }
        case Failure(retry) =>
          if retry.Some? {
            FinishAndRetry(t, retry.value, largest, w, queued);
            RetriedAfterLeaving(s, mid, left, Seen(), t, retry.value, largest);
          } else {
            FinishTask(t, Failed, w, queued);
            AfterLeaving(s, mid, Seen(), t, Failed, true);
          }
      }
    }

    /** complete: a worker finished a task. Its learner is told, and may ask for the task to be run again. */
    method Complete(t: nat, w: nat, outcome: Outcome, largest: nat)
      requires Valid() && Unfinished(tasks, t) && tasks[t].currentWorker == Some(w) && w in workers
               && !workers[w].waiting
      requires OutcomeIsNew(tasks, held, verdicts, outcome)
      modifies this
      ensures Valid() && LeftIdle(old(workers), workers, w)
      ensures Finished(old(Seen()), Seen(), t, outcome, largest) && LearnersFrom(outcome) <= held
      ensures Spared(old(workers), workers, {}) && Remembers(old(held), held, old(verdicts), verdicts)
    {
      ghost var queued := QueuedTasks(tasks) - {t};
      Leave(t, true);
      LeavingIdles(old(tasks), old(workers), tasks, workers, t, true);
      assert queued == QueuedTasks(tasks) - {t};
      Finish(t, w, outcome, largest, queued, old(Seen()));
    }

    constructor ()
      ensures Valid() && tasks == map[] && workers == map[] && inFlight == map[] && verdicts == map[] && held == {}
    {
      tasks, workers, inFlight, children := map[], map[], map[], {};
      load, waiting, waitingChildren := Load(map[], map[], map[], map[]), map[], map[];
      verdicts, held := map[], {};
      new;
      EmptyConsistent();
      assert QueuedTasks(tasks) == {};
    }

    /** The start of Synchronize: a new worker is added, a known one marked as synchronizing. */
    method Enter(w: nat, q: nat) returns (ok: bool)
      requires Valid() && (w in workers ==> workers[w].queue == q)
      modifies this`workers, this`load
      ensures Valid() && ok == (w in old(workers) ==> !old(workers)[w].synchronizing)
      ensures !ok ==> workers == old(workers)
      ensures ok ==> w in workers && !workers[w].waiting
      ensures ok ==> workers == Entered(old(workers), w, q)
    {
      ghost var queued := QueuedTasks(tasks);
      if w in workers {
        if workers[w].synchronizing {
          return false;
        }
        WorkersTask(tasks, workers, queued, {}, children, load, waiting, waitingChildren, w);
        WorkerSynchronizes(tasks, workers, queued, children, load, waiting, waitingChildren, w, true);
        workers := workers[w := workers[w].(synchronizing := true)];
      } else {
        var idle := RaiseUp(load.idleWorkersCount, [q]);
        WorkerAdded(tasks, workers, queued, children, load, waiting, waitingChildren, w, q, idle);
        load := load.(idleWorkersCount := idle);
        workers := workers[w := Worker(q, None, Some([q]), false, true)];
      }
      ok := true;
    }

    /** The end of Synchronize: from now on the worker may be removed as stale. */
    method Exit(w: nat)
      requires Valid() && w in workers && !workers[w].waiting
      modifies this`workers
      ensures Valid() && workers == old(workers)[w := old(workers)[w].(synchronizing := false)]
    {
      WorkerSynchronizes(tasks, workers, QueuedTasks(tasks), children, load, waiting, waitingChildren, w, false);
      workers := workers[w := workers[w].(synchronizing := false)];
    }

    /** getNextTask up to the point where it returns or blocks. */
    method GetNextTask(w: nat, mayBlock: bool, isDrained: bool, preferBeingIdle: bool, stickinessLimits: nat)
        returns (r: Response)
      requires Valid() && w in workers && workers[w].currentTask.None? && !workers[w].waiting
               && workers[w].synchronizing
      modifies this`tasks, this`workers, this`children, this`load, this`waiting, this`waitingChildren
      ensures Valid() && Answers(workers, w, r)
      ensures Proceeds(old(Seen()), Seen(), w, mayBlock, isDrained, preferBeingIdle, r)
      ensures Spared(old(workers), workers, {w}) && workers[w].queue == old(workers)[w].queue
    {
      if preferBeingIdle {
        Exit(w);
        return GoIdle;
      }
      if !isDrained {
        var started := AssignNextQueuedTask(w, stickinessLimits);
        if started {
          var t := workers[w].currentTask.value;
          Exit(w);
          return Run(t);
        }
      }
      if !mayBlock {
        Exit(w);
        return GoIdle;
      }
      if isDrained {
        return Drained;
      }
      Wait(w, QueuedTasks(tasks));
      r := Waiting;
    }

    method CountRetry(t: nat)
      requires Valid() && t in tasks
      modifies this`tasks
      ensures Valid() && tasks == old(tasks)[t := old(tasks)[t].(retryCount := old(tasks)[t].retryCount + 1)]
    {
      var n := tasks[t].retryCount + 1;
      RetryCounted(tasks, workers, QueuedTasks(tasks), {}, children, load, waiting, waitingChildren, t, n);
      LeftRegistered(tasks, inFlight, held, verdicts, t, tasks[t].(retryCount := n));
      tasks := tasks[t := tasks[t].(retryCount := n)];
    }

    /** getCurrentOrNextTask: the worker is asked to run its task again, a limited number of times. */
    method GetCurrentOrNextTask(w: nat, mayBlock: bool, isDrained: bool, preferBeingIdle: bool, stickinessLimits: nat,
        retries: nat) returns (r: Response, ghost mid: View)
      requires Valid() && w in workers && !workers[w].waiting && workers[w].synchronizing
      modifies this
      ensures Valid() && Answers(workers, w, r)
      ensures Retrieved(old(Seen()), mid, Seen(), w, mayBlock, isDrained, preferBeingIdle, retries, r)
      ensures Remembers(old(held), held, old(verdicts), verdicts)
      ensures Spared(old(workers), workers, {w}) && workers[w].queue == old(workers)[w].queue
    {
      WorkersTask(tasks, workers, QueuedTasks(tasks), {}, children, load, waiting, waitingChildren, w);
      if workers[w].currentTask.Some? {
        var t := workers[w].currentTask.value;
        if tasks[t].retryCount < retries {
          CountRetry(t);
          mid := Seen();
          Exit(w);
          return Run(t), mid;
        }
        FailOf(w, t, false);
      }
      mid := Seen();
      r := GetNextTask(w, mayBlock, isDrained, preferBeingIdle, stickinessLimits);
    }

    /** fail for the task a worker is executing. */
    method FailOf(w: nat, t: nat, completedByWorker: bool)
      requires Valid() && w in workers && Unfinished(tasks, t) && tasks[t].currentWorker == Some(w)
      modifies this`tasks, this`workers, this`inFlight, this`children, this`load, this`verdicts
      ensures Valid() && LeftIdle(old(workers), workers, w) && workers.Keys == old(workers).Keys
      ensures Ended(old(Seen()), Seen(), t, Abandoned, completedByWorker)
      ensures Spared(old(workers), workers, {}) && Remembers(old(held), held, old(verdicts), verdicts)
    {
      Fail(t, completedByWorker);
      LeavingIdles(old(tasks), old(workers), LeavesWorker(old(tasks), t), workers, t, completedByWorker);
    }

    /** Whether the worker runs the task it was told to. */
    predicate IsRunning(w: nat, task: nat)
      requires w in workers
      reads this
    {
      workers[w].currentTask == Some(task)
    }

    /** The part of Synchronize that acts on what a worker reports about its task. */
    method ProcessOwn(w: nat, report: Report, isDrained: bool, preferBeingIdle: bool, stickinessLimits: nat,
        largest: nat) returns (r: Response, ghost mid: View)
      requires Valid() && w in workers && !workers[w].waiting && workers[w].synchronizing
      requires !report.Idling? && IsRunning(w, report.task)
      requires report.Finishing? ==> OutcomeIsNew(tasks, held, verdicts, report.outcome)
      modifies this
      ensures Valid() && Answers(workers, w, r) && Spared(old(workers), workers, {w})
              && workers[w].queue == old(workers)[w].queue
      ensures Responded(old(Seen()), mid, Seen(), w, report, isDrained, preferBeingIdle, largest, r)
      ensures report.Finishing? ==> LearnersFrom(report.outcome) <= held
      ensures Remembers(old(held), held, old(verdicts), verdicts)
    {
      WorkersTask(tasks, workers, QueuedTasks(tasks), {}, children, load, waiting, waitingChildren, w);
      mid := Seen();
      match report {
        case Running(task) =>
          Exit(w);
          return Continue, mid;
        case Rejecting(task, isError) =>
          if !isError {
            Exit(w);
            return Refused, mid;
          }
          FailOf(w, task, true);
        case Finishing(task, outcome) =>
          Complete(task, w, outcome, largest);
      }
      mid := Seen();
      r := GetNextTask(w, true, isDrained, preferBeingIdle, stickinessLimits);
    }

    /** The part of Synchronize that acts on what the worker reports. */
    method Process(w: nat, report: Report, isDrained: bool, preferBeingIdle: bool, stickinessLimits: nat, retries: nat,
        largest: nat) returns (r: Response, ghost mid: View)
      requires Valid() && w in workers && !workers[w].waiting && workers[w].synchronizing
      requires report.Finishing? ==> OutcomeIsNew(tasks, held, verdicts, report.outcome)
      modifies this
      ensures Valid() && Answers(workers, w, r) && Spared(old(workers), workers, {w})
              && workers[w].queue == old(workers)[w].queue
      ensures Processed(old(Seen()), mid, Seen(), w, report, isDrained, preferBeingIdle, retries, largest, r)
      ensures LearnersIn(old(Seen()), w, report) <= held && (r.Continue? ==> report.Running?)
      ensures Remembers(old(held), held, old(verdicts), verdicts)
    {
      if report.Idling? || !IsRunning(w, report.task) {
        r, mid := GetCurrentOrNextTask(w, !report.Running?, isDrained, preferBeingIdle, stickinessLimits, retries);
      } else {
        r, mid := ProcessOwn(w, report, isDrained, preferBeingIdle, stickinessLimits, largest);
      }
      assert Opened(OfReport);
    }

    /** One call of Synchronize, up to the point where it returns or blocks. A worker that synchronizes
        already is refused, and so is a rejection whose reason is not an error. */
    method Synchronize(w: nat, q: nat, report: Report, isDrained: bool, preferBeingIdle: bool, stickinessLimits: nat,
        retries: nat, largest: nat) returns (r: Response, ghost mid: View)
      requires Valid() && (w in workers ==> workers[w].queue == q)
      requires report.Finishing? ==> OutcomeIsNew(tasks, held, verdicts, report.outcome)
      modifies this
      ensures Valid() && Spared(old(workers), workers, {w}) && w in workers && workers[w].queue == q
      ensures IsSynchronizing(old(workers), w) ==> r == Refused && Seen() == old(Seen())
      ensures !IsSynchronizing(old(workers), w) ==>
                && Answers(workers, w, r)
                && Processed(old(Seen()).(workers := Entered(old(workers), w, q)), mid, Seen(), w, report, isDrained,
                   preferBeingIdle, retries, largest, r)
                && LearnersIn(old(Seen()), w, report) <= held && (r.Continue? ==> report.Running?)
      ensures Remembers(old(held), held, old(verdicts), verdicts)
    {
      var ok := Enter(w, q);
      mid := Seen();
      if !ok {
        return Refused, mid;
      }
      r, mid := Process(w, report, isDrained, preferBeingIdle, stickinessLimits, retries, largest);
    }

    /** wakeUp, and maybeDequeue: the worker no longer waits. */
    method StopWaiting(w: nat)
      requires Valid() && w in workers
      modifies this`workers, this`waiting, this`waitingChildren
      ensures Valid() && workers == Waits(old(workers), w, false)
    {
      WorkersTask(tasks, workers, QueuedTasks(tasks), {}, children, load, waiting, waitingChildren, w);
      if workers[w].waiting {
        Dequeue(w, QueuedTasks(tasks), {});
      } else {
        assert workers[w].(waiting := false) == workers[w];
      }
    }

    /** The rest of getNextTask after it blocked. */
    method Resume(w: nat, wake: Wake, isDrained: bool, stickinessLimits: nat) returns (r: Response)
      requires Valid() && w in workers && workers[w].synchronizing && (wake.Woken? ==> !workers[w].waiting)
      modifies this`tasks, this`workers, this`children, this`load, this`waiting, this`waitingChildren
      ensures Valid() && Answers(workers, w, r)
      ensures Resumed(old(Seen()), Seen(), w, wake, isDrained, r)
      ensures Spared(old(workers), workers, {w}) && workers[w].queue == old(workers)[w].queue
    {
      WorkersTask(tasks, workers, QueuedTasks(tasks), {}, children, load, waiting, waitingChildren, w);
      StopWaiting(w);
      if wake.Cancelled? {
        Exit(w);
        return Refused;
      }
      if workers[w].currentTask.Some? {
        var t := workers[w].currentTask.value;
        Exit(w);
        return Run(t);
      }
      if wake.Timeout? {
        Exit(w);
        return GoIdle;
      }
      r := GetNextTask(w, true, isDrained, false, stickinessLimits);
    }

    /** removeStaleWorker: a worker that stopped synchronizing is removed, and its task fails. */
    method RemoveStaleWorker(w: nat)
      requires Valid() && w in workers && !workers[w].synchronizing
      modifies this`tasks, this`workers, this`inFlight, this`children, this`load, this`verdicts
      ensures Valid() && WorkerGone(old(Seen()), Seen(), w)
      ensures Spared(old(workers), workers, {}) && Remembers(old(held), held, old(verdicts), verdicts)
    {
      WorkersTask(tasks, workers, QueuedTasks(tasks), {}, children, load, waiting, waitingChildren, w);
      if workers[w].currentTask.Some? {
        FailOf(w, workers[w].currentTask.value, false);
        StaleWorkerLeft(old(Seen()), Seen(), w, old(workers)[w].currentTask.value);
      }
      RemoveIdleWorker(w);
    }

    /** The end of removeStaleWorker, for a worker without a task. */
    method RemoveIdleWorker(w: nat)
      requires Valid() && w in workers && !workers[w].synchronizing && workers[w].currentTask.None?
      modifies this`workers, this`children, this`load
      ensures Valid() && workers == old(workers) - {w}
    {
      WorkersTask(tasks, workers, QueuedTasks(tasks), {}, children, load, waiting, waitingChildren, w);
      BeforeTaking(tasks, workers, QueuedTasks(tasks), {}, children, load, waiting, waitingChildren, w);
      var linked, counted := LowerUp(children, load, workers[w].lastInvocation.value);
      WorkerRemoved(tasks, workers, QueuedTasks(tasks), children, load, waiting, waitingChildren, w, linked, counted);
      workers, children, load := workers - {w}, linked, counted;
    }
  }
}
