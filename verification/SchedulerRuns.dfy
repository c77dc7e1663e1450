/** What holds of the scheduler after every run, in terms of its tasks and workers alone. */
module SchedulerRuns {
  import opened Folding
  import opened InvocationTree
  import opened Options
  import opened SchedulerState
  import opened SchedulerSteps
  import opened SchedulerEvents
  import opened SchedulerEffects
  import opened Scheduler

  /** A critical section that may be entered next. The largest size class and the limits on stickiness are those of
      the platform queue concerned. */
  datatype Event =
    | ExecuteCall(keys: seq<nat>, key: nat, platform: Option<nat>, task: nat, learner: nat)
    | OperationAbandoned(task: nat, operation: Path)
    | OperationKilled(task: nat)
    | SynchronizeCall(worker: nat, queue: nat, report: Report, isDrained: bool, preferBeingIdle: bool,
      stickinessLimits: nat, largest: nat)
    | SynchronizeResumed(worker: nat, wake: Wake, isDrained: bool, stickinessLimits: nat)
    | WorkerWokenUp(worker: nat)
    | WorkerStale(worker: nat)

  /** What the program around the scheduler sees to: names and learners are new, operations and workers
      exist, a worker keeps to its queue, only blocked calls go on, and only idle ones go stale. */
  predicate May(s: View, e: Event) {
    match e
    case ExecuteCall(_, _, _, task, learner) => task !in s.tasks && Unknown(s.tasks, s.verdicts, learner)
    case OperationAbandoned(task, operation) => task in s.tasks && operation in s.tasks[task].operations
    case OperationKilled(task) => task in s.tasks
    case SynchronizeCall(worker, queue, report, _, _, _, _) =>
      && (worker in s.workers ==> s.workers[worker].queue == queue)
      && (report.Finishing? ==> OutcomeUnknown(s.tasks, s.verdicts, report.outcome))
    case SynchronizeResumed(worker, wake, _, _) =>
      worker in s.workers && s.workers[worker].synchronizing && (wake.Woken? ==> !s.workers[worker].waiting)
    case WorkerWokenUp(worker) => worker in s.workers
    case WorkerStale(worker) => worker in s.workers && !s.workers[worker].synchronizing
  }

  /** The worker whose call of Synchronize the event is part of. */
  function Callers(e: Event): set<nat> {
    match e
    case SynchronizeCall(worker, _, _, _, _, _, _) => {worker}
    case SynchronizeResumed(worker, _, _, _) => {worker}
    case _ => {}
  }

  /** What a call of Synchronize does; one of a worker that synchronizes already does nothing. */
  ghost predicate Synchronized(s: View, s': View, w: nat, q: nat, report: Report, isDrained: bool,
      preferBeingIdle: bool, retries: nat, largest: nat) {
    if IsSynchronizing(s.workers, w) then s' == s
    else
      exists mid: View, r: Response ::
        Processed(s.(workers := Entered(s.workers, w, q)), mid, s', w, report, isDrained, preferBeingIdle, retries,
                  largest, r)
  }

  ghost predicate Effect(s: View, e: Event, s': View, retries: nat) {
    match e
    case ExecuteCall(keys, key, platform, task, learner) => Requested(s, s', keys, key, platform, task, learner)
    case OperationAbandoned(task, operation) => Withdrawn(s, s', task, operation)
    case OperationKilled(task) => Killed(s, s', task)
    case SynchronizeCall(w, queue, report, isDrained, preferBeingIdle, _, largest) =>
      Synchronized(s, s', w, queue, report, isDrained, preferBeingIdle, retries, largest)
    case SynchronizeResumed(w, wake, isDrained, _) => exists r :: Resumed(s, s', w, wake, isDrained, r)
    case WorkerWokenUp(w) => w in s.workers && s' == s.(workers := Waits(s.workers, w, false))
    case WorkerStale(w) => WorkerGone(s, s', w)
  }

  /** The learners that an event brings in. */
  function Brought(s: View, e: Event): set<nat> {
    match e
    case ExecuteCall(_, key, platform, _, learner) => if key in s.inFlight || platform.None? then {} else {learner}
    case SynchronizeCall(w, _, report, _, _, _, _) =>
      if IsSynchronizing(s.workers, w) then {} else LearnersIn(s, w, report)
    case _ => {}
  }

  /** One event. The number of retries is part of the scheduler's configuration. */
  method Step(bq: BuildQueue, e: Event, retries: nat)
    requires bq.Valid() && May(bq.Seen(), e)
    modifies bq
    ensures bq.Valid() && Effect(old(bq.Seen()), e, bq.Seen(), retries)
    ensures Spared(old(bq.workers), bq.workers, Callers(e))
    ensures Remembers(old(bq.held), bq.held, old(bq.verdicts), bq.verdicts) && Brought(old(bq.Seen()), e) <= bq.held
  {
    match e {
      case ExecuteCall(keys, key, platform, task, learner) =>
        UnknownIsNew(bq.tasks, bq.inFlight, bq.held, bq.verdicts, learner);
        var r := bq.Execute(keys, key, platform, task, learner);
      case OperationAbandoned(task, operation) =>
        bq.RemoveOperation(task, operation);
      case OperationKilled(task) =>
        bq.Fail(task, false);
      case SynchronizeCall(worker, queue, report, isDrained, preferBeingIdle, stickinessLimits, largest) =>
        if report.Finishing? {
          OutcomeUnknownIsNew(bq.tasks, bq.inFlight, bq.held, bq.verdicts, report.outcome);
        }
        var r, mid :=
          bq.Synchronize(worker, queue, report, isDrained, preferBeingIdle, stickinessLimits, retries, largest);
      case SynchronizeResumed(worker, wake, isDrained, stickinessLimits) =>
        var r := bq.Resume(worker, wake, isDrained, stickinessLimits);
      case WorkerWokenUp(worker) =>
        bq.StopWaiting(worker);
      case WorkerStale(worker) =>
        bq.RemoveStaleWorker(worker);
    }
  }

  /** The learners that tasks hold. */
  ghost function LearnersOf(tasks: map<nat, Task>): set<nat> {
    set t | t in tasks && tasks[t].learner.Some? :: tasks[t].learner.value
  }

  lemma LearnersAreHeld(bq: BuildQueue)
    requires bq.Valid()
    ensures LearnersOf(bq.tasks) <= bq.held
  {
    assert Opened(OfScheduler);
  }

  /** An event that may happen has its effect, and any other none. */
  ghost predicate Moves(s: View, e: Event, s': View, retries: nat) {
    if May(s, e) then Effect(s, e, s', retries) else s' == s
  }

  /** What can be seen of a run. */
  ghost predicate Traces(views: seq<View>, events: seq<Event>, retries: nat) {
    && |views| == |events| + 1 && views[0] == View(map[], map[], map[], map[])
    && forall n :: 0 <= n < |events| ==> Moves(views[n], events[n], views[n + 1], retries)
  }

  lemma TracesOn(views: seq<View>, events: seq<Event>, view: View, e: Event, retries: nat)
    requires Traces(views, events, retries) && Moves(views[|events|], e, view, retries)
    ensures Traces(views + [view], events + [e], retries)
  {
    var views', events' := views + [view], events + [e];
    forall n | 0 <= n < |events'| ensures Moves(views'[n], events'[n], views'[n + 1], retries) {
      if n < |events| {
        assert Moves(views[n], events[n], views[n + 1], retries);
      }
    }
  }

  /** The learners that the scheduler got in a run. */
  ghost function Learners(views: seq<View>, events: seq<Event>): set<nat>
    requires |views| == |events| + 1
  {
    (set n, l | 0 <= n < |views| && l in LearnersOf(views[n].tasks) :: l)
    + (set n, l | 0 <= n < |events| && May(views[n], events[n]) && l in Brought(views[n], events[n]) :: l)
  }

  lemma LearnersGrow(views: seq<View>, events: seq<Event>, view: View, e: Event)
    requires |views| == |events| + 1
    ensures Learners(views + [view], events + [e]) ==
            Learners(views, events) + LearnersOf(view.tasks)
              + if May(views[|events|], e) then Brought(views[|events|], e) else {}
  {
    assert (views + [view])[|views|] == view && (events + [e])[|events|] == e;
    assert forall n :: 0 <= n < |views| ==> (views + [view])[n] == views[n];
    assert forall n :: 0 <= n < |events| ==> (events + [e])[n] == events[n];
  }

  /** An event, if it may happen. */
  method Next(bq: BuildQueue, e: Event, retries: nat)
    requires bq.Valid()
    modifies bq
    ensures bq.Valid() && Moves(old(bq.Seen()), e, bq.Seen(), retries)
    ensures old(bq.held) + LearnersOf(bq.tasks) <= bq.held
    ensures May(old(bq.Seen()), e) ==> Brought(old(bq.Seen()), e) <= bq.held
  {
    var s := bq.Seen();
    if May(s, e) {
      Step(bq, e, retries);
    }
    LearnersAreHeld(bq);
  }

  /** Every run: any sequence of events from the empty scheduler, leaving out those that cannot happen. Every learner
      that the scheduler ever got has been told one verdict by now, or none while a task still holds it. */
  method Run(events: seq<Event>, retries: nat) returns (bq: BuildQueue, ghost views: seq<View>)
    ensures fresh(bq) && bq.Valid() && Traces(views, events, retries) && views[|events|] == bq.Seen()
    ensures forall l :: l in Learners(views, events) ==>
              |VerdictsOf(bq.verdicts, l)| == if Held(bq.tasks, l) then 0 else 1
  {
    bq := new BuildQueue();
    views := [bq.Seen()];
    for n := 0 to |events|
      invariant fresh(bq) && bq.Valid() && Traces(views, events[..n], retries) && views[n] == bq.Seen()
      invariant Learners(views, events[..n]) <= bq.held
    {
      var e := events[n];
      Next(bq, e, retries);
      assert events[..n + 1] == events[..n] + [e];
      LearnersGrow(views, events[..n], bq.Seen(), e);
      TracesOn(views, events[..n], bq.Seen(), e, retries);
      views := views + [bq.Seen()];
    }
    assert events[..|events|] == events;
    forall l | l in Learners(views, events) ensures |VerdictsOf(bq.verdicts, l)| == if Held(bq.tasks, l) then 0 else 1 {
      LearnersToldOnce(bq, l);
    }
  }

  // ---- What Valid says ----

  /** currentTask and currentWorker are inverse, and a worker has a last invocation exactly when it has no task. */
  lemma TasksAndWorkers(bq: BuildQueue, t: nat, w: nat)
    requires bq.Valid()
    ensures t in bq.tasks && w in bq.workers ==>
              (bq.tasks[t].currentWorker == Some(w) <==> bq.workers[w].currentTask == Some(t))
    ensures t in bq.tasks && bq.tasks[t].currentWorker.Some? ==>
              bq.tasks[t].currentWorker.value in bq.workers && Unfinished(bq.tasks, t)
    ensures w in bq.workers && bq.workers[w].currentTask.Some? ==> bq.workers[w].currentTask.value in bq.tasks
    ensures w in bq.workers ==> (bq.workers[w].lastInvocation.Some? <==> bq.workers[w].currentTask.None?)
  {
    assert Opened(OfScheduler);
    assert t in bq.tasks ==> TaskOk(bq.tasks, bq.workers, t);
    assert w in bq.workers ==> WorkerOk(bq.tasks, bq.workers, w);
  }

  /** The counters of an invocation: the operations each worker executes at or below it, and the idle workers that last
      ran there. */
  lemma Counters(bq: BuildQueue, i: Path, w: nat)
    requires bq.Valid() && i != []
    ensures ExecAt(bq.load.executingWorkers, i, w) == Count(OperationsOf(bq.tasks, bq.workers, w), i)
    ensures Num(bq.load.idleWorkersCount, i) == |IdleAt(bq.workers, i)|
  {
    assert Opened(OfScheduler);
  }

  /** Some operation that is queued lies at or below i. */
  ghost predicate QueuedBelow(tasks: map<nat, Task>, i: Path) {
    exists t, p :: IsQueuedTask(tasks, t) && p in tasks[t].operations && i <= p
  }

  /** Operations are queued in their invocations exactly while their task is queued, and children are listed exactly
      while something below them is. */
  lemma Queues(bq: BuildQueue, i: Path, t: nat, k: nat)
    requires bq.Valid() && i != []
    ensures t in At(bq.load.queuedOperations, i) <==> IsQueuedTask(bq.tasks, t) && i in bq.tasks[t].operations
    ensures k in At(bq.load.queuedChildren, i) <==> QueuedBelow(bq.tasks, i + [k])
  {
    assert Opened(OfScheduler);
    assert ListedAt(bq.load.queuedOperations, bq.load.queuedChildren, i, k);
    BelowIsQueued(bq.tasks, bq.load.queuedOperations, i + [k]);
  }

  lemma BelowIsQueued(tasks: map<nat, Task>, qo: map<Path, set<nat>>, i: Path)
    requires QueueOk(tasks, QueuedTasks(tasks), qo)
    ensures Below(qo, i) <==> QueuedBelow(tasks, i)
  {
    if Below(qo, i) {
      var p :| i <= p && At(qo, p) != {};
      var t :| t in At(qo, p);
      assert IsQueuedTask(tasks, t) && p in tasks[t].operations;
    }
    if QueuedBelow(tasks, i) {
      var t, p :| IsQueuedTask(tasks, t) && p in tasks[t].operations && i <= p;
      assert t in At(qo, p);
    }
  }

  /** No queue has both a queued operation and a waiting worker. */
  lemma WorkConserved(bq: BuildQueue, t: nat, p: Path, w: nat)
    requires bq.Valid() && IsQueuedTask(bq.tasks, t) && p in bq.tasks[t].operations && w in bq.workers
             && bq.workers[w].waiting
    ensures p != [] && p[0] != bq.workers[w].queue
  {
    assert Opened(OfScheduler);
    assert Elsewhere(bq.tasks[t].operations, bq.workers[w].queue);
  }

  /** Some unfinished operation, or the last invocation of some idle worker, lies at or below i. */
  ghost predicate InUse(tasks: map<nat, Task>, workers: map<nat, Worker>, i: Path) {
    || (exists t, p :: Unfinished(tasks, t) && p in tasks[t].operations && i <= p)
    || (exists w :: w in IdleAt(workers, i))
  }

  /** A nested invocation exists exactly while it is in use. */
  lemma InvocationsExist(bq: BuildQueue, i: Path)
    requires bq.Valid() && |i| > 1
    ensures i in bq.children <==> InUse(bq.tasks, bq.workers, i)
  {
    assert Opened(OfScheduler);
    assert LinkedAt(bq.children, bq.load, {}, i);
    NonEmptyIsInUse(bq.tasks, bq.workers, bq.load, i);
  }

  /** The tree of invocations is closed: no invocation outlives its parent. */
  lemma InvocationsNest(bq: BuildQueue, i: Path, j: Path)
    requires bq.Valid() && j in bq.children && |i| > 1 && i <= j
    ensures i in bq.children
  {
    assert Opened(OfScheduler);
    CountersUp(bq.tasks, bq.workers, bq.load);
    LinkedIsRooted(bq.children, bq.load);
  }

  lemma NonEmptyIsInUse(tasks: map<nat, Task>, workers: map<nat, Worker>, load: Load, i: Path)
    requires Paired(tasks, workers) && ExecOk(tasks, workers, load.executingWorkers)
             && IdleOk(workers, load.idleWorkersCount)
    requires QueueOk(tasks, QueuedTasks(tasks), load.queuedOperations)
             && Listed(load.queuedOperations, load.queuedChildren) && i != []
    ensures NonEmpty(load, i) <==> InUse(tasks, workers, i)
  {
    QueuedIsBelow(load, i);
    BelowIsQueued(tasks, load.queuedOperations, i);
    HasWorker(load.executingWorkers, i);
    if NonEmpty(load, i) {
      NonEmptyMeansUse(tasks, workers, load, i);
    }
    if exists t, p :: Unfinished(tasks, t) && p in tasks[t].operations && i <= p {
      var t, p :| Unfinished(tasks, t) && p in tasks[t].operations && i <= p;
      UnfinishedIsCounted(tasks, workers, load, i, t, p);
    }
  }

  lemma NonEmptyMeansUse(tasks: map<nat, Task>, workers: map<nat, Worker>, load: Load, i: Path)
    requires Paired(tasks, workers) && ExecOk(tasks, workers, load.executingWorkers)
             && IdleOk(workers, load.idleWorkersCount) && i != []
    requires IsQueued(load, i) ==> QueuedBelow(tasks, i)
    requires NonEmpty(load, i)
    ensures InUse(tasks, workers, i)
  {
    HasWorker(load.executingWorkers, i);
    if IsQueued(load, i) {
      var t, p :| IsQueuedTask(tasks, t) && p in tasks[t].operations && i <= p;
    } else if Executing(load.executingWorkers, i) != map[] {
      var w :| ExecAt(load.executingWorkers, i, w) > 0;
      CountPositive(OperationsOf(tasks, workers, w), i);
      var p :| p in OperationsOf(tasks, workers, w) && i <= p;
      var t := workers[w].currentTask.value;
      assert WorkerOk(tasks, workers, w) && TaskOk(tasks, workers, t);
      assert Unfinished(tasks, t) && p in tasks[t].operations;
    } else {
      assert IdleAt(workers, i) != {};
      var w :| w in IdleAt(workers, i);
    }
  }

  lemma UnfinishedIsCounted(tasks: map<nat, Task>, workers: map<nat, Worker>, load: Load, i: Path, t: nat, p: Path)
    requires Paired(tasks, workers) && ExecOk(tasks, workers, load.executingWorkers)
    requires QueueOk(tasks, QueuedTasks(tasks), load.queuedOperations)
             && Listed(load.queuedOperations, load.queuedChildren)
    requires Unfinished(tasks, t) && p in tasks[t].operations && i <= p && i != []
    ensures NonEmpty(load, i)
  {
    if tasks[t].currentWorker.Some? {
      assert TaskOk(tasks, workers, t);
      var w := tasks[t].currentWorker.value;
      TaskIsExecuting(tasks, workers, load.executingWorkers, w);
      assert Pending(OperationsOf(tasks, workers, w), i);
    } else {
      assert t in At(load.queuedOperations, p);
      QueuedIsBelow(load, i);
    }
  }

  /** The in-flight map holds exactly the unfinished tasks with a deduplication key, so there is at most one per key. */
  lemma Deduplicated(bq: BuildQueue, k: nat, t: nat, u: nat)
    requires bq.Valid()
    ensures Unfinished(bq.tasks, t) && bq.tasks[t].key == Some(k) <==> k in bq.inFlight && bq.inFlight[k] == t
    ensures Unfinished(bq.tasks, t) && Unfinished(bq.tasks, u) && bq.tasks[t].key == bq.tasks[u].key == Some(k) ==>
              t == u
  {
    assert Opened(OfScheduler);
  }

  /** A learner that a task ever held got one verdict once the task gave it up, and none before. */
  lemma LearnersToldOnce(bq: BuildQueue, l: nat)
    requires bq.Valid() && l in bq.held
    ensures |VerdictsOf(bq.verdicts, l)| == if Held(bq.tasks, l) then 0 else 1
  {
    assert Opened(OfScheduler);
  }
}
