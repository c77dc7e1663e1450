/** The state of the scheduler between two critical sections, and what always holds of it. */
module SchedulerState {
  import opened Folding
  import opened InvocationTree
  import opened Options

  /** A task and the invocations in which it has an operation. It is completed once it has
      no learner, executing while it has a worker, and queued otherwise. Background tasks
      have no deduplication key. */
  datatype Task = Task(operations: set<Path>, currentWorker: Option<nat>, learner: Option<nat>, key: Option<nat>,
    retryCount: nat)

  /** A worker of a size class queue. While `waiting` it is listed as idle and synchronizing,
      and may be handed a task; while `synchronizing` it cannot be removed as stale. */
  datatype Worker = Worker(queue: nat, currentTask: Option<nat>, lastInvocation: Option<Path>, waiting: bool,
    synchronizing: bool)

  datatype Verdict = Succeeded | Failed | Abandoned

  predicate Unfinished(tasks: map<nat, Task>, t: nat) {
    t in tasks && tasks[t].learner.Some?
  }

  predicate IsQueuedTask(tasks: map<nat, Task>, t: nat) {
    Unfinished(tasks, t) && tasks[t].currentWorker.None?
  }

  ghost function QueuedTasks(tasks: map<nat, Task>): set<nat> {
    set t | t in tasks && IsQueuedTask(tasks, t)
  }

  /** All operations of a task belong to one size class queue. */
  ghost predicate OnQueue(ps: set<Path>, q: nat) {
    forall p :: p in ps ==> p != [] && p[0] == q
  }

  // ---- Tasks and workers ----

  ghost predicate TaskOk(tasks: map<nat, Task>, workers: map<nat, Worker>, t: nat)
    requires t in tasks
  {
    var task := tasks[t];
    && (task.learner.Some? ==> task.operations != {} && exists q :: OnQueue(task.operations, q))
    && (task.currentWorker.Some? ==>
          && task.learner.Some? && task.currentWorker.value in workers
          && workers[task.currentWorker.value].currentTask == Some(t)
          && OnQueue(task.operations, workers[task.currentWorker.value].queue))
  }

  /** A worker has a last invocation exactly when it has no task, and only such workers wait for one. */
  ghost predicate WorkerOk(tasks: map<nat, Task>, workers: map<nat, Worker>, w: nat)
    requires w in workers
  {
    var worker := workers[w];
    && (worker.currentTask.Some? ==>
         worker.currentTask.value in tasks && tasks[worker.currentTask.value].currentWorker == Some(w))
    && (worker.lastInvocation.Some? <==> worker.currentTask.None?)
    && (worker.lastInvocation.Some? ==>
         worker.lastInvocation.value != [] && worker.lastInvocation.value[0] == worker.queue)
    && (worker.waiting ==> worker.currentTask.None? && worker.synchronizing)
  }

  ghost predicate Paired(tasks: map<nat, Task>, workers: map<nat, Worker>) {
    && (forall t :: t in tasks ==> TaskOk(tasks, workers, t))
    && (forall w :: w in workers ==> WorkerOk(tasks, workers, w))
  }

  // ---- Counters ----

  /** The operations a worker is executing. */
  ghost function OperationsOf(tasks: map<nat, Task>, workers: map<nat, Worker>, w: nat): set<Path> {
    if w in workers && workers[w].currentTask.Some? && workers[w].currentTask.value in tasks
    then tasks[workers[w].currentTask.value].operations else {}
  }

  /** executingWorkers counts, for every invocation and worker, the worker's operations at or below it. */
  ghost predicate ExecOk(tasks: map<nat, Task>, workers: map<nat, Worker>, ew: map<Path, map<nat, nat>>) {
    Positive(ew) && forall i: Path, w: nat :: i != [] ==> ExecAt(ew, i, w) == Count(OperationsOf(tasks, workers, w), i)
  }

  /** The workers whose last invocation lies at or below i. */
  ghost function IdleAt(workers: map<nat, Worker>, i: Path): set<nat> {
    set w | w in workers && workers[w].lastInvocation.Some? && i <= workers[w].lastInvocation.value
  }

  ghost predicate IdleOk(workers: map<nat, Worker>, idle: map<Path, nat>) {
    forall i: Path :: i != [] ==> Num(idle, i) == |IdleAt(workers, i)|
  }

  // ---- Queues ----

  /** Each invocation queues the operations it has of the tasks in `queued`. */
  ghost predicate QueueOk(tasks: map<nat, Task>, queued: set<nat>, qo: map<Path, set<nat>>) {
    forall p: Path, t: nat :: t in At(qo, p) <==> t in queued && t in tasks && p in tasks[t].operations
  }

  /** Each invocation lists the workers that wait there. */
  ghost predicate WaitOk(workers: map<nat, Worker>, waiting: map<Path, set<nat>>) {
    forall p: Path, w: nat :: w in At(waiting, p) <==>
        w in workers && workers[w].waiting && workers[w].lastInvocation == Some(p)
  }

  /** Work conservation: no worker waits on a queue that has an operation queued. */
  ghost predicate Conserved(tasks: map<nat, Task>, queued: set<nat>, workers: map<nat, Worker>) {
    forall t, w :: t in queued && t in tasks && w in workers && workers[w].waiting ==>
        Elsewhere(tasks[t].operations, workers[w].queue)
  }

  ghost predicate Elsewhere(ps: set<Path>, q: nat) {
    forall p :: p in ps ==> p != [] && p[0] != q
  }

  // ---- Deduplication and learners ----

  /** The in-flight map holds exactly the unfinished tasks that have a key. */
  ghost predicate DedupOk(tasks: map<nat, Task>, inFlight: map<nat, nat>) {
    && (forall k :: k in inFlight ==> Unfinished(tasks, inFlight[k]) && tasks[inFlight[k]].key == Some(k))
    && (forall t :: Unfinished(tasks, t) && tasks[t].key.Some? ==>
         tasks[t].key.value in inFlight && inFlight[tasks[t].key.value] == t)
  }

  function VerdictsOf(verdicts: map<nat, seq<Verdict>>, l: nat): seq<Verdict> {
    if l in verdicts then verdicts[l] else []
  }

  ghost predicate Held(tasks: map<nat, Task>, l: nat) {
    exists t :: t in tasks && tasks[t].learner == Some(l)
  }

  /** Every learner that a task ever held either is still held, by one task and without a verdict, or got exactly one
      verdict. */
  ghost predicate LearnersOk(tasks: map<nat, Task>, held: set<nat>, verdicts: map<nat, seq<Verdict>>) {
    && (forall t :: t in tasks && tasks[t].learner.Some? ==> tasks[t].learner.value in held)
    && (forall t, u :: t in tasks && u in tasks && tasks[t].learner.Some? && tasks[t].learner == tasks[u].learner ==>
         t == u)
    && (forall l :: l in held ==> |VerdictsOf(verdicts, l)| == if Held(tasks, l) then 0 else 1)
  }

  // ---- Changes of the counters ----

  lemma IdleLeft(workers: map<nat, Worker>, w: nat, worker: Worker, idle: map<Path, nat>, idle': map<Path, nat>,
      p: Path)
    requires IdleOk(workers, idle) && w in workers && workers[w].lastInvocation == Some(p)
    requires worker.lastInvocation.None? && Lowered(idle, idle', p, 0)
    ensures IdleOk(workers[w := worker], idle') && IdleOk(workers - {w}, idle')
  {
    forall i: Path | i != [] ensures Num(idle', i) == |IdleAt(workers[w := worker], i)| == |IdleAt(workers - {w}, i)| {
      assert IdleAt(workers[w := worker], i) == IdleAt(workers, i) - {w};
      assert IdleAt(workers - {w}, i) == IdleAt(workers, i) - {w};
    }
  }

  lemma IdleAtJoined(workers: map<nat, Worker>, w: nat, worker: Worker, p: Path, i: Path)
    requires (w in workers ==> workers[w].lastInvocation.None?) && worker.lastInvocation == Some(p)
    ensures |IdleAt(workers[w := worker], i)| == |IdleAt(workers, i)| + if i <= p then 1 else 0
  {
    var before, after := IdleAt(workers, i), IdleAt(workers[w := worker], i);
    assert w !in before;
    assert forall v :: v != w ==> (v in after <==> v in before);
    if i <= p {
      assert after == before + {w};
    } else {
      assert after == before;
    }
  }

  lemma IdleJoined(workers: map<nat, Worker>, w: nat, worker: Worker, idle: map<Path, nat>, idle': map<Path, nat>,
      p: Path)
    requires IdleOk(workers, idle) && (w in workers ==> workers[w].lastInvocation.None?)
    requires worker.lastInvocation == Some(p) && Raised(idle, idle', p)
    ensures IdleOk(workers[w := worker], idle')
  {
    forall i: Path | i != [] ensures Num(idle', i) == |IdleAt(workers[w := worker], i)| {
      IdleAtJoined(workers, w, worker, p, i);
    }
  }

  /** Changes to a worker that keep its last invocation do not concern the counter. */
  lemma IdleKept(workers: map<nat, Worker>, w: nat, worker: Worker, idle: map<Path, nat>)
    requires IdleOk(workers, idle) && w in workers && worker.lastInvocation == workers[w].lastInvocation
    ensures IdleOk(workers[w := worker], idle)
  {
    forall i: Path | i != [] ensures Num(idle, i) == |IdleAt(workers[w := worker], i)| {
      assert IdleAt(workers[w := worker], i) == IdleAt(workers, i);
    }
  }

  lemma LastIsCounted(workers: map<nat, Worker>, idle: map<Path, nat>, w: nat, p: Path)
    requires IdleOk(workers, idle) && w in workers && workers[w].lastInvocation == Some(p)
    ensures forall i: Path :: i != [] && i <= p ==> Num(idle, i) > 0
  {
    forall i: Path | i != [] && i <= p ensures Num(idle, i) > 0 {
      assert w in IdleAt(workers, i);
    }
  }

  // ---- The whole ----

  /** What holds of tasks, workers and invocations while the tasks in `queued` are queued and the
      invocations on the way to the paths in `pending` are about to be used. It is kept folded:
      a proof that needs what it says asserts Opened first. */
  ghost predicate Consistent(tasks: map<nat, Task>, workers: map<nat, Worker>, queued: set<nat>, pending: set<Path>,
      children: set<Path>, load: Load,
                             waiting: map<Path, set<nat>>, waitingChildren: map<Path, set<nat>>) {
    forall f: Fold {:trigger Opened(f)} :: Opened(f) && f == OfScheduler ==>
      && Paired(tasks, workers)
      && ExecOk(tasks, workers, load.executingWorkers) && IdleOk(workers, load.idleWorkersCount)
      && QueueOk(tasks, queued, load.queuedOperations) && Listed(load.queuedOperations, load.queuedChildren)
      && WaitOk(workers, waiting) && Listed(waiting, waitingChildren)
      && Linked(children, load, pending) && Conserved(tasks, queued, workers)
  }
}
