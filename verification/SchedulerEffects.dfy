/** What the critical sections do, said of tasks, workers and learners alone: each relation is between what
    can be seen of the scheduler before and after. */
module SchedulerEffects {
  import opened Folding
  import opened InvocationTree
  import opened Options
  import opened SchedulerState
  import opened SchedulerSteps
  import opened SchedulerEvents

  /** The scheduler without its tree of invocations. */
  datatype View = View(tasks: map<nat, Task>, workers: map<nat, Worker>, inFlight: map<nat, nat>,
    verdicts: map<nat, seq<Verdict>>)

  // ---- Tasks end ----

  /** A task ends for good: its learner is told, its key is free, and its worker, if it has one, is left. */
  ghost predicate Ended(s: View, s': View, t: nat, verdict: Verdict, completedByWorker: bool) {
    && Unfinished(s.tasks, t) && s'.tasks == Completed(s.tasks, t)
    && s'.inFlight == Forgotten(s.inFlight, s.tasks[t].key)
    && s'.verdicts == Told(s.verdicts, s.tasks[t].learner.value, verdict)
    && Left(s.tasks, s.workers, LeavesWorker(s.tasks, t), s'.workers, t, completedByWorker)
  }

  /** A task in its next life: moved to another queue, with another learner. */
  ghost function Moved(task: Task, learner: nat, q: nat): Task {
    task.(operations := AllMoved(q, task.operations), learner := Some(learner), currentWorker := None)
  }

  function BackgroundTask(b: Background): Task {
    Task({[b.queue] + b.keys}, None, Some(b.learner), None, 0)
  }

  /** The queued tasks that have an operation in an invocation. */
  ghost function QueuedHere(tasks: map<nat, Task>, queued: set<nat>, p: Path): set<nat> {
    set u | u in queued && u in tasks && p in tasks[u].operations
  }

  /** No background task may be added. */
  ghost predicate Crowded(tasks: map<nat, Task>, queued: set<nat>, b: Background) {
    b.maximum == 0 || |QueuedHere(tasks, queued, [b.queue] + b.keys)| >= b.maximum
  }

  /** The workers, of which w has left its task, before anything else happened. */
  ghost function LeftOnly(workers: map<nat, Worker>, workers': map<nat, Worker>, w: nat): map<nat, Worker> {
    if w in workers' then workers[w := workers'[w]] else workers
  }

  /** A task that failed is to run again, elsewhere and with another learner. */
  ghost predicate Retried(s: View, s': View, t: nat, learner: nat, largest: nat) {
    && Unfinished(s.tasks, t) && s.tasks[t].currentWorker.Some?
    && s'.inFlight == s.inFlight && s'.verdicts == Told(s.verdicts, s.tasks[t].learner.value, Failed)
    && var left := LeftOnly(s.workers, s'.workers, s.tasks[t].currentWorker.value);
       && Left(s.tasks, s.workers, LeavesWorker(s.tasks, t), left, t, true)
       && Scheduled(s.tasks[t := Moved(s.tasks[t], learner, largest)], left, s'.tasks, s'.workers, t, largest)
  }

  /** A task that succeeded is to run once more in the background. Where that is too much, the learner of the
      background task is told so. */
  ghost predicate Repeated(s: View, s': View, t: nat, b: Background) {
    && Unfinished(s.tasks, t) && s.tasks[t].currentWorker.Some? && b.task !in s.tasks
    && s'.inFlight == Forgotten(s.inFlight, s.tasks[t].key)
    && var left := LeftOnly(s.workers, s'.workers, s.tasks[t].currentWorker.value);
       && Left(s.tasks, s.workers, LeavesWorker(s.tasks, t), left, t, true)
       && if Crowded(s.tasks, QueuedTasks(s.tasks), b) then
            && s'.verdicts == Told(Told(s.verdicts, b.learner, Abandoned), s.tasks[t].learner.value, Succeeded)
            && s'.tasks == Completed(s.tasks, t) && s'.workers == left
          else
            && s'.verdicts == Told(s.verdicts, s.tasks[t].learner.value, Succeeded)
            && Scheduled(Completed(s.tasks, t)[b.task := BackgroundTask(b)], left, s'.tasks, s'.workers, b.task,
                         b.queue)
  }

  /** A worker finished a task. */
  ghost predicate Finished(s: View, s': View, t: nat, outcome: Outcome, largest: nat) {
    match outcome
    case Success(background) =>
      if background.Some? then Repeated(s, s', t, background.value) else Ended(s, s', t, Succeeded, true)
    case Failure(retry) =>
      if retry.Some? then Retried(s, s', t, retry.value, largest) else Ended(s, s', t, Failed, true)
  }

  /** A task that left its worker or queues and was then completed. */
  lemma AfterLeaving(s: View, mid: map<nat, Task>, s': View, t: nat, verdict: Verdict, completedByWorker: bool)
    requires Unfinished(s.tasks, t) && Left(s.tasks, s.workers, mid, s'.workers, t, completedByWorker)
    requires s'.tasks == Completed(mid, t) && s'.inFlight == Forgotten(s.inFlight, mid[t].key)
             && s'.verdicts == Told(s.verdicts, mid[t].learner.value, verdict)
    ensures Ended(s, s', t, verdict, completedByWorker)
  {
    assert s'.tasks == Completed(s.tasks, t);
  }

  /** The worker that was left is as it was then, so all workers at that time are known. */
  lemma OnlyOneLeft(s: View, mid: map<nat, Task>, left: map<nat, Worker>, workers': map<nat, Worker>, t: nat, w: nat)
    requires t in s.tasks && s.tasks[t].currentWorker == Some(w)
    requires Left(s.tasks, s.workers, mid, left, t, true) && w in left && w in workers' && workers'[w] == left[w]
    ensures LeftOnly(s.workers, workers', w) == left
  {
    var last :| LeftAt(s.tasks, s.workers, left, t, true, last);
  }

  lemma RetriedAfterLeaving(s: View, mid: map<nat, Task>, left: map<nat, Worker>, s': View, t: nat, learner: nat,
      largest: nat)
    requires Unfinished(s.tasks, t) && s.tasks[t].currentWorker.Some?
             && Left(s.tasks, s.workers, mid, left, t, true)
    requires s.tasks[t].currentWorker.value in left && s.tasks[t].currentWorker.value in s'.workers
             && s'.workers[s.tasks[t].currentWorker.value] == left[s.tasks[t].currentWorker.value]
    requires Scheduled(mid[t := Moved(mid[t], learner, largest)], left, s'.tasks, s'.workers, t, largest)
    requires s'.inFlight == s.inFlight && s'.verdicts == Told(s.verdicts, mid[t].learner.value, Failed)
    ensures Retried(s, s', t, learner, largest)
  {
    OnlyOneLeft(s, mid, left, s'.workers, t, s.tasks[t].currentWorker.value);
    assert mid[t := Moved(mid[t], learner, largest)] == s.tasks[t := Moved(s.tasks[t], learner, largest)];
  }

  /** A task that is executing is not queued, so leaving its worker makes no invocation less crowded. */
  lemma CrowdedAfterLeaving(tasks: map<nat, Task>, t: nat, b: Background)
    requires t in tasks && tasks[t].currentWorker.Some?
    ensures Crowded(LeavesWorker(tasks, t), QueuedTasks(LeavesWorker(tasks, t)) - {t}, b)
            <==> Crowded(tasks, QueuedTasks(tasks), b)
  {
    var p := [b.queue] + b.keys;
    assert QueuedTasks(LeavesWorker(tasks, t)) - {t} == QueuedTasks(tasks);
    assert QueuedHere(LeavesWorker(tasks, t), QueuedTasks(tasks), p) == QueuedHere(tasks, QueuedTasks(tasks), p);
  }

  lemma RepeatedAfterLeaving(s: View, mid: map<nat, Task>, left: map<nat, Worker>, s': View, t: nat, b: Background)
    requires Unfinished(s.tasks, t) && s.tasks[t].currentWorker.Some? && b.task !in s.tasks
             && Left(s.tasks, s.workers, mid, left, t, true)
    requires s.tasks[t].currentWorker.value in left && s.tasks[t].currentWorker.value in s'.workers
             && s'.workers[s.tasks[t].currentWorker.value] == left[s.tasks[t].currentWorker.value]
    requires s'.inFlight == Forgotten(s.inFlight, mid[t].key)
    requires Crowded(mid, QueuedTasks(mid) - {t}, b) ==>
               && s'.tasks == Completed(mid, t) && s'.workers == left
               && s'.verdicts == Told(Told(s.verdicts, b.learner, Abandoned), mid[t].learner.value, Succeeded)
    requires !Crowded(mid, QueuedTasks(mid) - {t}, b) ==>
               && s'.verdicts == Told(s.verdicts, mid[t].learner.value, Succeeded)
               && Scheduled(Completed(mid, t)[b.task := BackgroundTask(b)], left, s'.tasks, s'.workers, b.task, b.queue)
    ensures Repeated(s, s', t, b)
  {
    OnlyOneLeft(s, mid, left, s'.workers, t, s.tasks[t].currentWorker.value);
    CrowdedAfterLeaving(s.tasks, t, b);
    assert Completed(mid, t) == Completed(s.tasks, t);
  }

  /** Completing a task does not concern the scheduling of another. */
  lemma CompletedAside(tasks: map<nat, Task>, workers: map<nat, Worker>, tasks': map<nat, Task>,
      workers': map<nat, Worker>, t: nat, u: nat, q: nat, task: Task)
    requires t in tasks && u != t && Scheduled(tasks[u := task], workers, tasks', workers', u, q)
    ensures t in tasks'
    ensures Scheduled(Completed(tasks, t)[u := task], workers, Completed(tasks', t), workers', u, q)
  {
    if workers' == workers && tasks' == tasks[u := task] && NobodyWaits(workers, q) {
      assert Completed(tasks', t) == Completed(tasks, t)[u := task];
    } else {
      var w :| HandedTo(tasks[u := task], workers, tasks', workers', u, q, w);
      assert Completed(tasks', t) == TakesTask(Completed(tasks, t)[u := task], u, w);
      assert HandedTo(Completed(tasks, t)[u := task], workers, Completed(tasks', t), workers', u, q, w);
    }
  }

  /** An invocation keeps the queued tasks that have an operation there. */
  lemma QueuedThere(tasks: map<nat, Task>, workers: map<nat, Worker>, queued: set<nat>, pending: set<Path>,
      children: set<Path>, load: Load, waiting: map<Path, set<nat>>, waitingChildren: map<Path, set<nat>>, p: Path)
    requires Consistent(tasks, workers, queued, pending, children, load, waiting, waitingChildren)
    ensures At(load.queuedOperations, p) == QueuedHere(tasks, queued, p)
  {
    assert Opened(OfScheduler);
  }

  // ---- Requests come and go ----

  /** p is the invocation with these keys on the queue of the task. */
  ghost predicate Fits(tasks: map<nat, Task>, t: nat, keys: seq<nat>, p: Path) {
    t in tasks && p != [] && p[1..] == keys && OnQueue(tasks[t].operations + {p}, p[0])
  }

  /** A request to execute an action: it joins the task that is in flight for its key, or becomes a new task on the
      queue, if there is one. */
  ghost predicate Requested(s: View, s': View, keys: seq<nat>, key: nat, queue: Option<nat>, t: nat, learner: nat) {
    if key in s.inFlight then
      exists p :: Fits(s.tasks, s.inFlight[key], keys, p) && s' == s.(tasks := Joined(s.tasks, s.inFlight[key], p))
    else if queue.None? then s' == s
    else
      && s'.verdicts == s.verdicts && s'.inFlight == s.inFlight[key := t]
      && Scheduled(s.tasks[t := Task({[queue.value] + keys}, None, Some(learner), Some(key), 0)], s.workers, s'.tasks,
                   s'.workers, t, queue.value)
  }

  /** Somebody ends a task from outside; a task that is completed stays as it is. */
  ghost predicate Killed(s: View, s': View, t: nat) {
    if Unfinished(s.tasks, t) then Ended(s, s', t, Abandoned, false) else s' == s
  }

  /** An operation is removed, and with the last one its task ends. */
  ghost predicate Withdrawn(s: View, s': View, t: nat, p: Path) {
    && t in s.tasks
    && if Unfinished(s.tasks, t) && s.tasks[t].operations == {p} then
         && Ended(s, s'.(tasks := Completed(s.tasks, t)), t, Abandoned, false)
         && s'.tasks == Parted(Completed(s.tasks, t), t, p)
       else s' == s.(tasks := Parted(s.tasks, t, p))
  }

  /** A worker disappears, and its task ends. */
  ghost predicate WorkerGone(s: View, s': View, w: nat) {
    && w in s.workers && w !in s'.workers
    && if s.workers[w].currentTask.None? then s' == s.(workers := s.workers - {w})
       else
         var last := LosesTask(s.workers, w, [s.workers[w].queue])[w];
         Ended(s, s'.(workers := s'.workers[w := last]), s.workers[w].currentTask.value, Abandoned, false)
  }

  /** A worker whose task ended is back at the root. */
  lemma StaleWorkerLeft(s: View, mid: View, w: nat, t: nat)
    requires w in s.workers && s.workers[w].currentTask == Some(t) && Ended(s, mid, t, Abandoned, false)
             && s.tasks[t].currentWorker == Some(w)
    ensures w in mid.workers && mid == mid.(workers := (mid.workers - {w})[w := mid.workers[w]])
    ensures mid.workers[w] == LosesTask(s.workers, w, [s.workers[w].queue])[w]
  {
    var last :| LeftAt(s.tasks, s.workers, mid.workers, t, false, last);
  }

  // ---- Workers synchronize ----

  function Entered(workers: map<nat, Worker>, w: nat, q: nat): map<nat, Worker> {
    workers[w := if w in workers then workers[w].(synchronizing := true) else Worker(q, None, Some([q]), false, true)]
  }

  /** A worker without a task, after its answer. */
  function AfterAnswer(worker: Worker, r: Response): Worker {
    match r
    case Run(t) => worker.(currentTask := Some(t), lastInvocation := None, synchronizing := false)
    case Waiting => worker.(waiting := true)
    case Drained => worker
    case _ => worker.(synchronizing := false)
  }

  /** A worker without a task gets its answer, and a queued task if the answer is to run it. */
  ghost predicate Proceeds(s: View, s': View, w: nat, mayBlock: bool, isDrained: bool, preferBeingIdle: bool,
      r: Response) {
    && w in s.workers && NextAnswer(s.tasks, s.workers[w].queue, mayBlock, isDrained, preferBeingIdle, r)
    && s' == s.(tasks := if r.Run? then TakesTask(s.tasks, r.task, w) else s.tasks,
                workers := s.workers[w := AfterAnswer(s.workers[w], r)])
  }

  /** The call of a worker ends, and nothing else changes. */
  ghost function Released(s: View, w: nat): View
    requires w in s.workers
  {
    s.(workers := s.workers[w := s.workers[w].(waiting := false, synchronizing := false)])
  }

  ghost function RunAgain(s: View, t: nat): View
    requires t in s.tasks
  {
    s.(tasks := s.tasks[t := s.tasks[t].(retryCount := s.tasks[t].retryCount + 1)])
  }

  /** A worker that says nothing of its task: it is told to run it again, a limited number of times, and then the task
      is given up. Then, and if it has no task, the worker gets its answer. */
  ghost predicate Retrieved(s: View, mid: View, s': View, w: nat, mayBlock: bool, isDrained: bool,
      preferBeingIdle: bool, retries: nat, r: Response) {
    && w in s.workers
    && if s.workers[w].currentTask.None? then
         mid == s && Proceeds(mid, s', w, mayBlock, isDrained, preferBeingIdle, r)
       else
         var t := s.workers[w].currentTask.value;
         && Unfinished(s.tasks, t)
         && if s.tasks[t].retryCount < retries then
              r == Run(t) && mid == RunAgain(s, t) && s' == Released(mid, w)
            else
              Ended(s, mid, t, Abandoned, false) && Proceeds(mid, s', w, mayBlock, isDrained, preferBeingIdle, r)
  }

  /** A worker that reports about its task. */
  ghost predicate Responded(s: View, mid: View, s': View, w: nat, report: Report, isDrained: bool,
      preferBeingIdle: bool, largest: nat, r: Response) {
    && w in s.workers && !report.Idling? && Unfinished(s.tasks, report.task)
    && s.tasks[report.task].currentWorker == Some(w)
    && match report
       case Idling => false
       case Running(_) => r == Continue && mid == s && s' == Released(s, w)
       case Rejecting(t, isError) =>
         if isError then
           Ended(s, mid, t, Abandoned, true) && Proceeds(mid, s', w, true, isDrained, preferBeingIdle, r)
         else r == Refused && mid == s && s' == Released(s, w)
       case Finishing(t, outcome) =>
         Finished(s, mid, t, outcome, largest) && Proceeds(mid, s', w, true, isDrained, preferBeingIdle, r)
  }

  /** The report is about the task that the scheduler has on the worker. */
  predicate IsAbout(s: View, w: nat, report: Report) {
    !report.Idling? && w in s.workers && s.workers[w].currentTask == Some(report.task)
  }

  /** A worker's report. First the scheduler acts on what it says of the worker's task, which leads to `mid`; then
      the worker is answered. Kept folded. */
  ghost predicate Processed(s: View, mid: View, s': View, w: nat, report: Report, isDrained: bool,
      preferBeingIdle: bool, retries: nat, largest: nat, r: Response) {
    forall f: Fold {:trigger Opened(f)} :: Opened(f) && f == OfReport ==>
      if IsAbout(s, w, report) then
        Responded(s, mid, s', w, report, isDrained, preferBeingIdle, largest, r)
      else Retrieved(s, mid, s', w, !report.Running?, isDrained, preferBeingIdle, retries, r)
  }

  /** The learners that a report brings in. */
  function LearnersIn(s: View, w: nat, report: Report): set<nat> {
    if report.Finishing? && IsAbout(s, w, report) then LearnersFrom(report.outcome) else {}
  }

  // ---- What reports come to ----

  /** Taking on another task changes nothing about who finished or what was learned. */
  lemma ProceedingKeeps(s: View, s': View, w: nat, mayBlock: bool, isDrained: bool, preferBeingIdle: bool, r: Response,
      t: nat)
    requires Proceeds(s, s', w, mayBlock, isDrained, preferBeingIdle, r) && t in s.tasks
    ensures t in s'.tasks && s'.tasks[t].learner == s.tasks[t].learner && s'.tasks[t].key == s.tasks[t].key
            && s'.tasks[t].operations == s.tasks[t].operations
    ensures s'.inFlight == s.inFlight && s'.verdicts == s.verdicts
  {
  }

  /** The task is completed, and its key is free for another. */
  ghost predicate IsOver(s: View, t: nat) {
    t in s.tasks && !Unfinished(s.tasks, t) && (s.tasks[t].key.Some? ==> s.tasks[t].key.value !in s.inFlight)
  }

  lemma FinishingTells(s: View, s': View, t: nat, outcome: Outcome, largest: nat)
    requires Finished(s, s', t, outcome, largest) && OutcomeUnknown(s.tasks, s.verdicts, outcome)
    ensures VerdictsOf(s'.verdicts, s.tasks[t].learner.value) ==
            VerdictsOf(s.verdicts, s.tasks[t].learner.value) + [if outcome.Success? then Succeeded else Failed]
  {
  }

  lemma FinishingLeaves(s: View, s': View, w: nat, t: nat, outcome: Outcome, largest: nat)
    requires Finished(s, s', t, outcome, largest) && s.tasks[t].currentWorker == Some(w)
    ensures t in s'.tasks && w in s.workers && w in s'.workers && s'.workers[w].currentTask.None?
            && s'.workers[w].queue == s.workers[w].queue
    ensures outcome.Success? || outcome.retry.None? ==> IsOver(s', t)
    ensures outcome.Failure? && outcome.retry.Some? ==>
              s'.tasks[t].learner == outcome.retry && s'.tasks[t].operations == AllMoved(largest, s.tasks[t].operations)
  {
    LeavingIdles(s.tasks, s.workers, LeavesWorker(s.tasks, t), LeftOnly(s.workers, s'.workers, w), t, true);
  }

  /** A task that a worker reports to have finished: its learner hears of it. The task is over, unless the learner asks
      for a retry; then it is on the largest queue with the new learner. */
  lemma CompletionCounts(s: View, mid: View, s': View, w: nat, report: Report, isDrained: bool, preferBeingIdle: bool,
      retries: nat, largest: nat, r: Response)
    requires Processed(s, mid, s', w, report, isDrained, preferBeingIdle, retries, largest, r)
    requires report.Finishing? && IsAbout(s, w, report) && OutcomeUnknown(s.tasks, s.verdicts, report.outcome)
    ensures Unfinished(s.tasks, report.task)
    ensures var l := s.tasks[report.task].learner.value;
            VerdictsOf(s'.verdicts, l) ==
              VerdictsOf(s.verdicts, l) + [if report.outcome.Success? then Succeeded else Failed]
    ensures report.outcome.Success? || report.outcome.retry.None? ==> IsOver(s', report.task)
    ensures report.outcome.Failure? && report.outcome.retry.Some? ==>
              && report.task in s'.tasks && s'.tasks[report.task].learner == report.outcome.retry
              && s'.tasks[report.task].operations == AllMoved(largest, s.tasks[report.task].operations)
    ensures w in mid.workers && mid.workers[w].currentTask.None? && mid.workers[w].queue == s.workers[w].queue
            && NextAnswer(mid.tasks, mid.workers[w].queue, true, isDrained, preferBeingIdle, r)
  {
    assert Opened(OfReport);
    var t := report.task;
    FinishingTells(s, mid, t, report.outcome, largest);
    FinishingLeaves(s, mid, w, t, report.outcome, largest);
    ProceedingKeeps(mid, s', w, true, isDrained, preferBeingIdle, r, t);
  }

  /** A background task that the learner asked for is unfinished on its queue, without a key, unless it was one too
      many; then its learner was told so, and nothing else. */
  lemma BackgroundCounts(s: View, mid: View, s': View, w: nat, report: Report, isDrained: bool, preferBeingIdle: bool,
      retries: nat, largest: nat, r: Response, b: Background)
    requires Processed(s, mid, s', w, report, isDrained, preferBeingIdle, retries, largest, r)
    requires report.Finishing? && IsAbout(s, w, report) && OutcomeUnknown(s.tasks, s.verdicts, report.outcome)
    requires report.outcome == Success(Some(b))
    ensures if Crowded(s.tasks, QueuedTasks(s.tasks), b) then
              b.task !in s'.tasks && VerdictsOf(s'.verdicts, b.learner) == [Abandoned]
            else
              && Unfinished(s'.tasks, b.task) && s'.tasks[b.task].operations == {[b.queue] + b.keys}
              && s'.tasks[b.task].learner == Some(b.learner) && s'.tasks[b.task].key.None?
              && VerdictsOf(s'.verdicts, b.learner) == []
  {
    assert Opened(OfReport);
    if !Crowded(s.tasks, QueuedTasks(s.tasks), b) {
      assert b.task in mid.tasks;
      ProceedingKeeps(mid, s', w, true, isDrained, preferBeingIdle, r, b.task);
    }
  }

  /** A task that a worker rejects is over, and its learner hears that it was abandoned. */
  lemma RejectionCounts(s: View, mid: View, s': View, w: nat, report: Report, isDrained: bool, preferBeingIdle: bool,
      retries: nat, largest: nat, r: Response)
    requires Processed(s, mid, s', w, report, isDrained, preferBeingIdle, retries, largest, r)
    requires report.Rejecting? && report.isError && IsAbout(s, w, report)
    ensures Unfinished(s.tasks, report.task) && IsOver(s', report.task)
    ensures s'.verdicts == Told(s.verdicts, s.tasks[report.task].learner.value, Abandoned)
    ensures w in mid.workers && NextAnswer(mid.tasks, mid.workers[w].queue, true, isDrained, preferBeingIdle, r)
  {
    assert Opened(OfReport);
    ProceedingKeeps(mid, s', w, true, isDrained, preferBeingIdle, r, report.task);
  }

  /** A call of a worker whose report is not about its task. */
  ghost predicate SaysNothing(s: View, mid: View, s': View, w: nat, retries: nat, r: Response) {
    exists q: nat, report: Report, isDrained: bool, preferBeingIdle: bool, largest: nat ::
      && Processed(s.(workers := Entered(s.workers, w, q)), mid, s', w, report, isDrained, preferBeingIdle, retries,
                   largest, r)
      && !IsAbout(s, w, report)
  }

  /** Calls in a row that say nothing of the worker's task. */
  ghost predicate SaysNothingAllAlong(views: seq<View>, mids: seq<View>, w: nat, retries: nat, rs: seq<Response>) {
    && |views| == |rs| + 1 && |mids| == |rs|
    && forall n :: 0 <= n < |rs| ==> SaysNothing(views[n], mids[n], views[n + 1], w, retries, rs[n])
  }

  lemma {:induction false} RetriesCount(views: seq<View>, mids: seq<View>, w: nat, t: nat, retries: nat,
      rs: seq<Response>, n: nat)
    requires SaysNothingAllAlong(views, mids, w, retries, rs) && n <= |rs|
    requires w in views[0].workers && views[0].workers[w].currentTask == Some(t) && t in views[0].tasks
             && views[0].tasks[t].retryCount + n <= retries
    ensures n > 0 ==> rs[n - 1] == Run(t)
    ensures w in views[n].workers && views[n].workers[w].currentTask == Some(t)
    ensures views[n].tasks == views[0].tasks[t :=
              views[0].tasks[t].(retryCount := views[0].tasks[t].retryCount + n)]
    ensures views[n].verdicts == views[0].verdicts && views[n].inFlight == views[0].inFlight
  {
    if n > 0 {
      RetriesCount(views, mids, w, t, retries, rs, n - 1);
      assert SaysNothing(views[n - 1], mids[n - 1], views[n], w, retries, rs[n - 1]);
      assert Opened(OfReport);
    }
  }

  /** A worker that keeps saying nothing of its task is told to run it as often as the limit has it; at the next call
      the task is abandoned. */
  lemma RetriesRunOut(views: seq<View>, mids: seq<View>, w: nat, t: nat, retries: nat, rs: seq<Response>)
    requires SaysNothingAllAlong(views, mids, w, retries, rs)
    requires w in views[0].workers && views[0].workers[w].currentTask == Some(t) && Unfinished(views[0].tasks, t)
             && views[0].tasks[t].retryCount == 0
    ensures forall n :: 0 <= n < |rs| && n < retries ==> rs[n] == Run(t) && mids[n].verdicts == views[0].verdicts
    ensures |rs| > retries ==>
              mids[retries].verdicts == Told(views[0].verdicts, views[0].tasks[t].learner.value, Abandoned)
              && IsOver(mids[retries], t)
  {
    assert Opened(OfReport);
    forall n | 0 <= n < |rs| && n < retries ensures rs[n] == Run(t) && mids[n].verdicts == views[0].verdicts {
      RetriesCount(views, mids, w, t, retries, rs, n);
      RetriesCount(views, mids, w, t, retries, rs, n + 1);
      assert SaysNothing(views[n], mids[n], views[n + 1], w, retries, rs[n]);
    }
    if |rs| > retries {
      RetriesCount(views, mids, w, t, retries, rs, retries);
      assert SaysNothing(views[retries], mids[retries], views[retries + 1], w, retries, rs[retries]);
    }
  }

  predicate IsSynchronizing(workers: map<nat, Worker>, w: nat) {
    w in workers && workers[w].synchronizing
  }

  /** A blocked call goes on: a worker that was handed a task is told so, however it was woken up. */
  ghost predicate Resumed(s: View, s': View, w: nat, wake: Wake, isDrained: bool, r: Response) {
    && w in s.workers
    && if wake.Cancelled? then r == Refused && s' == Released(s, w)
       else if s.workers[w].currentTask.Some? then r == Run(s.workers[w].currentTask.value) && s' == Released(s, w)
       else if wake.Timeout? then r == GoIdle && s' == Released(s, w)
       else Proceeds(s.(workers := Waits(s.workers, w, false)), s', w, true, isDrained, false, r)
  }
}
