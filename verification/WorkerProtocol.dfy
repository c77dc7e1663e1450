/** A worker's client and the scheduler, together: when the client rests and believes that the
    scheduler thinks it idle, the scheduler has no task on the worker. */
module WorkerProtocol {
  import opened Folding
  import opened Options
  import opened SchedulerState
  import opened SchedulerSteps
  import opened SchedulerEvents
  import opened SchedulerEffects
  import opened Scheduler
  import opened SchedulerRuns

  /** The state a client reports. */
  datatype ClientState =
    | IdleState
    | RejectedState(task: nat)
    | ExecutingState(task: nat)
    | CompletedState(task: nat, succeeded: bool)

  /** Where the client's call of Synchronize is: between calls, blocked in the scheduler, or answered
      with the answer still under way. */
  datatype Phase = Resting | Blocked | Answered(r: Response)

  /** How an execution that is under way ended. */
  datatype Ending = Succeeds | Fails | IsRejected

  /** The report that goes with a state. The outcome holds what the learner decides in the scheduler. */
  predicate ReportOf(state: ClientState, report: Report) {
    match state
    case IdleState => report.Idling?
    case RejectedState(task) => report == Rejecting(task, true)
    case ExecutingState(task) => report == Running(task)
    case CompletedState(task, succeeded) =>
        report.Finishing? && report.task == task && report.outcome.Success? == succeeded
  }

  /** The state after an execution ended. */
  function Ended(task: nat, ending: Ending): ClientState {
    match ending
    case Succeeds => CompletedState(task, true)
    case Fails => CompletedState(task, false)
    case IsRejected => RejectedState(task)
  }

  /** The state that is reported: an execution that is under way may have ended. */
  function Reported(state: ClientState, ending: Option<Ending>): ClientState {
    if state.ExecutingState? && ending.Some? then Ended(state.task, ending.value) else state
  }

  /** A step of the client and the scheduler together: something else happens in the scheduler, the client calls, the
      blocked call goes on, the client receives the answer, or it calls and is asked to verify its public keys. */
  datatype SessionEvent =
    | Meanwhile(e: Event)
    | Calling(ending: Option<Ending>, report: Report, shuttingDown: bool, lost: bool, isDrained: bool,
      stickinessLimits: nat, largest: nat)
    | Unblocking(wake: Wake, isDrained: bool, stickinessLimits: nat)
    | Receiving(lost: bool, startFails: bool)
    | Verifying(ending: Option<Ending>, fails: bool)

  /** What can be seen of a session. */
  datatype SessionView = SessionView(state: ClientState, mayThinkExecuting: bool, phase: Phase, scheduler: View)

  /** A client prefers being idle when it shuts down, when it may be thought to be executing although it is idle, and
      after an execution that did not succeed. */
  ghost predicate PrefersIdle(state: ClientState, mayThinkExecuting: bool, shuttingDown: bool) {
    || shuttingDown
    || (state == IdleState && mayThinkExecuting)
    || (state.CompletedState? && !state.succeeded)
  }

  /** The answer that a call got, or that it has to wait. */
  ghost function AnswerTo(v: SessionView, w: nat): Response {
    match v.phase
    case Answered(r) => r
    case _ => if w in v.scheduler.workers && v.scheduler.workers[w].waiting then Waiting else Drained
  }

  /** The client's state after an answer arrived. */
  function StateAfter(state: ClientState, r: Response, startFails: bool): ClientState {
    match r
    case GoIdle => IdleState
    case Run(task) => if startFails then RejectedState(task) else ExecutingState(task)
    case _ => state
  }

  /** A call reaches the scheduler and is answered, or blocks. */
  ghost predicate Synchronizes(v: SessionView, v': SessionView, w: nat, q: nat, report: Report, isDrained: bool,
      preferBeingIdle: bool, retries: nat, largest: nat) {
    && !v'.phase.Resting?
    && exists mid: View ::
         Processed(v.scheduler.(workers := Entered(v.scheduler.workers, w, q)), mid, v'.scheduler, w, report,
                   isDrained, preferBeingIdle, retries, largest, AnswerTo(v', w))
  }

  /** The scheduler has no task on the worker. */
  ghost predicate NoTaskOn(s: View, w: nat) {
    w in s.workers ==> s.workers[w].currentTask.None?
  }

  /** The client rests without a deadline, and the scheduler has a task on it all the same. */
  ghost predicate BrokenAt(v: SessionView, w: nat) {
    v.phase.Resting? && !v.mayThinkExecuting && !NoTaskOn(v.scheduler, w)
  }

  /** The steps that can happen next; verifications of keys only where the client knows that it may rest. */
  predicate MayHappen(v: SessionView, e: SessionEvent, w: nat) {
    match e
    case Meanwhile(event) => May(v.scheduler, event) && w !in Callers(event)
    case Calling(ending, report, _, _, _, _, _) =>
      && v.phase.Resting? && ReportOf(Reported(v.state, ending), report)
      && (report.Finishing? ==> OutcomeUnknown(v.scheduler.tasks, v.scheduler.verdicts, report.outcome))
    case Unblocking(wake, _, _) =>
      && v.phase.Blocked? && w in v.scheduler.workers
      && (wake.Woken? ==> !v.scheduler.workers[w].waiting)
    case Receiving(_, _) => v.phase.Answered?
    case Verifying(ending, fails) =>
      v.phase.Resting? && (fails || MayRest(Reported(v.state, ending), v.mayThinkExecuting))
  }

  /** What a step does. */
  ghost predicate Happened(v: SessionView, e: SessionEvent, v': SessionView, w: nat, q: nat, retries: nat) {
    match e
    case Meanwhile(event) =>
      v' == v.(scheduler := v'.scheduler) && Effect(v.scheduler, event, v'.scheduler, retries)
    case Calling(ending, report, shuttingDown, lost, isDrained, _, largest) =>
      && v'.state == Reported(v.state, ending)
      && if lost then v' == v.(state := v'.state, mayThinkExecuting := true)
         else
           && v'.mayThinkExecuting == v.mayThinkExecuting
           && Synchronizes(v, v', w, q, report, isDrained,
                           PrefersIdle(v'.state, v.mayThinkExecuting, shuttingDown), retries, largest)
    case Unblocking(wake, isDrained, _) =>
      && v' == v.(phase := v'.phase, scheduler := v'.scheduler) && !v'.phase.Resting?
      && Resumed(v.scheduler, v'.scheduler, w, wake, isDrained, AnswerTo(v', w))
    case Receiving(lost, startFails) =>
      v.phase.Answered?
      && v' == v.(state := if lost then v.state else StateAfter(v.state, v.phase.r, startFails), phase := Resting,
                  mayThinkExecuting := lost || !v.phase.r.GoIdle?)
    case Verifying(ending, fails) =>
      v' == v.(state := Reported(v.state, ending),
               mayThinkExecuting := fails || Reported(v.state, ending).ExecutingState?)
  }

  /** One client, the only one with its worker key, and the scheduler. */
  class Session {
    const bq: BuildQueue
    const w: nat
    const q: nat

    var state: ClientState
    var mayThinkExecuting: bool
    var phase: Phase

    /** The steps so far. */
    ghost var past: seq<SessionEvent>

    function Seen(): SessionView
      reads this, bq
    {
      SessionView(state, mayThinkExecuting, phase, bq.Seen())
    }

    /** The scheduler has no task on the worker. */
    ghost predicate NoTask()
      reads bq
    {
      NoTaskOn(bq.Seen(), w)
    }

    ghost predicate Valid()
      reads this, bq
    {
      && bq.Valid() && (w in bq.workers ==> bq.workers[w].queue == q)
      && (phase.Blocked? <==> w in bq.workers && bq.workers[w].synchronizing)
      && (w in bq.workers && !phase.Blocked? ==> !bq.workers[w].waiting)
      && (phase.Resting? && !mayThinkExecuting ==> NoTask())
      && (phase.Answered? && phase.r.GoIdle? ==> NoTask())
      && (phase.Answered? && phase.r.Continue? ==> state.ExecutingState?)
      && (phase.Answered? ==> !phase.r.Waiting? && !phase.r.Drained?)
    }

    constructor (bq: BuildQueue, w: nat, q: nat)
      requires bq.Valid() && w !in bq.workers
      ensures Valid() && this.bq == bq && this.w == w && this.q == q
      ensures phase == Resting && !mayThinkExecuting && state == IdleState && past == []
    {
      this.bq, this.w, this.q := bq, w, q;
      state, mayThinkExecuting, phase, past := IdleState, false, Resting, [];
    }

    /** Anything else that happens in the scheduler, at any time. */
    method Other(e: Event, retries: nat)
      requires Valid() && May(bq.Seen(), e) && w !in Callers(e)
      modifies bq, this`past
      ensures Valid() && Happened(old(Seen()), Meanwhile(e), Seen(), w, q, retries)
      ensures past == old(past) + [Meanwhile(e)]
    {
      past := past + [Meanwhile(e)];
      Step(bq, e, retries);
    }

    /** The call itself. */
    method Send(report: Report, isDrained: bool, preferBeingIdle: bool, stickinessLimits: nat, retries: nat,
        largest: nat)
      requires Valid() && phase.Resting? && (report.Running? ==> state.ExecutingState?)
      requires report.Finishing? ==> OutcomeIsNew(bq.tasks, bq.held, bq.verdicts, report.outcome)
      modifies this`phase, bq
      ensures Valid() && Spared(old(bq.workers), bq.workers, {w})
      ensures Synchronizes(old(Seen()), Seen(), w, q, report, isDrained, preferBeingIdle, retries, largest)
    {
      var r, mid := bq.Synchronize(w, q, report, isDrained, preferBeingIdle, stickinessLimits, retries, largest);
      phase := if r.Waiting? || r.Drained? then Blocked else Answered(r);
      assert AnswerTo(Seen(), w) == r;
    }

    /** The first half of Run: take note of an execution that ended, and call Synchronize. Either the
        request gets lost, or it is answered, or it blocks. */
    method Call(ending: Option<Ending>, report: Report, shuttingDown: bool, lost: bool, isDrained: bool,
        stickinessLimits: nat, retries: nat, largest: nat)
      requires Valid() && phase.Resting? && ReportOf(Reported(state, ending), report)
      requires report.Finishing? ==> OutcomeIsNew(bq.tasks, bq.held, bq.verdicts, report.outcome)
      modifies this, bq
      ensures Valid()
              && Happened(old(Seen()),
                          Calling(ending, report, shuttingDown, lost, isDrained, stickinessLimits, largest), Seen(), w,
                          q, retries)
      ensures !lost ==> Spared(old(bq.workers), bq.workers, {w})
      ensures past == old(past) + [Calling(ending, report, shuttingDown, lost, isDrained, stickinessLimits, largest)]
    {
      past := past + [Calling(ending, report, shuttingDown, lost, isDrained, stickinessLimits, largest)];
      state := Reported(state, ending);
      if lost {
        mayThinkExecuting := true;
        return;
      }
      var preferBeingIdle := shuttingDown || match state
        case IdleState => mayThinkExecuting
        case RejectedState(_) => false
        case ExecutingState(_) => false
        case CompletedState(_, succeeded) => !succeeded;
      Send(report, isDrained, preferBeingIdle, stickinessLimits, retries, largest);
    }

    /** A blocked call goes on in the scheduler. */
    method Unblock(wake: Wake, isDrained: bool, stickinessLimits: nat)
      requires Valid() && phase.Blocked? && (wake.Woken? ==> !bq.workers[w].waiting)
      modifies this`phase, this`past, bq
      ensures Valid() && Happened(old(Seen()), Unblocking(wake, isDrained, stickinessLimits), Seen(), w, q, 0)
      ensures past == old(past) + [Unblocking(wake, isDrained, stickinessLimits)]
    {
      past := past + [Unblocking(wake, isDrained, stickinessLimits)];
      var r := bq.Resume(w, wake, isDrained, stickinessLimits);
      phase := if r.Waiting? || r.Drained? then Blocked else Answered(r);
    }

    /** The second half of Run: the answer arrives, or gets lost, or is an error. Starting the task may
        fail, so that it is reported as rejected. */
    method Receive(lost: bool, startFails: bool)
      requires Valid() && phase.Answered?
      modifies this
      ensures Valid() && Happened(old(Seen()), Receiving(lost, startFails), Seen(), w, q, 0)
      ensures !mayThinkExecuting ==> NoTask() && state == IdleState
      ensures past == old(past) + [Receiving(lost, startFails)]
    {
      past := past + [Receiving(lost, startFails)];
      var r := phase.r;
      phase := Resting;
      var currentStateIsExecuting := state.ExecutingState?;
      if !mayThinkExecuting {
        mayThinkExecuting := true;
      }
      if lost || r.Refused? {
        return;
      }
      if r.GoIdle? {
        state, mayThinkExecuting := IdleState, false;
        return;
      }
      if r.Run? {
        state := if startFails then RejectedState(r.task) else ExecutingState(r.task);
        mayThinkExecuting := true;
        return;
      }
      mayThinkExecuting := currentStateIsExecuting;
    }

    ghost predicate Broken()
      reads this, bq
    {
      BrokenAt(Seen(), w)
    }

    /** Run when the scheduler wants the worker's public keys verified, which it answers before it looks at the worker.
        The client takes that for a permission to rest, unless it fails to verify its keys. */
    method VerifyKeys(ending: Option<Ending>, fails: bool)
      requires Valid() && phase.Resting?
      modifies this
      ensures Happened(old(Seen()), Verifying(ending, fails), Seen(), w, q, 0) && phase == Resting
      ensures past == old(past) + [Verifying(ending, fails)]
      ensures fails || MayRest(Reported(old(state), ending), old(mayThinkExecuting)) ==> Valid()
      ensures Broken() <==> !fails && !MayRest(Reported(old(state), ending), old(mayThinkExecuting)) && !old(NoTask())
    {
      past := past + [Verifying(ending, fails)];
      state := Reported(state, ending);
      if !mayThinkExecuting {
        mayThinkExecuting := true;
      }
      if !fails {
        mayThinkExecuting := state.ExecutingState?;
      }
    }

    method Happen(e: SessionEvent, retries: nat)
      requires Valid() && MayHappen(Seen(), e, w)
      modifies this, bq
      ensures Valid() && Happened(old(Seen()), e, Seen(), w, q, retries) && past == old(past) + [e]
    {
      match e {
        case Meanwhile(event) =>
          Other(event, retries);
        case Calling(ending, report, shuttingDown, lost, isDrained, stickinessLimits, largest) =>
          if report.Finishing? {
            OutcomeUnknownIsNew(bq.tasks, bq.inFlight, bq.held, bq.verdicts, report.outcome);
          }
          Call(ending, report, shuttingDown, lost, isDrained, stickinessLimits, retries, largest);
        case Unblocking(wake, isDrained, stickinessLimits) =>
          Unblock(wake, isDrained, stickinessLimits);
        case Receiving(lost, startFails) =>
          Receive(lost, startFails);
        case Verifying(ending, fails) =>
          VerifyKeys(ending, fails);
      }
    }
  }

  /** A step that may happen has its effect, and any other none. */
  ghost predicate GoesOn(v: SessionView, e: SessionEvent, v': SessionView, w: nat, q: nat, retries: nat) {
    if MayHappen(v, e, w) then Happened(v, e, v', w, q, retries) else v' == v
  }

  /** What can be seen of a run. */
  ghost predicate SessionTraces(views: seq<SessionView>, events: seq<SessionEvent>, w: nat, q: nat, retries: nat) {
    && |views| == |events| + 1 && views[0] == SessionView(IdleState, false, Resting, View(map[], map[], map[], map[]))
    && forall n :: 0 <= n < |events| ==> GoesOn(views[n], events[n], views[n + 1], w, q, retries)
  }

  lemma SessionTracesOn(views: seq<SessionView>, events: seq<SessionEvent>, v: SessionView, e: SessionEvent, w: nat,
      q: nat, retries: nat)
    requires SessionTraces(views, events, w, q, retries) && GoesOn(views[|events|], e, v, w, q, retries)
    ensures SessionTraces(views + [v], events + [e], w, q, retries)
  {
    var views', events' := views + [v], events + [e];
    forall n | 0 <= n < |events'| ensures GoesOn(views'[n], events'[n], views'[n + 1], w, q, retries) {
      if n < |events| {
        assert GoesOn(views[n], events[n], views[n + 1], w, q, retries);
      }
    }
  }

  /** Every run of client and scheduler: any sequence of steps from the start, leaving out those that cannot happen
      and the verifications of keys that may do harm. At no point does the client rest without a deadline while the
      scheduler has a task on it. */
  method RunSession(w: nat, q: nat, events: seq<SessionEvent>, retries: nat)
      returns (s: Session, ghost views: seq<SessionView>)
    ensures fresh(s) && s.w == w && s.q == q && s.Valid()
    ensures SessionTraces(views, events, w, q, retries) && views[|events|] == s.Seen()
    ensures forall n :: 0 <= n <= |events| ==> !BrokenAt(views[n], w)
  {
    var bq := new BuildQueue();
    s := new Session(bq, w, q);
    views := [s.Seen()];
    for n := 0 to |events|
      invariant fresh(s) && fresh(s.bq) && s.w == w && s.q == q && s.Valid()
      invariant SessionTraces(views, events[..n], w, q, retries) && views[n] == s.Seen()
      invariant forall k :: 0 <= k <= n ==> !BrokenAt(views[k], w)
    {
      var v, e := s.Seen(), events[n];
      if MayHappen(v, e, w) {
        s.Happen(e, retries);
      }
      assert events[..n + 1] == events[..n] + [e];
      SessionTracesOn(views, events[..n], s.Seen(), e, w, q, retries);
      views := views + [s.Seen()];
    }
    assert events[..|events|] == events;
  }

  // ---- What calls come to ----

  /** What the learner of a task hears when its execution has ended. */
  function VerdictOn(ending: Ending): Verdict {
    match ending
    case Succeeds => Succeeded
    case Fails => Failed
    case IsRejected => Abandoned
  }

  /** A client whose execution has ended calls, and the scheduler has the task on it: the learner hears how it ended. */
  lemma EndingIsHeard(v: SessionView, e: SessionEvent, v': SessionView, w: nat, q: nat, retries: nat, t: nat, l: nat)
    requires MayHappen(v, e, w) && Happened(v, e, v', w, q, retries)
    requires e.Calling? && !e.lost && e.ending.Some? && v.state == ExecutingState(t)
    requires w in v.scheduler.workers && v.scheduler.workers[w].currentTask == Some(t)
    requires t in v.scheduler.tasks && v.scheduler.tasks[t].learner == Some(l)
    ensures VerdictsOf(v'.scheduler.verdicts, l) == VerdictsOf(v.scheduler.verdicts, l) + [VerdictOn(e.ending.value)]
  {
    var s := v.scheduler.(workers := Entered(v.scheduler.workers, w, q));
    var prefer := PrefersIdle(v'.state, v.mayThinkExecuting, e.shuttingDown);
    var mid :| Processed(s, mid, v'.scheduler, w, e.report, e.isDrained, prefer, retries, e.largest, AnswerTo(v', w));
    if e.report.Finishing? {
      CompletionCounts(s, mid, v'.scheduler, w, e.report, e.isDrained, prefer, retries, e.largest, AnswerTo(v', w));
    } else {
      RejectionCounts(s, mid, v'.scheduler, w, e.report, e.isDrained, prefer, retries, e.largest, AnswerTo(v', w));
    }
  }

  /** A client that is executing the scheduler's task is told to go on, and one that lost track of it is given it
      again or, after too many attempts, not at all. */
  lemma TaskGoesOn(v: SessionView, e: SessionEvent, v': SessionView, w: nat, q: nat, retries: nat, t: nat)
    requires MayHappen(v, e, w) && Happened(v, e, v', w, q, retries) && e.Calling? && !e.lost
    requires w in v.scheduler.workers && v.scheduler.workers[w].currentTask == Some(t) && t in v.scheduler.tasks
    ensures v'.state == ExecutingState(t) ==> v'.phase == Answered(Continue)
    ensures v'.state == IdleState && v.scheduler.tasks[t].retryCount < retries ==> v'.phase == Answered(Run(t))
    ensures v'.state == IdleState && v.scheduler.tasks[t].retryCount >= retries ==>
              !Unfinished(v'.scheduler.tasks, t)
  {
    var s := v.scheduler.(workers := Entered(v.scheduler.workers, w, q));
    var prefer := PrefersIdle(v'.state, v.mayThinkExecuting, e.shuttingDown);
    var mid :| Processed(s, mid, v'.scheduler, w, e.report, e.isDrained, prefer, retries, e.largest, AnswerTo(v', w));
    assert Opened(OfReport);
  }

  /** A client that completed the scheduler's task is sent into idleness after a failure or when it shuts down. After a
      success it is not, unless it shuts down. */
  lemma IdlenessIsGranted(v: SessionView, e: SessionEvent, v': SessionView, w: nat, q: nat, retries: nat, t: nat,
      succeeded: bool)
    requires MayHappen(v, e, w) && Happened(v, e, v', w, q, retries) && e.Calling? && !e.lost
    requires v'.state == CompletedState(t, succeeded)
    requires w in v.scheduler.workers && v.scheduler.workers[w].currentTask == Some(t)
    ensures v'.phase == Answered(GoIdle) <==> e.shuttingDown || !succeeded
  {
    var s := v.scheduler.(workers := Entered(v.scheduler.workers, w, q));
    var prefer := PrefersIdle(v'.state, v.mayThinkExecuting, e.shuttingDown);
    var mid :| Processed(s, mid, v'.scheduler, w, e.report, e.isDrained, prefer, retries, e.largest, AnswerTo(v', w));
    CompletionCounts(s, mid, v'.scheduler, w, e.report, e.isDrained, prefer, retries, e.largest, AnswerTo(v', w));
    assert Opened(OfReport);
  }

  /** An idle client that the scheduler knows to be idle is given work whenever there is some for it, and one that may
      be thought to be executing is not. */
  lemma WorkIsGranted(v: SessionView, e: SessionEvent, v': SessionView, w: nat, q: nat, retries: nat)
    requires MayHappen(v, e, w) && Happened(v, e, v', w, q, retries) && e.Calling? && !e.lost
    requires v'.state == IdleState && NoTaskOn(v.scheduler, w)
    requires w in v.scheduler.workers ==> v.scheduler.workers[w].queue == q
    ensures v'.phase == Answered(GoIdle) <==> e.shuttingDown || v.mayThinkExecuting
    ensures !e.shuttingDown && !v.mayThinkExecuting && !e.isDrained
            && !NothingQueued(v.scheduler.tasks, QueuedTasks(v.scheduler.tasks), q) ==>
              v'.phase.Answered? && v'.phase.r.Run? && IsQueuedTask(v.scheduler.tasks, v'.phase.r.task)
  {
    var s := v.scheduler.(workers := Entered(v.scheduler.workers, w, q));
    var prefer := PrefersIdle(v'.state, v.mayThinkExecuting, e.shuttingDown);
    var mid :| Processed(s, mid, v'.scheduler, w, e.report, e.isDrained, prefer, retries, e.largest, AnswerTo(v', w));
    assert Opened(OfReport);
  }

  // ---- Verification of public keys ----

  /** What a client knows before it is asked to verify its public keys: it reports to be executing, or is sure to be
      thought idle. */
  predicate MayRest(reported: ClientState, mayThinkExecuting: bool) {
    reported.ExecutingState? || !mayThinkExecuting
  }

  /** The task that a run hands to a client so that it gets into a state. */
  function TaskFor(state: ClientState): nat {
    if state.IdleState? then 0 else state.task
  }

  /** A client calls and waits, and is handed a task through a request. */
  function Handing(q: nat, task: nat): seq<SessionEvent> {
    [Calling(None, Idling, false, false, false, 0, q), Meanwhile(ExecuteCall([], 0, Some(q), task, 0))]
  }

  /** How the client gets from there into a state: the waiting call is cancelled, the task does not start, it starts,
      or it ends and the report gets lost. */
  function Reaching(q: nat, state: ClientState): seq<SessionEvent> {
    match state
    case IdleState => [Unblocking(Cancelled, false, 0), Receiving(false, false)]
    case RejectedState(_) => [Unblocking(Woken, false, 0), Receiving(false, true)]
    case ExecutingState(_) => [Unblocking(Woken, false, 0), Receiving(false, false)]
    case CompletedState(task, succeeded) =>
      [Unblocking(Woken, false, 0), Receiving(false, false),
       Calling(Some(if succeeded then Succeeds else Fails), FinalReport(task, succeeded), false, true, false, 0, q)]
  }

  function FinalReport(task: nat, succeeded: bool): Report {
    Finishing(task, if succeeded then Success(None) else Failure(None))
  }

  /** A client calls for the first time, and waits. */
  method WaitingClient(w: nat, q: nat) returns (s: Session)
    ensures fresh(s) && fresh(s.bq) && s.Valid() && s.w == w && s.q == q && s.state == IdleState && s.phase.Blocked?
    ensures s.bq.tasks == map[] && s.bq.workers.Keys == {w} && s.bq.workers[w].waiting && s.bq.workers[w].queue == q
    ensures s.bq.inFlight == map[] && s.bq.verdicts == map[]
    ensures s.past == [Calling(None, Idling, false, false, false, 0, q)]
  {
    var bq := new BuildQueue();
    s := new Session(bq, w, q);
    s.Call(None, Idling, false, false, false, 0, 0, q);
    assert Opened(OfReport);
    assert AnswerTo(s.Seen(), w) == Waiting;
  }

  /** A client waits, and the scheduler hands it a task. */
  method HandedTask(w: nat, q: nat, task: nat) returns (s: Session)
    ensures fresh(s) && fresh(s.bq) && s.Valid() && s.w == w && s.q == q && s.state == IdleState && s.phase.Blocked?
    ensures w in s.bq.workers && !s.bq.workers[w].waiting && s.bq.workers[w].currentTask == Some(task)
    ensures s.past == Handing(q, task)
  {
    s := WaitingClient(w, q);
    s.Other(ExecuteCall([], 0, Some(q), task, 0), 0);
  }

  /** The scheduler wakes the client up with its task, and the client starts it or fails to. */
  method StartedTask(w: nat, q: nat, task: nat, startFails: bool) returns (s: Session)
    ensures fresh(s) && fresh(s.bq) && s.Valid() && s.w == w && s.q == q
    ensures s.state == (if startFails then RejectedState(task) else ExecutingState(task)) && s.phase.Resting?
            && s.mayThinkExecuting && !s.NoTask()
    ensures s.past == Handing(q, task) + [Unblocking(Woken, false, 0), Receiving(false, startFails)]
  {
    s := HandedTask(w, q, task);
    s.Unblock(Woken, false, 0);
    s.Receive(false, startFails);
  }

  /** A client in any state can be thought to be executing, and have a task. */
  method ReachedState(w: nat, q: nat, state: ClientState) returns (s: Session)
    ensures fresh(s) && fresh(s.bq) && s.Valid() && s.w == w && s.q == q
    ensures s.state == state && s.phase.Resting? && s.mayThinkExecuting && !s.NoTask()
    ensures s.past == Handing(q, TaskFor(state)) + Reaching(q, state)
  {
    match state {
      case IdleState =>
        s := HandedTask(w, q, 0);
        s.Unblock(Cancelled, false, 0);
        s.Receive(false, false);
      case RejectedState(task) =>
        s := StartedTask(w, q, task, true);
      case ExecutingState(task) =>
        s := StartedTask(w, q, task, false);
      case CompletedState(task, succeeded) =>
        s := StartedTask(w, q, task, false);
        s.Call(Some(if succeeded then Succeeds else Fails), FinalReport(task, succeeded), false, true, false, 0, 0, q);
    }
  }

  /** Whenever a client does not report to be executing and may be thought to be, its rest after the verification can be
      wrong: for every such state and ending there is a run that leads there. */
  method BrokenRest(w: nat, q: nat, state: ClientState, ending: Option<Ending>) returns (s: Session)
    requires !MayRest(Reported(state, ending), true)
    ensures fresh(s) && fresh(s.bq) && s.bq.Valid() && s.w == w && s.q == q
    ensures s.past == Handing(q, TaskFor(state)) + Reaching(q, state) + [Verifying(ending, false)]
    ensures s.state == Reported(state, ending) && s.Broken()
  {
    s := ReachedState(w, q, state);
    s.VerifyKeys(ending, false);
  }
}
