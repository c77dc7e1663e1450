# Verified models of Bonanza's hard parts

Bonanza is a build system. This project models the parts of it whose correctness rests on more than one
function, and proves what they promise for all inputs, all runs and all reachable states.

- **Scheduler** (`InvocationTree`, `InvocationMoves`, `SchedulerState`, `SchedulerSteps`, `SchedulerEvents`,
  `SchedulerEffects`, `Scheduler`, `SchedulerRuns`): the in-memory build queue as a class whose methods are the
  critical sections of `Execute`, `Synchronize`, the removal of operations and of stale workers. `SchedulerEffects` says
  what each of them does to tasks, workers and learners, and `SchedulerRuns` what holds after every run: counters,
  queues, deduplication, conservation of work and of learners.
- **Worker protocol** (`WorkerProtocol`): one client and the scheduler together, with requests and answers that
  get lost and anything else happening in between.
- **LZW** (`LzwFormat`, `LzwWords`, `LzwCompress`, `LzwDecompress`, `LzwRoundTrip`, `LzwAccepts`, `LzwCodec`) and the
  open-addressed table that it shares with the search automaton (`ProbeTable`).
- **Search and replace** (`SearchText`, `SearchTrie`, `SearchGoto`, `SearchFailure`, `SearchAutomaton`,
  `SearchReplace`): building an Aho-Corasick automaton and streaming through it, against naive replacement.
- **Lossy map** (`LossyMap`, `LossyMapLosses`, `LossyMapStale`): a hash map that displaces records by age.
- **Globs** (`GlobPattern`, `GlobStates`, `GlobCompile`, `GlobNfa`, `GlobMatcher`, `GlobMatching`, `GlobOrder`,
  `GlobSerial`, `GlobParse`, `GlobRoundTrip`, `GlobBytes`, `Utf8`): compiling patterns to an automaton, matching,
  giving up early, and the breadth-first byte form.
- **Small codecs and orders** (`Varint`, `Float16`, `ModuleVersion`, with `Arithmetic`).
- `Options` and `Folding` are shared by all of these.

`dafny verify dfyconfig.toml` checks everything.

## How the model reads

Code that updates things in place is a class or a method with loops; what it computes is tied to a function or
predicate, and the properties are lemmas about those. Machine words are natural numbers; wrap-around, masks and
shifts are written out where they matter. Large invariants are "kept folded": they sit behind a quantifier that only
fires after `assert Opened(...)`, so that a proof can carry them along without looking into them.

Where the code departs from what its documentation promises, the model follows the code, and the exact condition
under which the promise holds is proved:

- `SearchAndReplace` takes an empty table slot for an edge of the initial state on a zero byte. A zero byte that
  ends no start of a needle is lost, and with no needles at all it makes the code index an empty list.
  `SearchReplace.BuildAndReplace` states when the output is the naive replacement, and
  `SearchText.AlwaysLosslessIff` for which needles it is on every text.
- A lossy map with fewer put attempts than get attempts may return a value older than the one just put.
  `LossyMapStale.ReadsOwnPutsIff` states for which limits it never does.
- A client that is asked to verify its public keys rests although the scheduler may have a task on it. That is right in
  all sessions exactly for clients that report to be executing, or are sure to be thought idle:
  `WorkerProtocol.Session.VerifyKeys` and `WorkerProtocol.BrokenRest` are the two halves. A client whose execution
  ended before the request reports so, and is not among them.
- An automaton whose patterns hold U+FFFD is written, but refused when read back. `GlobBytes.RoundTrip` states that
  this is the only way for reading to fail within the size limit, and `GlobBytes.ErrorPatternIsRefused` that it happens.

The scheduler's clocks, random choices and floating point scores are left open: wherever they decide (which queued
operation goes first, which of the nearest idle workers is woken, when something is stale), every choice is allowed for. So are the
learners: what they answer arrives as a parameter. Iterating over a Go map while adding to it, as `WriteRune` does,
is modelled by the keys at the start; in automata of patterns an added wildcard state has no wildcard of its own, so
visiting it changes nothing.

## Model

| member | source | states |
|---|---|---|
| `SchedulerRuns.Run` | pkg/scheduler/in_memory_build_queue.go:286-320 | In every sequence of events from the empty scheduler, each with the limits of its own platform queue, every event has its effect on tasks, workers and learners, the invariant holds that the theorems below read off, and every learner that the scheduler ever got, also those that it abandoned at once, has got one verdict by now, or none while a task holds it |
| `SchedulerRuns.Step` | pkg/scheduler/in_memory_build_queue.go:1442-1453 | Every critical section has its effect and keeps the invariant, concerns no blocked worker but the one that calls, forgets no learner and takes no verdict back |
| `SchedulerRuns.TasksAndWorkers` | pkg/scheduler/in_memory_build_queue.go:2894-2913 | In every reachable state currentTask and currentWorker are mutual inverses, only unfinished tasks have a worker, and a worker has a last invocation exactly when it has no task |
| `SchedulerRuns.Counters` | pkg/scheduler/in_memory_build_queue.go:2021-2056 | executingWorkers[i][w] is the number of operations of w's task at or below i; idleWorkersCount[i] the number of workers whose last invocation is at or below i |
| `SchedulerRuns.Queues` | pkg/scheduler/in_memory_build_queue.go:2344-2370 | An operation is in its invocation's heap iff its task is queued; a child is in queuedChildren iff something is queued at or below it |
| `SchedulerRuns.WorkConserved` | pkg/scheduler/in_memory_build_queue.go:2514-2564 | When the lock is free no size class queue has both a queued operation and an idle synchronizing worker |
| `SchedulerRuns.InvocationsExist` | pkg/scheduler/in_memory_build_queue.go:1981-1993 | A nested invocation is in the tree exactly while an unfinished operation or the last invocation of an idle worker lies at or below it |
| `SchedulerRuns.InvocationsNest` | pkg/scheduler/in_memory_build_queue.go:1981-1993 | In every reachable state the parents of a nested invocation are in the tree |
| `SchedulerRuns.Deduplicated` | pkg/scheduler/in_memory_build_queue.go:417-445 | The in-flight map holds exactly the unfinished tasks with a key, so at most one exists per deduplication key |
| `SchedulerRuns.LearnersToldOnce` | pkg/scheduler/in_memory_build_queue.go:2637-2752 | Every learner the scheduler ever got, a set that only grows, has been told exactly one verdict once it is given up, and none before |
| `Scheduler.BuildQueue.Execute` | pkg/scheduler/in_memory_build_queue.go:417-497 | Joins the task in flight for the same key, in the invocation with the given keys, or creates and schedules one; fails exactly when there is neither such a task nor a queue |
| `Scheduler.BuildQueue.Join` | pkg/scheduler/in_memory_build_queue.go:417-445 | The task in flight gets one operation for the invocation, counted or queued like its others |
| `Scheduler.BuildQueue.GetOrCreateInvocation` | pkg/scheduler/in_memory_build_queue.go:1716-1739 | All invocations on the way to a path exist afterwards, none is lost |
| `Scheduler.BuildQueue.Schedule` | pkg/scheduler/in_memory_build_queue.go:2514-2564 | The task is handed to a waiting worker of its queue if there is any, one of those nearest to its operations; otherwise all its operations are queued |
| `Scheduler.BuildQueue.FindWaiting` | pkg/scheduler/in_memory_build_queue.go:2523-2563 | The breadth-first search upward finds an invocation with a waiting worker at or below it, none fewer steps up from any operation, and fails only when nobody waits on the queue |
| `Scheduler.BuildQueue.PickWaiting` | pkg/scheduler/in_memory_build_queue.go:2537-2544 | The descent ends at a waiting worker at or below the invocation |
| `Scheduler.BuildQueue.Dequeue` | pkg/scheduler/in_memory_build_queue.go:2863-2875 | The worker is taken out of the lists of idle workers all the way up |
| `Scheduler.BuildQueue.AssignUnqueuedTask` | pkg/scheduler/in_memory_build_queue.go:2894-2913 | Worker and task point at each other and all counters follow, with emptied invocations removed |
| `Scheduler.BuildQueue.AssignQueuedTask` | pkg/scheduler/in_memory_build_queue.go:2917-2924 | The same for a queued task, whose operations leave their heaps |
| `Scheduler.BuildQueue.AssignNextQueuedTask` | pkg/scheduler/in_memory_build_queue.go:2928-2993 | Starts a queued task of the worker's queue, and fails only when nothing is queued there |
| `Scheduler.BuildQueue.FindQueued` | pkg/scheduler/in_memory_build_queue.go:2929-2992 | The descent along the sticky or a preferred child ends at a queued operation; the sticky child is never missing |
| `Scheduler.BuildQueue.LeaveWorker` | pkg/scheduler/in_memory_build_queue.go:2584-2634 | The worker becomes idle at the lowest common ancestor of the operations if it completed them, and at the root otherwise |
| `Scheduler.BuildQueue.LeaveQueues` | pkg/scheduler/in_memory_build_queue.go:2621-2633 | A queued task leaves through a temporary worker, which leaves no trace |
| `Scheduler.BuildQueue.MarkCompleted` | pkg/scheduler/in_memory_build_queue.go:2637-2652 | The task is completed and its key is free again |
| `Scheduler.BuildQueue.Fail` | pkg/scheduler/in_memory_build_queue.go:2742-2752 | An unfinished task is completed and its learner abandoned; a finished one is left alone |
| `Scheduler.BuildQueue.Complete` | pkg/scheduler/in_memory_build_queue.go:2656-2740 | The learner is told once. A failed task with a new learner moves to the largest size class and is scheduled there. Otherwise the task is completed and its key free; a background task is scheduled unless it is one too many, and then its learner is abandoned |
| `Scheduler.BuildQueue.Retry` | pkg/scheduler/in_memory_build_queue.go:2717-2735 | All operations move to the largest size class, one for one, and the task is scheduled there |
| `Scheduler.BuildQueue.StartBackground` | pkg/scheduler/in_memory_build_queue.go:2682-2714 | A background task without a key is scheduled, or its learner is abandoned: exactly when none are allowed or the invocation has the maximum of queued tasks |
| `Scheduler.BuildQueue.RemoveOperation` | pkg/scheduler/in_memory_build_queue.go:2372-2400 | The operation is gone; the task fails, its learner abandoned, exactly when it was the last one |
| `Scheduler.BuildQueue.Synchronize` | pkg/scheduler/in_memory_build_queue.go:816-895 | A second call for the same worker is refused without effect; otherwise the scheduler first acts on the report and then answers, both as `SchedulerEffects.Processed` says for new and known workers |
| `Scheduler.BuildQueue.Process` | pkg/scheduler/in_memory_build_queue.go:849-894 | For every report, what becomes of the worker's task, its learner and key, and what the answer is after that |
| `SchedulerEffects.CompletionCounts` | pkg/scheduler/in_memory_build_queue.go:849-894 | A report that the worker's task finished adds Succeeded or Failed to its learner's verdicts; without a retry the task is over and its key free, with one it has the new learner and its operations are on the largest queue; the answer is that for the tasks as they are then |
| `SchedulerEffects.BackgroundCounts` | pkg/scheduler/in_memory_build_queue.go:2674-2714 | The background task that a learner asks for is unfinished on its queue, without a key; or, exactly when there are too many, it does not exist and its learner was told Abandoned and nothing else |
| `SchedulerEffects.RejectionCounts` | pkg/scheduler/in_memory_build_queue.go:855-863 | A rejected task is over, its key free and its learner abandoned |
| `Scheduler.BuildQueue.GetNextTask` | pkg/scheduler/in_memory_build_queue.go:3058-3158 | A task is started whenever one is queued and the worker may take it; the worker waits only where nothing is queued; nothing else changes |
| `Scheduler.BuildQueue.GetCurrentOrNextTask` | pkg/scheduler/in_memory_build_queue.go:3164-3190 | The current task is handed out again and counted while the count is below the limit, and then abandoned |
| `SchedulerEffects.RetriesRunOut` | pkg/scheduler/in_memory_build_queue.go:3164-3190 | A worker that keeps saying nothing of its new task is told to run it exactly as often as the limit says, and at the next call the task is abandoned |
| `Scheduler.BuildQueue.Resume` | pkg/scheduler/in_memory_build_queue.go:3083-3157 | A task assigned while the call was blocked is delivered; a cancelled call is refused; a worker that was woken up without a task gets its next answer |
| `Scheduler.BuildQueue.RemoveStaleWorker` | pkg/scheduler/in_memory_build_queue.go:1682-1707 | The worker is gone, its task fails and its invocations are cleaned up |
| `InvocationTree.DecrementExecuting` | pkg/scheduler/in_memory_build_queue.go:2021-2040 | One operation less is counted at every invocation on the way up; invocations that became empty are removed, none of them twice or with children, and the tree stays closed |
| `InvocationTree.RemoveIfEmpty` | pkg/scheduler/in_memory_build_queue.go:1981-1993 | May only be asked to remove an invocation that is in the tree and has no children there; removes it exactly when it is empty and not a root |
| `SchedulerEvents.UnlinkUp` | pkg/scheduler/in_memory_build_queue.go:2393-2397 | After a queued operation was removed, empty invocations are removed upward until one is not empty, none of them with children |
| `InvocationTree.IncrementExecuting` | pkg/scheduler/in_memory_build_queue.go:2044-2056 | One operation more is counted at exactly the invocations on the way up |
| `InvocationTree.PushUp` | pkg/scheduler/in_memory_build_queue.go:2360-2370 | Every invocation on the way up lists the child that leads to the operation, and nothing else changes |
| `InvocationTree.RemoveUp` | pkg/scheduler/in_memory_build_queue.go:2344-2354 | Afterwards a child is listed exactly when something is queued at or below it, and lists off the path are unchanged |
| `InvocationTree.LowerUp` | pkg/scheduler/in_memory_build_queue.go:2998-3012 | One idle worker less is counted on the way up, with emptied invocations removed, none of them twice or with children |
| `SchedulerSteps.LowestCommonAncestor` | pkg/scheduler/in_memory_build_queue.go:2592-2611 | The longest path at or above all operations of the task |
| `WorkerProtocol.RunSession` | pkg/remoteworker/client.go:310-510 | In every run of client and scheduler, with lost requests and answers, requests to verify keys that meet the condition of `VerifyKeys`, and anything else in between, every step has its effect, and at no point does Run end with schedulerMayThinkExecutingUntil nil while the scheduler has a task on the worker |
| `WorkerProtocol.Session.Call` | pkg/remoteworker/client.go:326-428 | The first half of Run keeps the invariant of client and scheduler. A request that is not lost takes the report to the scheduler, preferring idleness iff the client shuts down, is idle and may be thought to be executing, or completed without success |
| `WorkerProtocol.Session.Unblock` | pkg/scheduler/in_memory_build_queue.go:3083-3157 | A call blocked in the scheduler goes on as `SchedulerEffects.Resumed` says and keeps the invariant |
| `WorkerProtocol.Session.Receive` | pkg/remoteworker/client.go:425-509 | The second half of Run keeps the invariant, also when the answer is lost; the client rests without a deadline only when the scheduler said so, and its new state follows the answer |
| `WorkerProtocol.Session.Other` | pkg/scheduler/in_memory_build_queue.go:1442-1453 | No event of other clients and workers breaks the invariant |
| `WorkerProtocol.EndingIsHeard` | pkg/remoteworker/client.go:338-374 | When the execution of the scheduler's task has ended and the request is not lost, the task's learner hears how it ended |
| `WorkerProtocol.TaskGoesOn` | pkg/scheduler/in_memory_build_queue.go:849-894 | A client that reports to be executing the scheduler's task is told to go on; one that reports to be idle is given the task again, or after too many attempts the task is completed |
| `WorkerProtocol.IdlenessIsGranted` | pkg/remoteworker/client.go:385-420 | A client that completed the scheduler's task is told to go idle iff its execution did not succeed or it shuts down |
| `WorkerProtocol.WorkIsGranted` | pkg/remoteworker/client.go:385-420 | An idle client without a task is told to go idle iff it may be thought to be executing or shuts down; otherwise it is given work whenever something is queued for it |
| `WorkerProtocol.Session.VerifyKeys` | pkg/remoteworker/client.go:326-509 | A Run that is answered with a request to verify public keys, an execution that ended before it and failing verification included: the client then rests although the scheduler has a task on it iff there is one, verification succeeds, and the client neither reports to be executing nor was sure to be thought idle |
| `WorkerProtocol.ReachedState` | pkg/remoteworker/client.go:310-509 | For every client state there is a run from the start, given step by step, to a client in it that may be thought to be executing and has a task |
| `WorkerProtocol.BrokenRest` | pkg/remoteworker/client.go:326-509 | For every client state and ending of its execution that do not meet the condition there is a run from the start, given step by step, after which the client rests although the scheduler has a task on it |
| `LzwCodec.CompressThenDecompress` | pkg/compress/simplelzw/decompress.go:15-135 | Every text that Compress accepts comes back; Compress refuses exactly the texts that need too many codes |
| `LzwCodec.MaybeCompressThenDecompress` | pkg/compress/simplelzw/compress.go:140-149 | The same for MaybeCompress, whose result is the shorter of what Compress returns and the text with one byte in front |
| `LzwCompress.Compress` | pkg/compress/simplelzw/compress.go:27-134 | The loop with hash table and bit buffer writes the greedy codes, each as wide as the highest code so far |
| `LzwCompress.MaybeCompress` | pkg/compress/simplelzw/compress.go:140-149 | Stores the text behind the size zero exactly when compression makes it longer |
| `LzwCompress.AddEntry` | pkg/compress/simplelzw/compress.go:85-122 | The table holds one entry more and at most half of it is used, also when it grew |
| `LzwDecompress.Decompress` | pkg/compress/simplelzw/decompress.go:15-135 | For every input: the text its codes spell, or the error that the header, the codes, the size or the trailing bits deserve; never more than the permitted maximum |
| `LzwAccepts.AcceptsExactly` | pkg/compress/simplelzw/decompress.go:15-135 | Decompress succeeds with a text iff the data stands for it (nothing, the text behind the size zero, or packed codes that spell it behind its size) and it is not too large; so data stands for at most one text |
| `LzwAccepts.TooLargeIsRefused` | pkg/compress/simplelzw/decompress.go:41-48 | What a text was compressed to is refused as too large with every limit below its length |
| `LzwDecompress.CountCodes` | pkg/compress/simplelzw/decompress.go:52-69 | The number of codes is the largest whose widths fit the bits |
| `LzwDecompress.ReadCode` | pkg/compress/simplelzw/decompress.go:83-98 | Codes are read from the stream in order, four bytes at a time and then the rest once |
| `LzwDecompress.AppendPiece` | pkg/compress/simplelzw/decompress.go:100-112 | A code appends a literal or an earlier piece and its next byte, which may be the one just written |
| `LzwAccepts.RoundTrip` | pkg/compress/simplelzw/decompress.go:15-135 | Whatever Decompress may return for the bytes of a text is that text |
| `LzwAccepts.MaybeRoundTrip` | pkg/compress/simplelzw/compress.go:140-149 | The same for MaybeCompress, with the exact size |
| `LzwWords.CodesSpell` | pkg/compress/simplelzw/compress.go:57-124 | The codes cut the text into pieces, each of them the longest word known when it is cut, a word being a byte or an earlier piece and the byte behind it |
| `LzwWords.CodesAreGreedy` | pkg/compress/simplelzw/compress.go:57-124 | Codes that spell the text with the longest word every time are those the compressor writes: there are no others |
| `LzwRoundTrip.PackedCount` | pkg/compress/simplelzw/decompress.go:52-69 | The number of codes can be recovered from the number of bytes |
| `LzwRoundTrip.StreamExpands` | pkg/compress/simplelzw/decompress.go:81-127 | Expanding the codes of a text gives the text, including codes that are defined by themselves |
| `ProbeTable.ProbingReaches` | pkg/compress/simplelzw/compress.go:62-74 | Triangular probing in a power-of-two table visits every slot |
| `ProbeTable.ProbingEnds` | pkg/compress/simplelzw/compress.go:62-74 | In a table that stores a map and is not full, probing for any key ends |
| `ProbeTable.Probe` | pkg/search/multi_search_and_replacer.go:86-99 | A lookup returns the entry of the key, or zero when the map has none |
| `ProbeTable.Place` | pkg/compress/simplelzw/compress.go:114-122 | Inserting a word adds its key and code to the map the table stores |
| `ProbeTable.Rehash` | pkg/search/multi_search_and_replacer.go:114-134 | A larger table stores the same map |
| `SearchReplace.BuildAndReplace` | pkg/search/multi_search_and_replacer.go:214-287 | For accepted needles the output is the naive leftmost replacement without the zero bytes that are lost, so the naive one iff none is, and the code crashes iff there are no needles and a zero byte |
| `SearchAutomaton.MultiSearchAndReplacer.SearchAndReplace` | pkg/search/multi_search_and_replacer.go:214-287 | For every input, exactly what is written: naive replacement without the zero bytes that are lost |
| `SearchAutomaton.MultiSearchAndReplacer.Process` | pkg/search/multi_search_and_replacer.go:236-285 | One byte: follow failure links, writing what can no longer match, until the byte is absorbed, completes a needle or is echoed |
| `SearchAutomaton.MultiSearchAndReplacer.EndOfFile` | pkg/search/multi_search_and_replacer.go:220-230 | A partial match at the end is written out |
| `SearchText.WrittenIsReplacedIff` | pkg/search/multi_search_and_replacer.go:211-214 | What is written is the naive replacement iff no gap has an exposed zero byte |
| `SearchText.LosslessWhen` | pkg/search/multi_search_and_replacer.go:211-214 | Nothing is lost when the text has no zero byte, or when a needle begins with one |
| `SearchText.ZeroByteIsLost` | pkg/search/multi_search_and_replacer.go:242-255 | With needles none of which begins with a zero byte, the text of one zero byte vanishes |
| `SearchText.AlwaysLosslessIff` | pkg/search/multi_search_and_replacer.go:211-255 | Nothing is lost on any text iff some needle begins with a zero byte |
| `SearchFailure.NewMultiSearchAndReplacer` | pkg/search/multi_search_and_replacer.go:52-209 | Fails exactly when a needle is empty or within another or there are too many states; the reported needles are right; on success the automaton is valid |
| `SearchGoto.BuildGoto` | pkg/search/multi_search_and_replacer.go:75-153 | The goto graph is the trie of the needles, and its errors are true |
| `SearchGoto.InsertNeedle` | pkg/search/multi_search_and_replacer.go:76-153 | One needle joins the trie, or is empty, or a prefix of another, or needs too many states |
| `SearchGoto.Grow` | pkg/search/multi_search_and_replacer.go:112-134 | The table grows to a power of two with room for all new edges and stores the same edges |
| `SearchFailure.BuildFailure` | pkg/search/multi_search_and_replacer.go:155-201 | Every failure link leads to the longest proper suffix that is a state, or a needle lies within another |
| `SearchFailure.FailureState` | pkg/search/multi_search_and_replacer.go:177-199 | Following links finds the longest suffix that absorbs the symbol |
| `SearchFailure.LinksMakeIndependent` | pkg/search/multi_search_and_replacer.go:185-189 | If no failure link leads to the end of another needle, no needle lies within another |
| `SearchTrie.StateCount` | pkg/search/multi_search_and_replacer.go:137-152 | The states are the different starts of the needles, counted once each |
| `LossyMap.RunOk` | pkg/ds/lossymap/hash_map.go:157-207 | After every run of puts, every slot on a record's probe path before its own holds a value at least as new |
| `LossyMap.PutKeeps` | pkg/ds/lossymap/hash_map.go:157-207 | Every displacement chain keeps that invariant, and slots only get newer |
| `LossyMap.GetIsNewestLive` | pkg/ds/lossymap/hash_map.go:131-155 | Stopping at an expired slot never hides a live record; Get returns the newest live stored value of the key |
| `LossyMap.GetAfterRun` | pkg/ds/lossymap/hash_map.go:131-155 | The same after every run, and the value was put for that key |
| `LossyMap.GetAfterPut` | pkg/ds/lossymap/hash_map.go:157-207 | With enough put attempts, Get right after Put finds nothing or a value not older |
| `LossyMapLosses.PutConserves` | pkg/ds/lossymap/hash_map.go:157-207 | A Put of a live value keeps all live records but at most one: one that a newer value of its key replaced, one whose places are all taken by newer values, or the one in hand when the iterations are used up |
| `LossyMapLosses.ExpiredPut` | pkg/ds/lossymap/lower_bound_comparing_record_array.go:33-38 | A Put of a value below the bound changes nothing |
| `LossyMapStale.ReadsOwnPutsIff` | pkg/ds/lossymap/hash_map.go:157-207 | All maps with the given limits read their own puts iff maximumPutAttempts is at least maximumGetAttempts or at most one |
| `LossyMapStale.StaleRead` | pkg/ds/lossymap/hash_map.go:162-205 | For all other limits, a run after which the value just put is missed for an older one |
| `LossyMap.HashMap.Get` | pkg/ds/lossymap/hash_map.go:131-155 | The loop over attempts computes the lookup that the lemmas are about |
| `LossyMap.HashMap.Put` | pkg/ds/lossymap/hash_map.go:157-207 | The loop over displaced records computes the table that the lemmas are about |
| `LossyMap.LowerBoundComparingRecordArray.Get` | pkg/ds/lossymap/lower_bound_comparing_record_array.go:22-31 | Records below the bound are reported as invalid |
| `LossyMap.LowerBoundComparingRecordArray.Put` | pkg/ds/lossymap/lower_bound_comparing_record_array.go:33-38 | Writes of records below the bound are suppressed |
| `LossyMap.SimpleRecordArray.Put` | pkg/ds/lossymap/simple_record_array.go:19-22 | One record is overwritten, no other |
| `GlobMatching.Match` | pkg/glob/matcher.go:105-161 | Compiling succeeds iff all patterns are well formed and need no more states than can be numbered; then every path matches iff some include denotes it and no exclude does |
| `GlobMatching.Feed` | pkg/glob/matcher.go:105-150 | When WriteRune returns false, no path that starts with what was read is selected |
| `GlobMatching.Decides` | pkg/glob/nfa.go:366-381 | The ends of the active states decide exactly what the patterns mean |
| `GlobMatcher.Matcher.WriteRune` | pkg/glob/matcher.go:105-150 | The three sets hold exactly the states whose paths denote the text read, end in a live "*", or lead to a live "**" |
| `GlobMatcher.Matcher.IsMatch` | pkg/glob/matcher.go:153-161 | True iff some active state is a positive end and none is a stronger one |
| `GlobMatcher.Matcher.constructor` | pkg/glob/matcher.go:53-59 | The initial sets are those of the empty text |
| `GlobMatcher.Expand3` | pkg/glob/matcher.go:76-98 | A state is added together with what its wildcards reach without reading anything |
| `GlobMatcher.TracksStep` | pkg/glob/matcher.go:105-150 | Following wildcards and regular characters tracks the denoted paths for one more rune |
| `GlobMatcher.Hopeless` | pkg/glob/matcher.go:146-149 | Without a mark on any active state, no longer text reaches a positive end |
| `GlobNfa.NewNFAFromPatterns` | pkg/glob/nfa.go:366-381 | Succeeds iff all patterns are well formed and the starts of their tokens are not more than can be numbered; the automaton then has exactly those starts as states, with the right ends and marks |
| `GlobNfa.CompiledFits` | pkg/glob/nfa.go:158-165 | The number of states is the number of different starts of the tokens |
| `GlobNfa.Propagate` | pkg/glob/nfa.go:100-117 | A state other than the first is marked iff a positive end lies at or below it |
| `GlobCompile.AddPattern` | pkg/glob/nfa.go:229-339 | The automaton gains exactly the ends of the pattern and the states on the way; it is invalid iff a component is empty, "**" is part of a longer component, or "**" is repeated; too many states are reported only if the starts of all patterns so far are too many |
| `GlobStates.GetOrAddRune` | pkg/glob/nfa.go:170-197 | Finds or inserts the child for a rune, keeping siblings sorted and the automaton a tree |
| `GlobStates.GetOrAddStar` | pkg/glob/nfa.go:202-212 | Finds or adds the child for "*", or there is no number left for a state |
| `GlobStates.GetOrAddStarStarSlash` | pkg/glob/nfa.go:217-227 | The same for "**" |
| `GlobSerial.Bytes` | pkg/glob/nfa.go:470-502 | Writes the paths and ends in breadth-first order; the bytes are a function of those alone |
| `GlobSerial.SerializedSize` | pkg/glob/nfa.go:417-419 | The bytes are at most fourteen times as many as the states, so smaller automata stay within the size limit |
| `GlobParse.Parse` | pkg/glob/nfa.go:421-462 | For every input: what the format says, with edges that stay within the states and no more states than bytes |
| `GlobParse.ParseRunes` | pkg/glob/nfa.go:444-461 | The runes that follow become a list of siblings |
| `GlobRoundTrip.NewNFAFromBytes` | pkg/glob/nfa.go:416-466 | The bytes of an automaton give an automaton with the same paths and ends, unless some path holds U+FFFD |
| `GlobRoundTrip.ReadsBack` | pkg/glob/nfa.go:416-502 | Reading undoes writing, round by round, or stops at U+FFFD |
| `GlobRoundTrip.RunesAreCanonical` | pkg/glob/nfa.go:444-461 | On every input, bytes that are accepted as runes are the one form of those runes |
| `GlobOrder.QueueEmpties` | pkg/glob/nfa.go:472-500 | The queue runs empty after all states have been written, and not before |
| `GlobOrder.OrderDistinct` | pkg/glob/nfa.go:472-500 | No state is queued twice |
| `GlobBytes.RoundTrip` | pkg/glob/nfa.go:413-502 | Within the size limit reading fails iff some pattern holds U+FFFD; otherwise it gives the automaton of the same patterns, with the same bytes |
| `GlobBytes.ErrorPatternIsRefused` | pkg/glob/nfa.go:447-450 | A pattern of one U+FFFD compiles and is written, and its bytes are refused |
| `GlobBytes.Reordered` | pkg/glob/nfa.go:468-502 | Lists with the same patterns in any order compile alike and have the same bytes |
| `GlobBytes.MatchStored` | pkg/glob/nfa.go:413-416 | Patterns survive being written and read back iff they compile, their bytes are within the limit and none holds U+FFFD; then they still select the same paths |
| `Utf8.DecodeEncode` | pkg/glob/nfa.go:447-448 | A rune is read back as written, whatever follows |
| `Utf8.DecodedIsEncoded` | pkg/glob/nfa.go:447-448 | What is read as a rune is the one form of that rune |
| `ModuleVersion.Compare` | pkg/label/module_version.go:85-121 | On the texts of versions, the sign of the order on release and prerelease identifiers |
| `ModuleVersion.CompareTexts` | pkg/label/module_version.go:87-120 | The loop over identifiers and separators, for any two strings |
| `ModuleVersion.CompareIsOrder` | pkg/label/module_version.go:84-121 | Numbers are compared as integers and come before words, a longer list comes after its beginnings, a prerelease before its release |
| `ModuleVersion.TotalPreorder` | pkg/label/module_version.go:84-121 | Compare is reflexive, total and transitive |
| `ModuleVersion.TiesDifferInBuild` | pkg/label/module_version.go:84-121 | Compare returns zero iff two versions differ in build metadata alone |
| `ModuleVersion.IdentifiersAgree` | pkg/label/module_version.go:91-109 | Comparing the lengths of numbers without leading zeros orders them by value |
| `ModuleVersion.LexicalPrecedes` | pkg/label/module_version.go:106-108 | One word comes before another iff it is a proper beginning of it, or smaller in the first byte in which they differ |
| `ModuleVersion.StripIdentifier` | pkg/label/module_version.go:47-55 | Splits a string in front of its first separator |
| `Varint.ForwardRoundTrip` | pkg/encoding/varint/forward.go:21-215 | Whatever follows, a value is read back with its size, in every integer type that holds it |
| `Varint.AppendsShortest` | pkg/encoding/varint/forward.go:21-133 | What is written is the shortest form of the value: n - 1 zero bits, a one, and the value in two's complement in 7n bits |
| `Varint.ConsumesExactly` | pkg/encoding/varint/forward.go:137-215 | On every input: a value and a length are read iff the first bytes are the form of the value of that length, short or not, and the type holds the value |
| `Varint.BackwardRoundTrip` | pkg/encoding/varint/backward.go:16-212 | Whatever comes before, the same for the backward form |
| `Varint.AppendBackwardIsReversed` | pkg/encoding/varint/backward.go:16-130 | The backward bytes are the forward bytes reversed |
| `Varint.ConsumeBackwardIsForwardReversed` | pkg/encoding/varint/backward.go:134-212 | On every input, well formed or not, the backward reader is the forward reader on the reversed input |
| `Varint.SizeBytesIsLeast` | pkg/encoding/varint/size_bytes.go:11-19 | The size is the least number of bytes whose range holds the value |
| `Varint.ConsumedWithin` | pkg/encoding/varint/forward.go:137-215 | What is read fits its type and lies within the input |
| `Float16.RoundsUp` | pkg/encoding/float16/float16.go:27-42 | The least representable value not below the input, and failure iff there is none |
| `Float16.RoundTrip` | pkg/encoding/float16/float16.go:27-57 | FromUint64RoundUp undoes ToUint64 on all 16-bit values |
| `Float16.Increasing` | pkg/encoding/float16/float16.go:47-57 | Larger encodings stand for larger values |

## Left out

- LzwDecompress.Decompress: states its result for inputs shorter than 2^32 bytes, because the source keeps offsets in 32 bits and larger inputs can overflow them.
- SearchAutomaton.MultiSearchAndReplacer.SearchAndReplace: does not model read and write errors of the streams, and requires a replacement for every needle as the source does.
- Scheduler.BuildQueue.AssignNextQueuedTask: does not say which queued task is preferred, because that rests on floating point scores and clocks.
- Heaps are sets: membership in queuedOperations, queuedChildren and idleSynchronizingWorkersChildren is modelled, their order and back indices are not.
- Operations are named by their task and invocation; priorities, timestamps, waiters and stage change notifications are not modelled.
- Public key verification in Synchronize, and the merging of public keys, beyond the client's reaction to a request for it.
- WaitExecution, the removal of size class queues and platform queues, drains as stored objects, failAllQueuedOperations, and all listing calls.
- Prometheus metrics, gRPC, protobuf and logging.
- Requests that reach the scheduler only after the client took them for lost, and several clients with one worker key, are outside the worker protocol.
- The worker client's deadline itself: schedulerMayThinkExecutingUntil is modelled as set or not set, so a client that stops after the deadline has passed is not covered. Execution events, readiness checks and stopExecution's completion fields are not modelled.
- The packed words of glob states are records, so the 21-bit fields are represented by the bound on the number of states.
- NewNFAFromSuffixes, Matcher.CopyFrom and the predeclared automata.
- The regular expression of module versions is represented by the texts of structured versions; matching it is not modelled.
- ReadForward of the variable-length integers, and the lossy map's freshness across later puts.
- Everything else in the repository: analysis, storage, encryption, the browser and the command line programs.
