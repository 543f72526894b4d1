# Verification of the pipeline, the render timeline and five smaller cores

This project models the parts of the repository whose correctness depends on several
functions working together, and proves what they promise.

**The step pipeline** (`Transition`, `Graph`, `GraphValidator`, `Protocol`,
`DependencySafety`, `Fence`, `NoDeadlock`, `Rollups`, `Jobs`, `Dispatch`, `Engine`).
`Protocol` holds the tables (steps, dependency edges, runs) and one function per
statement or transaction of `api/internal/pipeline`; `Apply` is one action, `Run` any
sequence of actions from empty tables. Nothing says who acts: a worker whose step was
reclaimed is one that still sends writes for an old attempt, so every theorem about all
sequences covers any number of such workers, crashes, stale resets, retries and
cancellations. `Engine` is a class with the tables as fields and the operations as methods
with the source's loops; each method is proved to make the state the action makes, so what
is proved of `Run` holds of it. Main results: released steps have all dependencies done
and counters are exact (`DependencySafety`), each attempt ends at most once and by its own
worker (`Fence`), no run gets stuck and every run can finish (`NoDeadlock`), nor is one
forgotten when a rollup runs as three statements of its own (`Rollups`), a job's nil return
means its claims are finished (`Dispatch`), every queued step is in exactly one job
(`Jobs`).

**The render timeline and its freeze** (`Timeline`, `Clock`, `Manifests`, `Freeze`).
Segments tile the timeline exactly, an edit of one scene touches five segments, rounding
never adds up, and a frozen render is a valid graph whose compose step waits for every
pinned hash. `Freeze.EditRendersAtMostSeven` joins them: when the entries of the old
episode that the new plan still asks for are stored, a re-render after an edit to one scene
enqueues at most seven cacheable steps, whatever the episode's length.

**Smaller cores**: the token bucket and its eviction (`RateLimit`), resumable verified
downloads and files shared between models, over any sequence of pulls and removals
(`Models`, `ModelRuns`), the chapter splitter over Go's UTF-8
decoding (`Utf8`, `Chapters`), and the WAV reader and writer (`Wav`).

Each SQL statement has the effect its text in `db/queries/pipeline.sql` states. `dafny
verify dfyconfig.toml` checks the whole project.

Where the code and its comments or an expected property disagree, the model follows the
code:

- A single canceled step neither cascades nor rolls up. `NoDeadlock.CancelStepHealthyIff`
  says exactly when that is harmless, `NoDeadlock.StrandedUntilRetried` what it costs.
- The comment on the rollup takes the guard of its last statement for the fence. It does
  not keep out a retry between the count of open steps and the mark:
  `Rollups.DoneUnderRetry` closes a run as done with its only step back in the queue.
  `Rollups.RetryRisksIff` says exactly when a retry risks that, and `Rollups.ClosedIsRight`
  that nothing else does.
- A run enqueued without steps is active until a user cancels or supersedes it
  (`NoDeadlock.EnqueueHealthyIffNonEmpty`, `NoDeadlock.EmptyRunEndsIff`,
  `NoDeadlock.EmptyRunStaysActive`).
- On the GPU queue the last attempt of a job can leave steps queued, by requeueing a step
  and by stopping before the next one (`Dispatch.SecondOomStrandsTheNext`). It leaves none
  exactly when no queued step of the job runs out of memory, or only the last queued one
  does, and not for the first time (`Dispatch.LastGpuAttempt`).
- The comment on the limiter's clean-up says a dropped bucket is full again; the code looks
  at idle time only. `RateLimit.InvisibleIff` says exactly for which limits no run can tell.
- The layout's comment says an edit touches its own body and two transitions and nothing
  else. When a short neighbour caps a crossfade it also touches a neighbouring body:
  `Timeline.EditCanTouchNeighbour` shows it, `Timeline.BodyBeforeKeepsIff` and
  `Timeline.BodyAfterKeepsIff` say exactly when it does not.
- `FrameMs` and `FramesForMs` are inverse up to 1000 frames a second and not above
  (`Clock.RoundTripIff`); the starts of concatenated clips are exact up to the first clip
  that ends within a sample (`Wav.StartsExactIff`); chapter texts are the manuscript's bytes only for valid UTF-8
  (`Chapters.ChaptersAreTheText`).
- A removal of a model that stops part way leaves the model recorded as installed
  (`Models.HalfRemovedIsInstalled`); if it loaded before, it still does exactly when nothing
  was deleted (`Models.Volume.Remove`).
- A pull of a model that is not in the manifest leaves its row as it was, downloading
  included, on the last attempt too (`Models.Volume.Pull`).

## Model

| member | source | states |
|---|---|---|
| Graph.TopologicalIsAcyclic | api/internal/pipeline/graph.go:22-25 | a graph whose steps can be listed each after all it depends on has no cycle |
| Graph.AcyclicHasMinimal | api/internal/pipeline/graph.go:22-25 | in an acyclic graph every non-empty set of steps has one that depends on no other of the set: dependencies cannot be followed for ever |
| GraphValidator.ValidateGraph | api/internal/pipeline/graph.go:26-74 | nil exactly when ids are distinct, every dependency is in the request and the graph has no cycle; the finishing order of an accepted request is topological; each error names a step that really has the fault, a cycle error one that lies on a cycle |
| GraphValidator.Search.Visit | api/internal/pipeline/graph.go:50-67 | the recursive visit ends because fewer steps are unvisited each time; finished steps always form a topological order, and meeting a step under visit closes a real cycle through it |
| GraphValidator.Search.VisitAll | api/internal/pipeline/graph.go:68-73 | visiting from every requested step finishes them all in topological order or finds a cycle |
| GraphValidator.IndexById | api/internal/pipeline/graph.go:27-33 | indexes the request by id, or names an id two steps share |
| GraphValidator.CheckDependencies | api/internal/pipeline/graph.go:34-43 | accepts exactly when no step depends on itself or outside the request, and names the offending step and dependency |
| GraphValidator.StackCycle | api/internal/pipeline/graph.go:53-58 | a dependency on a step of the visiting stack lies on a cycle |
| GraphValidator.DepsOfClosed | api/internal/pipeline/graph.go:34-43 | a request has no dangling edge exactly when every dependency is in it |
| DependencySafety.ApplyKeepsSafe | api/internal/pipeline/fanin.go:14-64 | every action keeps: the graph acyclic and closed, each `remaining_deps` equal to the number of dependencies not done, and every queued, running or done step with none left |
| DependencySafety.RunIsSafe | api/internal/pipeline/enqueue.go:139-163 | those facts hold in every state reachable by any sequence of enqueues, claims, commits, requeues, resets, sweeps, retries and cancellations |
| DependencySafety.FinishedKeepsSafe | api/internal/pipeline/fanin.go:20-64 | finishing a step lowers the counter of each dependent by exactly one and queues exactly those left with none |
| DependencySafety.EnqueueKeepsSafe | api/internal/pipeline/enqueue.go:139-163 | a new run starts with exact counters: `len(DependsOn)` is the number of unfinished dependencies |
| DependencySafety.NoRepeatsCount | api/internal/pipeline/enqueue.go:159-159 | counting a dependency list counts its distinct dependencies when the table refuses a repeated edge |
| DependencySafety.JoinKeepsAcyclic | api/internal/pipeline/enqueue.go:139-163 | adding a request's closed graph to the tables' keeps the whole graph acyclic |
| DependencySafety.ReleasedOnlyAfterDependencies | api/internal/pipeline/fanin.go:14-64 | in every reachable state a queued, running or done step has every dependency done |
| DependencySafety.ReadySweepFindsNothing | api/internal/pipeline/reconciler.go:101-136 | the reconciler's ready sweep never finds a step: fan-in queues a dependent in the transaction that finishes its last dependency |
| DependencySafety.BecomesDone | api/internal/pipeline/commit.go:72-81 | only an accepted done commit of that very step finishes it |
| DependencySafety.DoneStaysDone | api/internal/pipeline/transition.go:7-42 | no action ever reopens a finished step |
| DependencySafety.DoneInTopologicalOrder | api/internal/pipeline/graph.go:22-25 | when a step becomes done everything it depends on was done before |
| Fence.EveryChangeIsLegal | api/internal/pipeline/transition.go:7-42 | every action changes every row only along the transition table; an attempt number grows exactly by being handed out; a running step stops only by its own worker's write, a reset or a cancellation; a terminal step moves only by a retry, a done one never |
| Fence.AtMostOneAcceptedWrite | api/internal/pipeline/commit.go:72-93 | over every sequence of actions each attempt of a step has at most one accepted done, failed or requeue write |
| Fence.OneClaimPerAttempt | api/internal/pipeline/claim.go:13-29 | two claims never hand out the same attempt of a step |
| Fence.OwnedSinceItsClaim | api/internal/pipeline/claim.go:13-29 | whoever passes the fence was handed the attempt by a claim and has held it without a break since |
| Fence.WriteComesFromItsClaim | api/internal/pipeline/commit.go:72-93 | an accepted write comes from the worker that attempt's only claim produced |
| Fence.ZombieWriteIsInert | api/internal/pipeline/commit.go:135-147 | a write of a worker that lost its step changes nothing: no row, no dependent's counter, no run |
| Fence.SpentStaysSpent | api/internal/pipeline/claim.go:13-29 | an attempt that ended is never running again |
| NoDeadlock.NeverStuck | api/internal/pipeline/rollup.go:22-89 | after every sequence of actions without user cancellations: a run is active exactly when it has an open step, an active run has a queued or running one, a closed run is failed exactly when a step failed |
| NoDeadlock.RunCanFinish | api/internal/pipeline/rollup.go:59-89 | from every such state claims and done commits alone close any run |
| NoDeadlock.RunIsHealthy | api/internal/pipeline/rollup.go:22-89 | the invariant behind it: no pending step waits for a failed or canceled one and every run's status agrees with its steps |
| NoDeadlock.ActiveHasLiveStep | api/internal/pipeline/graph.go:22-25 | an active run of a healthy state has a queued or running step, because pending steps cannot wait for each other in a circle |
| NoDeadlock.CascadeUnblocks | api/internal/pipeline/rollup.go:22-57 | after a failure and its cascade no pending step waits for a failed or canceled one |
| NoDeadlock.CascadeReachesEveryPendingDescendant | api/internal/pipeline/commit.go:103-133 | a failed commit cancels every pending step that depends on the failed one through any path, not only through pending steps |
| NoDeadlock.CommitAgrees | api/internal/pipeline/rollup.go:59-89 | the rollup after a commit leaves every run's status in agreement with its steps |
| NoDeadlock.EnqueueHealthyIffNonEmpty | api/internal/pipeline/enqueue.go:52-105 | an accepted request keeps the invariant exactly when it has a step |
| NoDeadlock.EmptyRequestStartsEmptyRun | api/internal/pipeline/enqueue.go:52-105 | an accepted request without steps leaves an active run that no step belongs to |
| NoDeadlock.EmptyRunEndsIff | api/internal/pipeline/rollup.go:59-89 | one action takes such a run out of the active state exactly when it is a user canceling or superseding that run |
| NoDeadlock.EmptyRunStaysActive | api/internal/pipeline/rollup.go:59-89 | through every sequence without user cancellations it stays active |
| NoDeadlock.CancelStepHealthyIff | api/internal/pipeline/cancel.go:83-97 | canceling one open step keeps the invariant exactly when nothing pending waits for it and it is not its run's only open step |
| Rollups.RollupAtOnce | api/internal/pipeline/rollup.go:59-89 | with nothing in between, the commit and the three statements of its rollup are the one commit action of the other theorems |
| Rollups.NeverForgotten | api/internal/pipeline/rollup.go:59-89 | whatever happens between a commit and its rollup and between the rollup's statements, an active run has a queued or running step or a rollup to come, unless one of its rollups was lost or a user canceled |
| Rollups.RollupCloses | api/internal/pipeline/rollup.go:66-89 | a rollup that has still to count closes a run without open steps; one past its count closes its run whatever has happened since |
| Rollups.ClosedIsRight | api/internal/pipeline/rollup.go:59-89 | over every such sequence in which no retry comes between the count and the mark of a rollup of its run, a closed run has no open step and is failed exactly when a step failed |
| Rollups.RetryRisksIff | api/internal/pipeline/cancel.go:34-48 | after a retry the rollups under way can close the run with the step in the queue exactly when one of them had counted before |
| Rollups.DoneUnderRetry | api/internal/pipeline/rollup.go:66-89 | a sequence of seven events that ends with the run marked done and its only step queued |
| NoDeadlock.StrandedUntilRetried | api/internal/pipeline/cancel.go:83-97 | until a canceled step is retried, no step that depends on it is ever released, whatever else happens |
| Jobs.ChunkSize | api/internal/pipeline/chunk.go:24-35 | the most steps that fit in the target, or one if none fits; one more would not fit |
| Jobs.ChunkIds | api/internal/pipeline/chunk.go:37-55 | the chunks concatenate to the input, none is empty or too big, all but the last are full |
| Jobs.MinPriority | api/internal/pipeline/enqueue_jobs.go:91-106 | the least priority of the group's steps in the chunk, at most 4 |
| Jobs.GroupSteps | api/internal/pipeline/enqueue_jobs.go:36-44 | one group per (queue, kind, provider) of the queued steps, holding exactly those, in input order |
| Jobs.SortKeys | api/internal/pipeline/enqueue_jobs.go:46-59 | the group keys, each once, in order |
| Jobs.EnqueueReadySteps | api/internal/pipeline/enqueue_jobs.go:35-81 | every queued input step is in exactly one job and no other step in any; each job holds one group's steps, at most a chunk, and is as urgent as its own most urgent step |
| Dispatch.NoErrorFinishesClaims | api/internal/pipeline/dispatcher.go:63-97 | undisturbed, when a job returns nil every step it claimed is done or failed |
| Dispatch.NoErrorLeavesNoneQueued | api/internal/pipeline/dispatcher.go:63-97 | ... and no step it was given is left queued |
| Dispatch.LastAttemptReturnsNoError | api/internal/pipeline/dispatcher.go:99-154 | off the GPU queue, with a handler for every kind, the last attempt always returns nil |
| Dispatch.LastAttemptStrandsNothing | api/internal/pipeline/dispatcher.go:99-154 | so no queued step of such a job is left behind |
| Dispatch.FirstOomRequeues | api/internal/pipeline/commit.go:149-185 | on the GPU queue an out-of-memory stops the chunk, and the step is queued again when it is its first and failed otherwise, whatever attempt the job is on |
| Dispatch.LastGpuAttempt | api/internal/pipeline/dispatcher.go:63-97 | the last attempt of a GPU job, whatever became of its steps before, returns nil exactly when none of its queued steps runs out of memory, and leaves none queued exactly when each that does had done so before and no queued step comes after it |
| Dispatch.SecondOomStrandsTheNext | api/internal/pipeline/dispatcher.go:63-97 | a reachable state and a last attempt that fails its first step on a second out-of-memory and leaves the other in the queue |
| Dispatch.OutsideStays | api/internal/pipeline/dispatcher.go:63-97 | working a job never changes the status of a step that had ended or that another worker runs |
| Engine.Engine.ClaimSteps | db/queries/pipeline.sql:105-118 | claims exactly the queued steps among the ids, raising their attempts, and returns exactly their rows |
| Engine.Engine.FanIn | api/internal/pipeline/fanin.go:20-64 | makes the state of the fan-in function; the new jobs hold exactly the steps that went from pending to queued, each once |
| Engine.Engine.CascadeCancelPendingDependents | api/internal/pipeline/rollup.go:30-57 | the breadth-first loop ends and cancels exactly the pending steps reachable from the failed one through pending steps |
| Engine.ClosedIsDownstream | api/internal/pipeline/rollup.go:30-57 | a set of downstream steps that holds every pending dependent of its members is all of the downstream |
| Engine.Engine.RollupRun | api/internal/pipeline/rollup.go:66-89 | closes the run exactly when none of its steps is open, failed exactly when one failed |
| Engine.Engine.CommitFailed | api/internal/pipeline/commit.go:103-133 | is the failed commit action: fenced write, cascade, rollup |
| Engine.Engine.CommitDone | api/internal/pipeline/commit.go:53-101 | is the done commit action, or the failed one when the output cannot be encoded; its jobs hold exactly the newly queued steps |
| Engine.Engine.RequeueForRetry | api/internal/pipeline/commit.go:135-147 | is the requeue action: fenced, the attempt kept |
| Engine.Engine.HandleGpuOom | api/internal/pipeline/commit.go:149-185 | makes the writes the out-of-memory policy prescribes: count and requeue once, then fail; off the GPU queue fail at once |
| Engine.Engine.RunOne | api/internal/pipeline/dispatcher.go:99-154 | makes the writes and returns the error the outcome prescribes; jobs are inserted for exactly the steps a success queued |
| Engine.Engine.DispatchJob | api/internal/pipeline/dispatcher.go:63-97 | ends in the state and with the error of the function the dispatch lemmas are about; the jobs inserted on the way hold exactly the steps that waited before and were put in the queue, each once, so none that was in the queue at the start |
| Engine.Engine.WorkStep | api/internal/pipeline/dispatcher.go:79-97 | one turn of the job loop: claims the step alone and makes the writes of its outcome, with jobs for exactly the steps that became queued |
| Engine.Engine.BuildRows | api/internal/pipeline/enqueue.go:107-205 | accepts exactly the requests whose every row the handlers and table constraints accept, and builds their rows and edges |
| Engine.Engine.Enqueue | api/internal/pipeline/enqueue.go:42-105 | is the enqueue action; refuses whole or inserts whole; the new jobs hold exactly the steps that wait for nothing |
| Engine.Engine.RetryStep | api/internal/pipeline/cancel.go:26-55 | is the retry action, allowed exactly for failed or canceled steps with no dependency left in an active run; the new jobs hold exactly that step, once |
| Engine.Engine.CancelStep | api/internal/pipeline/cancel.go:83-97 | is the cancel action; not found exactly when the step is missing or has ended |
| Engine.Engine.CancelRun | api/internal/pipeline/cancel.go:99-134 | is the cancel-run action; not found exactly when the run is not active |
| Engine.Engine.ResetBatch | api/internal/pipeline/reconciler.go:64-99 | resets at most a batch of the stale running steps, fewer only when that is all, each into exactly one job |
| Engine.Engine.ResetStaleHeartbeats | api/internal/pipeline/reconciler.go:64-99 | the batches together are the one reset action; the new jobs hold exactly the stale running steps, each once |
| Timeline.PlanTimeline | api/internal/render/plan.go:74-117 | returns the layout the lemmas below are about, or an error exactly for a bad frame rate, no scenes, or the first scene without frames |
| Timeline.LendFrames | api/internal/render/plan.go:89-102 | the crossfade loop gives every cut the frames its neighbours can lend, reading only lengths |
| Timeline.CutSegments | api/internal/render/plan.go:103-115 | the segment loop cuts a body per scene and a transition per lending cut |
| Timeline.LentFits | api/internal/render/plan.go:90-101 | a cut never lends more than each neighbour can give, one side lends exactly when the other does, and they differ by at most one, by one exactly for an uncapped odd crossfade |
| Timeline.BodyHasAFrame | api/internal/render/plan.go:119-119 | every body keeps at least one frame |
| Timeline.TimelineTiles | api/internal/render/plan.go:103-115 | the segments are contiguous, in order, never empty and cover exactly the timeline |
| Timeline.FrameShownOnce | api/internal/render/plan.go:103-115 | every frame is shown by exactly one segment |
| Timeline.ConcernsIffOverlaps | api/internal/render/plan.go:127-137 | the index test of the segment filter holds exactly when the segment shows a frame of the scene |
| Timeline.SegmentsOfScene | api/internal/render/plan.go:127-137 | returns, in order, exactly the segments that show a frame of the scene |
| Timeline.ClocksMeet | api/internal/render/plan.go:103-115 | the outgoing motion clock runs on through a crossfade; the incoming one ends 0 frames before its body picks up, or 1 exactly for an uncapped odd crossfade |
| Timeline.EditIsLocal | api/internal/render/plan.go:5-11 | changing one scene's length leaves every segment but the three bodies and two transitions at it as it was, up to one uniform shift of later starts |
| Timeline.NeighboursKeepLength | api/internal/render/plan.go:5-11 | the neighbours' bodies keep length and clock too when the cap binds in neither layout |
| Timeline.BodyBeforeKeepsIff | api/internal/render/plan.go:5-11 | the body before an edited scene is unchanged exactly when the cut between them still lends the same |
| Timeline.BodyAfterKeepsIff | api/internal/render/plan.go:5-11 | the body after it only shifts exactly when the cut between them still lends the same |
| Timeline.EditCanTouchNeighbour | api/internal/render/plan.go:9-11 | an input where the comment that an edit touches nothing but its own body and two transitions fails |
| Clock.FrameMsIsNearest | api/internal/render/plan.go:62-69 | a frame's millisecond time is within half a millisecond of exact |
| Clock.FrameRoundTrip | api/internal/render/plan.go:55-69 | frames to milliseconds and back is the identity up to 1000 frames a second |
| Clock.RoundTripIff | api/internal/render/plan.go:55-69 | every frame comes back exactly when the rate is at most 1000 |
| Clock.SceneStartsOnTime | api/internal/render/plan.go:121-125 | every scene start is within half a millisecond of exact however many scenes precede it |
| Clock.VoiceStartsWithScene | api/internal/render/loudness.go:55-78 | the sample lengths of the scenes before a scene add up to the sample of its first frame |
| Clock.SamplesExactIff | api/internal/render/loudness.go:13-24 | sample positions are exact for every frame exactly when the frame rate divides 48000 |
| Clock.VoiceLengths | api/internal/render/loudness.go:55-78 | the loop lays each voice on its own scene's samples, so each starts at its scene's first sample |
| Manifests.Layout | api/internal/render/manifest.go:95-102 | lays the manifest's scenes out, or fails exactly when the planner does |
| Manifests.EditKeepsKey | api/internal/render/manifest.go:141-159 | a segment away from an edited scene has the same cache key wherever it now starts |
| Manifests.EditReusesSegments | api/internal/render/manifest.go:141-159 | every segment of an edited episode but the five at the edit has the hash of a segment of the episode before |
| Freeze.PlanSteps | api/internal/render/freeze_scenes.go:89-105 | one step per segment in timeline order, then narration and subtitles, each with its hash |
| Freeze.PinnedHashes | api/internal/render/freeze_scenes.go:107-119 | the planned hashes, each once, in first-seen order |
| Freeze.NeededCovers | api/internal/render/freeze.go:209-247 | the steps built before compose cover exactly the planned hashes that are not cached, each once |
| Freeze.NeededIsPinnedMinusCached | api/internal/render/freeze.go:209-247 | their hashes are the pinned hashes without the cached ones, in the same order |
| Freeze.StepSpecs | api/internal/render/freeze.go:209-258 | builds those steps, compose depending on all of them and preview on compose, and counts the reused ones |
| Freeze.FrozenGraphIsValid | api/internal/render/freeze.go:230-246 | with fresh ids the graph check accepts every frozen run |
| Freeze.FrozenIsEnqueueable | api/internal/render/freeze.go:114-116 | a frozen run with new ids and known handlers is always inserted |
| Freeze.DepsAreForever | api/internal/pipeline/enqueue.go:164-205 | what a step depends on never changes after it was enqueued |
| Freeze.ComposeWaitsForEveryHash | api/internal/render/freeze.go:209-212 | in every run of the pipeline compose is released only when each pinned hash was cached at the freeze or its step is done |
| Freeze.EditRendersAtMostSeven | api/internal/render/plan.go:5-11 | when the hashes the old and the new plan share are cached, editing one scene re-renders at most its five segments and the two masters, whatever the episode's length |
| Freeze.ListCached | db/queries/renders.sql:79-83 | the lookup of a freeze: exactly the pinned hashes with a stored entry |
| Freeze.FreezeManifest | api/internal/render/freeze.go:167-176 | plans, pins the plan's own hashes, looks only those up, and builds a step for each of them not found; compose is keyed by the manifest's hash |
| Freeze.FreezeAfterEdit | api/internal/render/freeze.go:167-176 | so a freeze after an edit to one scene, its lookup over the new pins only, enqueues at most seven steps before compose while the old entries are still stored |
| RateLimit.Memory.Allow | api/internal/ratelimit/memory.go:40-72 | answers and changes the buckets as the limiter function does, eviction included |
| RateLimit.Memory.Sweep | api/internal/ratelimit/memory.go:62-69 | the clean-up loop drops exactly the idle buckets |
| RateLimit.EvictionIsInvisible | api/internal/ratelimit/memory.go:40-72 | on a clock that does not go back, and with limits whose bucket refills within the idle time, the limiter gives every call the answer of one that never forgets |
| RateLimit.DropIsInvisibleIff | api/internal/ratelimit/memory.go:59-61 | dropping a bucket leaves the next refill unchanged exactly when it had filled up |
| RateLimit.InvisibleIff | api/internal/ratelimit/memory.go:40-72 | over all runs on a clock that does not go back, forgetting changes no answer exactly when `rate * maxIdle >= capacity` or the capacity is below one token |
| RateLimit.VisibleRun | api/internal/ratelimit/memory.go:59-69 | otherwise there is a run, of one client that spends its tokens, ten thousand that crowd it out and its return, whose last call is allowed though it should be refused |
| RateLimit.IdleMeansFullIff | api/internal/ratelimit/memory.go:59-69 | every idle bucket has filled up exactly when `rate * maxIdle >= capacity` |
| RateLimit.RequestLimitersFill | api/cmd/api/main.go:425-437 | the API server's limiters meet that condition for every configured budget |
| RateLimit.AtMostCapacityPlusRefill | api/internal/ratelimit/memory.go:40-58 | in any interval of any run a client is allowed at most a full bucket plus the interval's refill |
| RateLimit.ClientsAreIsolated | api/internal/ratelimit/memory.go:40-72 | the answer to a client depends on its own calls only |
| Models.Lint | api/internal/models/lint.go:59-100 | of names and paths it reports exactly the entries whose name was taken and the files pinned to another digest than the file before them at the path; nothing exactly when names are distinct and every path has one digest |
| Models.LintFiles | api/internal/models/lint.go:94-100 | one entry adds exactly its clashing files, none exactly when every path still has one digest |
| Models.FaultlessIff | api/internal/models/lint.go:59-100 | no entry or file is at fault by comparison with the ones before it exactly when names are distinct and every path has one digest in all entries |
| Models.Volume.Check | api/internal/models/store.go:123-151 | passes exactly when the entry exists, its licences pass and every file is recorded with its pin and on disk with its size |
| Models.Volume.ReadBody | api/internal/models/download.go:350-378 | after a read loop that succeeds the hasher has consumed exactly the file's bytes, at most one past the pinned size |
| Models.Volume.Fetch | api/internal/models/download.go:319-378 | a resumed body extends the old bytes, an ignored range replaces them; any other status, a 206 that was not asked for or a connection that breaks before the limit is an error; what a broken answer sent is kept for the next try |
| Models.Volume.Restart | api/internal/models/download.go:380-389 | a restart that succeeds leaves an empty file, position 0 and a fresh hasher |
| Models.ReceivedIsPrefix | api/internal/models/download.go:350-358 | however the body is cut into reads, its first bytes up to the limit are received |
| Models.ResumedIsWhole | api/internal/models/download.go:326-352 | resuming from any prefix of the pinned content with the rest gives all of it; a longer body always shows as one byte too many |
| Models.Volume.DownloadFile | api/internal/models/download.go:264-317 | whatever was in the partial file and whatever the server answers, what is put in place is what was kept plus what was sent, only with the pinned size and digest; with no disk error exactly then it succeeds, and a mismatch is thrown away |
| Models.Volume.PutInPlace | api/internal/models/download.go:296-317 | renames exactly on pinned size and digest of what the hasher saw, else removes the partial file |
| Models.AttemptResumes | api/internal/models/download.go:264-378 | one attempt against a server that answers with the content, whole or from where it is asked to: it gets through exactly when nothing was missing or the answer does not break off, then with the content; otherwise a prefix of the content is kept |
| Models.ResumesToWhole | api/internal/models/download.go:264-378 | over any list of such answers, breaking off, resuming or starting over, the first attempt to get through has the whole content and until then what is kept is a prefix of it; an unbroken whole answer always gets through |
| Models.NoByteTwice | api/internal/models/download.go:319-378 | while only ranges are answered, what is kept after any number of attempts is as long as all that was ever sent |
| Models.Volume.Inspect | api/internal/models/download.go:151-187 | a file is taken as verified exactly when it passes the load gate or its content on disk has the pin, which is then recorded |
| Models.Volume.DownloadExclusive | api/internal/models/download.go:237-262 | success leaves the file in place and recorded; nothing pinned elsewhere stops passing |
| Models.Volume.Install | api/internal/models/download.go:95-143 | success makes the entry pass the load gate; success or failure, every other entry of the manifest that passed still does, and all new content is pinned content of the entry; with no disk error, room and a server that completes every file from where it is asked to, it succeeds; the table gains rows only for pinned content on disk |
| Models.ServedIsFetchable | api/internal/models/download.go:319-378 | a server that has the pinned content completes every download of it from any prefix, whether it honours ranges or sends the whole file |
| Models.PlaceKeeps | api/internal/models/download.go:301-317 | putting pinned content in place keeps every pinned file that passed, given one digest per path and no collisions |
| Models.RecordKeeps | api/internal/models/store.go:53-56 | recording checked content keeps every pinned file that passed |
| Models.KeepsChecks | api/internal/models/store.go:112-151 | a change that keeps every pinned file keeps every model loadable |
| Models.Volume.Claim | api/internal/models/store.go:58-80 | moves the model to downloading, refused exactly when a pull holds it |
| Models.Volume.Pause | db/queries/models.sql:54-57 | moves a downloading model to paused, refused exactly when no pull holds it |
| Models.Volume.Pull | api/internal/models/steps.go:82-165 | every model recorded as installed stays loadable through a pull of any model, and a pull that succeeds heals one a removal left broken; success records installed, a canceled step leaves the row alone, and exactly the last failed attempt turns a downloading row into failed |
| Models.Volume.Remove | api/internal/models/store.go:153-183 | success removes exactly the files and rows no other installed model uses and the install row; when it stops part way a first part of them is gone and its own model loads exactly when nothing was deleted; every other installed model that loaded still does, whatever earlier removals left behind |
| Models.PartlyRemovedLoadsIff | api/internal/models/store.go:172-183 | with a first part of its files and rows gone a model loads exactly when it did before and nothing was there to delete |
| Models.HalfRemovedIsInstalled | api/internal/models/store.go:172-183 | a removal stopped after one of two files: the model is recorded as installed and does not load |
| ModelRuns.EveryRunIsSound | api/internal/models/store.go:58-183 | after every sequence of claims, pauses, pulls and removals from an empty volume, each succeeding or failing anywhere, what passes the load gate has the pinned content, and every model recorded as installed passes it but those whose removal stopped and that were not taken up since |
| ModelRuns.InstalledIsPinned | api/internal/models/store.go:112-151 | so every other installed model has allowed licences and all its files on disk with the content they are pinned to |
| ModelRuns.InstallKeepsSound | api/internal/models/download.go:95-143 | placing and recording only pinned content of one model, in any amount, keeps every file that passed the gate and lets nothing else pass |
| Models.Volume.ListShared | api/internal/models/store.go:156-172 | the shared paths are exactly those of the other installed models |
| Models.RemovalKeepsIff | api/internal/models/store.go:173-183 | after a removal exactly the models that use none of the removed paths still load |
| Utf8.RunesConcat | api/internal/importer/split.go:116-124 | decoding, counting included, is additive at every cut no sequence can cross, on any bytes |
| Utf8.RoundTripIff | api/internal/importer/split.go:40-47 | bytes survive conversion to runes and back exactly when they are valid UTF-8 |
| Chapters.WordCount | api/internal/importer/cjk.go:43-67 | the loop counts what the word scan of the runes counts |
| Chapters.ScanConcat | api/internal/importer/cjk.go:51-67 | word counts add up wherever no word is open |
| Chapters.WordsCutAtLine | api/internal/importer/cjk.go:43-50 | the words of a text are the words before and after any line start |
| Chapters.FindSpans | api/internal/importer/split.go:98-114 | a preface exactly when text precedes the first heading, then one span per heading up to the next |
| Chapters.SplitWithPattern | api/internal/importer/split.go:92-135 | no chapter without a match, else one per span, numbered, with the running rune offsets and its own word count |
| Chapters.RunePosIsOffset | api/internal/importer/split.go:116-124 | the running rune counter is the rune offset of the byte position it stands for |
| Chapters.RangesAreContiguous | api/internal/importer/split.go:116-134 | chapter ranges follow each other without a gap up to the text's rune count, cut out exactly their spans, and only white space precedes the first |
| Chapters.ChaptersAreTheText | api/internal/importer/split.go:40-47 | the chapter texts concatenate to the text minus leading white space exactly when that is valid UTF-8 |
| Chapters.ChapterWordsAddUp | api/internal/importer/cjk.go:43-67 | chapter word counts sum to the whole text's |
| Chapters.Split | api/internal/importer/split.go:49-81 | uses the preset asked for or the one matching most, the first of equals; without a match one chapter spans the text |
| Wav.ParseWAV | api/internal/bench/audio_sink.go:128-163 | ends on every input, never reads past the end, and returns what the parser function does |
| Wav.ToBytes | api/internal/bench/audio_sink.go:165-182 | fills the 44-byte header in place and appends the samples |
| Wav.Le32Put32 | api/internal/bench/audio_sink.go:208-217 | reading back a 32-bit field gives the number modulo 2^32 |
| Wav.ParseFile | api/internal/bench/audio_sink.go:128-163 | parsing gives the audio back, rate and length modulo 2^32, with any RIFF size, any padded extra chunks before and after the format chunk and anything behind the samples |
| Wav.ParseOkIff | api/internal/bench/audio_sink.go:128-163 | of arbitrary bytes: the parser returns a rate and samples exactly when, behind a RIFF/WAVE header, well-formed chunks with 16-bit PCM mono format chunks only lead to a data chunk with those samples, the last format chunk before it giving the rate |
| Wav.RoundTripIff | api/internal/bench/audio_sink.go:128-182 | parse after encode is the identity exactly when rate and length fit in 32 bits |
| Wav.SkipAll | api/internal/bench/audio_sink.go:157-160 | chunks the reader passes over do not matter |
| Wav.ConcatWAV | api/internal/bench/audio_sink.go:184-205 | joins clips of one rate or names the first that differs; each reported start is the length of all bytes before the clip |
| Wav.ClipSitsAtItsOffset | api/internal/bench/audio_sink.go:195-203 | every clip is found whole at its offset, after its gap of zeros |
| Wav.StartIsExactIff | api/internal/bench/audio_sink.go:120-126 | a reported start is the clip's exact place exactly when an even number of bytes precedes it |
| Wav.OffsetsEvenIff | api/internal/bench/audio_sink.go:184-205 | the clips up to any one start on whole samples exactly when those before it hold whole samples |
| Wav.StartsExactIff | api/internal/bench/audio_sink.go:184-205 | their reported starts are all exact in exactly that case |

## Left out

- Jobs.EnqueueReadySteps: says which steps each job holds and how urgent it is, not in which order the jobs are inserted.
- Models.Lint: models the name and path rules only, and says which problems are reported, not in which order.
- Clock.VoiceLengths: models the sample length of each voice, not the filters that pad and cut it.
- SQL text, transactions and row locks: each statement is one step of the model with the effect its text states.
- A failed commit and its cascade are one action; a crash or a retry between them is not modelled. In `Rollups` the rollup is three statements of its own that may be lost; elsewhere it is part of the commit.
- `MarkStaleDependents`, which reopens done steps, and the orphan sweep, which fails queued steps outside the transition table.
- The job queue itself (delivery, retry delays), heartbeat timers, event notifications, logs and outputs: a heartbeat gone stale is any set of running steps handed to the reset.
- The bounded retry of a commit on database errors; the GPU lock, model residency and admission quotas.
- The ready sweep, superseding a run and canceling a scope are actions of the protocol without a method in `Engine`.
- A handler registry that changes while a job runs.
- Step ids are numbers, rows have no tenant, scope or input.
- Integers of the timeline, byte counts and counters are unbounded, except the 16-bit priority, 32-bit WAV fields and the attempt fence as written.
- Hashing: digests are parameters; only the model store needs them free of collisions.
- Floating point: tokens, seconds and starts are reals; the silence between clips is given in samples; the mutex of the limiter makes its calls a sequence.
- A bucket of the limiter is a value in the map, not an object shared by reference; nothing else refers to it.
- Partial downloads are keyed by digest, not by the file name derived from it; whether the disks have room is an input; progress reports, URLs and allowed hosts are left out, an unreachable host being a server without an answer.
- Pulls and removals of models run one after another; the file lock between concurrent pulls, a pause in the middle of a pull and the byte counts of the install row are not modelled.
- Regular expressions: match positions are an input, anchored at line starts as the patterns are; titles are the match, not its trimmed text; which runes are Han is an input.
- The other lint rules, ffmpeg graphs, loudness parsing, quality checks, object storage, HTTP handlers, the web application and the command lines: glue or simple checks.
