/** What one worker job does with its step ids: claim, run and commit each in
    turn, and the error that tells the job queue whether to run the job again. */
module Dispatch {
  import opened Transition
  import opened Graph
  import opened GraphValidator
  import opened Protocol
  import opened DependencySafety
  import opened Fence

  /** How a step's handler ended, and whether its output could be encoded. */
  datatype Outcome = Succeeded | Unencodable | Permanent | OutOfMemory | Transient

  datatype DispatchError = NoError | Snooze | RetryJob | StopChunk

  datatype Opts = Opts(residency: bool, jobAttempt: int, jobMaxAttempts: int)

  /** The process: the kinds it has handlers for, how each claimed attempt ends,
      and the job's options. */
  datatype Worker = Worker(kinds: set<string>, outcome: (StepId, nat) -> Outcome, opts: Opts)

  predicate LastAttempt(o: Opts) {
    o.jobMaxAttempts > 0 && o.jobAttempt >= o.jobMaxAttempts
  }

  /** The writes a claimed step ends with; `oom` counts its earlier runs that ran
      out of GPU memory. */
  function WritesOf(id: StepId, attempt: nat, outcome: Outcome, oom: nat, o: Opts): seq<Action> {
    match outcome
    case Succeeded => [CommitDone(id, attempt)]
    case Unencodable => [CommitFailed(id, attempt)]
    case Permanent => [CommitFailed(id, attempt)]
    case OutOfMemory =>
      if !o.residency then [CommitFailed(id, attempt)]
      else [CountOom(id, attempt), if oom + 1 > 1 then CommitFailed(id, attempt) else Requeue(id, attempt)]
    case Transient => [if LastAttempt(o) then CommitFailed(id, attempt) else Requeue(id, attempt)]
  }

  function ErrorOf(outcome: Outcome, o: Opts): DispatchError {
    match outcome
    case OutOfMemory => if o.residency then StopChunk else NoError
    case Transient => if LastAttempt(o) then NoError else RetryJob
    case _ => NoError
  }

  /** Claims `id`, which is queued, and runs it. */
  ghost function ClaimAndRun(db: DB, id: StepId, w: Worker): DB
    requires id in db.steps && db.steps[id].status.Queued?
  {
    var attempt := db.steps[id].attempt + 1;
    Run(Claim(db, {id}), WritesOf(id, attempt, w.outcome(id, attempt), db.steps[id].oom, w.opts))
  }

  function ErrorFor(db: DB, id: StepId, w: Worker): DispatchError
    requires id in db.steps
  {
    ErrorOf(w.outcome(id, db.steps[id].attempt + 1), w.opts)
  }

  /** The tables and the error after the steps of `ids`, with nobody else acting;
      `err` is the first error that asked for the job to be run again. */
  ghost function Dispatched(db: DB, ids: seq<StepId>, w: Worker, err: DispatchError): (DB, DispatchError)
    decreases |ids|
  {
    if |ids| == 0 then (db, err)
    else if ids[0] !in db.steps then Dispatched(db, ids[1..], w, err)
    else if db.steps[ids[0]].kind !in w.kinds then (db, Snooze)
    else if !db.steps[ids[0]].status.Queued? then Dispatched(db, ids[1..], w, err)
    else
      var next, e := ClaimAndRun(db, ids[0], w), ErrorFor(db, ids[0], w);
      if e.StopChunk? then (next, StopChunk)
      else Dispatched(next, ids[1..], w, if err.NoError? then e else err)
  }

  // ---- One step ------------------------------------------------------------

  predicate Finished(s: Status) {
    s.Done? || s.Failed?
  }

  /** How a worker's own writes may change any row. */
  predicate RowKept(was: Row, now: Row) {
    && now.kind == was.kind && now.attempt == was.attempt
    && (Terminal(was.status) || was.status.Queued? ==> now.status == was.status)
  }

  /** ... and the row of another step than theirs: only a waiting one moves. */
  predicate OtherKept(was: Row, now: Row) {
    now.oom == was.oom && (!was.status.Pending? ==> now.status == was.status)
  }

  /** How running step `id` may change the row of `s`. */
  ghost predicate StepChange(db: DB, next: DB, id: StepId, s: StepId)
    requires s in db.steps
  {
    && s in next.steps
    && var was, now := db.steps[s], next.steps[s];
    && now.kind == was.kind && now.attempt == was.attempt + (if s == id then 1 else 0)
    && (Terminal(was.status) ==> now.status == was.status)
    && (s != id ==> OtherKept(was, now))
  }

  /** A worker's write about one step. */
  predicate WriteOf(a: Action, id: StepId) {
    (IsWrite(a) || a.CountOom?) && a.id == id
  }

  lemma DoneKeepsRow(db: DB, id: StepId, attempt: nat, s: StepId)
    requires db.deps.Keys == db.steps.Keys && Acyclic(db.deps) && s in db.steps
    ensures var next := DoneStep(db, id, attempt);
            s in next.steps && RowKept(db.steps[s], next.steps[s]) && (s != id ==> OtherKept(db.steps[s], next.steps[s]))
  {
    if Owns(db, id, attempt) {
      NoSelfEdge(db.deps, id);
      FinishedRowAt(db, id, s);
      RollupTouchesRunsOnly(AfterFinish(db, id), db.steps[id].run);
    }
  }

  lemma FailKeepsRow(db: DB, id: StepId, attempt: nat, s: StepId)
    requires s in db.steps
    ensures var next := FailStep(db, id, attempt);
            s in next.steps && RowKept(db.steps[s], next.steps[s]) && (s != id ==> OtherKept(db.steps[s], next.steps[s]))
  {
    if Owns(db, id, attempt) {
      var failed := Move(db, {id}, Running, Failed);
      RollupTouchesRunsOnly(Move(failed, Downstream(failed, id), Pending, Canceled), db.steps[id].run);
    }
  }

  /** A worker's own write leaves every attempt, every kind, every terminal row and
      every queued row alone, and counts nothing on another step. */
  lemma OneActionKeeps(db: DB, a: Action, id: StepId, s: StepId)
    requires db.deps.Keys == db.steps.Keys && Acyclic(db.deps) && s in db.steps && WriteOf(a, id)
    ensures var next := Apply(db, a);
            s in next.steps && RowKept(db.steps[s], next.steps[s]) && (s != id ==> OtherKept(db.steps[s], next.steps[s]))
  {
    if a.CommitDone? { DoneKeepsRow(db, a.id, a.attempt, s); }
    if a.CommitFailed? { FailKeepsRow(db, a.id, a.attempt, s); }
  }

  lemma FailEndsFailed(db: DB, id: StepId, attempt: nat)
    requires Owns(db, id, attempt)
    ensures id in FailStep(db, id, attempt).steps && FailStep(db, id, attempt).steps[id].status.Failed?
  {
    var failed := Move(db, {id}, Running, Failed);
    RollupTouchesRunsOnly(Move(failed, Downstream(failed, id), Pending, Canceled), db.steps[id].run);
  }

  ghost predicate WritesAbout(acts: seq<Action>, id: StepId) {
    forall a :: a in acts ==> WriteOf(a, id)
  }

  lemma {:induction false} WritesKeep(db: DB, acts: seq<Action>, id: StepId, s: StepId)
    requires Reachable(db) && s in db.steps && WritesAbout(acts, id)
    ensures Reachable(Run(db, acts)) && s in Run(db, acts).steps
    ensures RowKept(db.steps[s], Run(db, acts).steps[s])
    ensures s != id ==> OtherKept(db.steps[s], Run(db, acts).steps[s])
  {
    if acts != [] {
      var init, a := acts[..|acts| - 1], acts[|acts| - 1];
      assert a in acts;
      WritesKeep(db, init, id, s);
      ReachableIsSafe(Run(db, init));
      OneActionKeeps(Run(db, init), a, id, s);
      ReachableStep(Run(db, init), a);
    }
  }

  /** How a claim and a worker's own writes move a step: only a waiting one is
      canceled, and nothing starts to wait. */
  predicate Moves(was: Status, now: Status) {
    match was
    case Pending => now.Pending? || now.Queued? || now.Canceled?
    case Canceled => now.Canceled?
    case _ => !now.Pending? && !now.Canceled?
  }

  /** Every step moves so, and leaves the waiting ones only for the queue or
      canceled; without a success none is queued. */
  ghost predicate AllMove(db: DB, next: DB, succeeds: bool) {
    && next.steps.Keys == db.steps.Keys
    && forall s :: s in db.steps ==>
                  && Moves(db.steps[s].status, next.steps[s].status)
                  && (!succeeds && db.steps[s].status.Pending? ==> !next.steps[s].status.Queued?)
  }

  lemma DoneMoves(db: DB, id: StepId, attempt: nat)
    ensures AllMove(db, DoneStep(db, id, attempt), true)
  {
    if Owns(db, id, attempt) {
      RollupTouchesRunsOnly(AfterFinish(db, id), db.steps[id].run);
    }
  }

  lemma FailMoves(db: DB, id: StepId, attempt: nat)
    ensures AllMove(db, FailStep(db, id, attempt), false)
  {
    if Owns(db, id, attempt) {
      var failed := Move(db, {id}, Running, Failed);
      RollupTouchesRunsOnly(Move(failed, Downstream(failed, id), Pending, Canceled), db.steps[id].run);
    }
  }

  lemma RequeueMoves(db: DB, id: StepId, attempt: nat)
    ensures AllMove(db, RequeueStep(db, id, attempt), false)
  {
  }

  lemma CountMoves(db: DB, id: StepId, attempt: nat)
    ensures AllMove(db, CountOomStep(db, id, attempt), false)
  {
  }

  lemma OneMoves(db: DB, a: Action)
    requires IsWrite(a) || a.CountOom?
    ensures AllMove(db, Apply(db, a), a.CommitDone?)
  {
    match a
    case CommitDone(id, attempt) =>
      DoneMoves(db, id, attempt);
    case CommitFailed(id, attempt) =>
      FailMoves(db, id, attempt);
    case Requeue(id, attempt) =>
      RequeueMoves(db, id, attempt);
    case CountOom(id, attempt) =>
      CountMoves(db, id, attempt);
  }

  lemma AllMoveTwice(a: DB, b: DB, c: DB)
    requires AllMove(a, b, false) && AllMove(b, c, false)
    ensures AllMove(a, c, false)
  {
    forall s | s in a.steps ensures Moves(a.steps[s].status, c.steps[s].status) {
      assert Moves(a.steps[s].status, b.steps[s].status) && Moves(b.steps[s].status, c.steps[s].status);
    }
  }

  /** What a run writes is one write, or a count and one more write. */
  lemma RunMoves(db: DB, id: StepId, attempt: nat, outcome: Outcome, oom: nat, o: Opts)
    ensures AllMove(db, Run(db, WritesOf(id, attempt, outcome, oom, o)), outcome.Succeeded?)
  {
    var acts := WritesOf(id, attempt, outcome, oom, o);
    OneMoves(db, acts[0]);
    if |acts| == 1 {
      OneWrite(db, acts[0]);
      assert acts == [acts[0]];
    } else {
      OneMoves(Apply(db, acts[0]), acts[1]);
      AllMoveTwice(db, Apply(db, acts[0]), Apply(Apply(db, acts[0]), acts[1]));
      TwoWrites(db, acts[0], acts[1]);
      assert acts == [acts[0], acts[1]];
    }
  }

  lemma ClaimOwns(db: DB, id: StepId)
    requires id in db.steps && db.steps[id].status.Queued?
    ensures Owns(Claim(db, {id}), id, db.steps[id].attempt + 1)
  {
  }

  lemma ClaimChange(db: DB, id: StepId, s: StepId)
    requires Reachable(db) && s in db.steps && id in db.steps && db.steps[id].status.Queued?
    ensures Reachable(Claim(db, {id})) && StepChange(db, Claim(db, {id}), id, s)
  {
    ReachableStep(db, ClaimSteps({id}));
  }

  lemma WritesOfAbout(id: StepId, attempt: nat, outcome: Outcome, oom: nat, o: Opts)
    ensures WritesAbout(WritesOf(id, attempt, outcome, oom, o), id)
  {
  }

  lemma WritesChange(db: DB, claimed: DB, acts: seq<Action>, id: StepId, s: StepId, next: DB)
    requires s in db.steps && Reachable(claimed) && StepChange(db, claimed, id, s) && WritesAbout(acts, id)
    requires next == Run(claimed, acts)
    ensures Reachable(next) && StepChange(db, next, id, s)
  {
    WritesKeep(claimed, acts, id, s);
  }

  /** A run is the claim and then writes about the claimed step only. */
  lemma ClaimThenWrites(db: DB, id: StepId, w: Worker) returns (claimed: DB, acts: seq<Action>)
    requires Reachable(db) && id in db.steps && db.steps[id].status.Queued?
    ensures ClaimAndRun(db, id, w) == Run(claimed, acts) && WritesAbout(acts, id)
    ensures Reachable(claimed) && claimed.steps.Keys == db.steps.Keys
    ensures forall s :: s in db.steps ==> StepChange(db, claimed, id, s)
  {
    var attempt, oom := db.steps[id].attempt + 1, db.steps[id].oom;
    claimed, acts := Claim(db, {id}), WritesOf(id, attempt, w.outcome(id, attempt), oom, w.opts);
    WritesOfAbout(id, attempt, w.outcome(id, attempt), oom, w.opts);
    forall s | s in db.steps ensures StepChange(db, claimed, id, s) {
      ClaimChange(db, id, s);
    }
    ReachableStep(db, ClaimSteps({id}));
  }

  lemma ClaimAndRunChanges(db: DB, id: StepId, w: Worker, s: StepId)
    requires Reachable(db) && s in db.steps && id in db.steps && db.steps[id].status.Queued?
    ensures Reachable(ClaimAndRun(db, id, w)) && StepChange(db, ClaimAndRun(db, id, w), id, s)
  {
    var claimed, acts := ClaimThenWrites(db, id, w);
    var next := ClaimAndRun(db, id, w);
    WritesChange(db, claimed, acts, id, s, next);
  }

  lemma OneWrite(db: DB, a: Action)
    ensures Run(db, [a]) == Apply(db, a)
  {
    RunStep(db, [a], 0);
    assert [a][..0] == [];
  }

  lemma TwoWrites(db: DB, a: Action, b: Action)
    ensures Run(db, [a, b]) == Apply(Apply(db, a), b)
  {
    OneWrite(db, a);
    assert [a, b][..1] == [a];
  }

  /** A commit that owns its attempt finishes the step. */
  lemma CommitFinishes(db: DB, id: StepId, attempt: nat, a: Action)
    requires db.deps.Keys == db.steps.Keys && Acyclic(db.deps) && Owns(db, id, attempt)
    requires a == CommitDone(id, attempt) || a == CommitFailed(id, attempt)
    ensures id in Apply(db, a).steps && Finished(Apply(db, a).steps[id].status)
  {
    if a.CommitDone? {
      DoneStepFinishesOne(db, id, attempt, id);
    } else {
      FailEndsFailed(db, id, attempt);
    }
  }

  /** The outcomes that end a step at once. */
  predicate Ends(outcome: Outcome, o: Opts) {
    ErrorOf(outcome, o).NoError?
  }

  /** Such an outcome is one write, a commit. */
  function EndingWrite(id: StepId, attempt: nat, outcome: Outcome): Action {
    if outcome.Succeeded? then CommitDone(id, attempt) else CommitFailed(id, attempt)
  }

  lemma EndsInOneWrite(id: StepId, attempt: nat, outcome: Outcome, oom: nat, o: Opts)
    requires Ends(outcome, o)
    ensures WritesOf(id, attempt, outcome, oom, o) == [EndingWrite(id, attempt, outcome)]
  {
  }

  lemma OneCommitFinishes(db: DB, id: StepId, attempt: nat, a: Action)
    requires Reachable(db) && Owns(db, id, attempt)
    requires a == CommitDone(id, attempt) || a == CommitFailed(id, attempt)
    ensures id in Run(db, [a]).steps && Finished(Run(db, [a]).steps[id].status)
  {
    ReachableIsSafe(db);
    CommitFinishes(db, id, attempt, a);
    OneWrite(db, a);
  }

  lemma ReachableClaim(db: DB, id: StepId) returns (claimed: DB)
    requires Reachable(db) && id in db.steps && db.steps[id].status.Queued?
    ensures claimed == Claim(db, {id}) && Reachable(claimed) && Owns(claimed, id, db.steps[id].attempt + 1)
  {
    claimed := Claim(db, {id});
    ReachableStep(db, ClaimSteps({id}));
    ClaimOwns(db, id);
  }

  lemma {:induction false} ClaimAndRunIs(db: DB, id: StepId, w: Worker, claimed: DB, acts: seq<Action>)
    requires id in db.steps && db.steps[id].status.Queued? && claimed == Claim(db, {id})
    requires var k := db.steps[id].attempt + 1; acts == WritesOf(id, k, w.outcome(id, k), db.steps[id].oom, w.opts)
    ensures ClaimAndRun(db, id, w) == Run(claimed, acts)
  {
  }

  lemma EndingWrites(db: DB, id: StepId, w: Worker) returns (a: Action)
    requires id in db.steps && db.steps[id].status.Queued? && ErrorFor(db, id, w).NoError?
    ensures ClaimAndRun(db, id, w) == Run(Claim(db, {id}), [a])
    ensures a == CommitDone(id, db.steps[id].attempt + 1) || a == CommitFailed(id, db.steps[id].attempt + 1)
  {
    var attempt := db.steps[id].attempt + 1;
    a := EndingWrite(id, attempt, w.outcome(id, attempt));
    EndsInOneWrite(id, attempt, w.outcome(id, attempt), db.steps[id].oom, w.opts);
    ClaimAndRunIs(db, id, w, Claim(db, {id}), [a]);
  }

  lemma EndingRun(db: DB, id: StepId, w: Worker) returns (claimed: DB, attempt: nat, a: Action)
    requires Reachable(db) && id in db.steps && db.steps[id].status.Queued?
    requires ErrorFor(db, id, w).NoError?
    ensures Reachable(claimed) && Owns(claimed, id, attempt) && ClaimAndRun(db, id, w) == Run(claimed, [a])
    ensures a == CommitDone(id, attempt) || a == CommitFailed(id, attempt)
  {
    claimed := ReachableClaim(db, id);
    attempt := db.steps[id].attempt + 1;
    a := EndingWrites(db, id, w);
  }

  /** A step that asks for no retry is finished. */
  lemma NoErrorMeansFinished(db: DB, id: StepId, w: Worker)
    requires Reachable(db) && id in db.steps && db.steps[id].status.Queued?
    requires ErrorFor(db, id, w).NoError?
    ensures id in ClaimAndRun(db, id, w).steps && Finished(ClaimAndRun(db, id, w).steps[id].status)
  {
    var claimed, attempt, a := EndingRun(db, id, w);
    OneCommitFinishes(claimed, id, attempt, a);
  }

  lemma CountedOwns(db: DB, id: StepId, attempt: nat)
    requires Owns(db, id, attempt)
    ensures Owns(CountOomStep(db, id, attempt), id, attempt)
  {
  }

  lemma RequeueQueues(db: DB, id: StepId, attempt: nat)
    requires Owns(db, id, attempt)
    ensures id in RequeueStep(db, id, attempt).steps && RequeueStep(db, id, attempt).steps[id].status.Queued?
  {
  }

  /** Counting and then failing or requeueing, by a worker that owns the step. */
  lemma OomWrites(db: DB, id: StepId, attempt: nat, last: Action)
    requires Owns(db, id, attempt) && (last == CommitFailed(id, attempt) || last == Requeue(id, attempt))
    ensures id in Run(db, [CountOom(id, attempt), last]).steps
    ensures Run(db, [CountOom(id, attempt), last]).steps[id].status == if last.Requeue? then Queued else Failed
  {
    CountedOwns(db, id, attempt);
    TwoWrites(db, CountOom(id, attempt), last);
    if last.Requeue? {
      RequeueQueues(CountOomStep(db, id, attempt), id, attempt);
    } else {
      FailEndsFailed(CountOomStep(db, id, attempt), id, attempt);
    }
  }

  lemma OomWritesOf(id: StepId, attempt: nat, oom: nat, o: Opts)
    requires o.residency
    ensures WritesOf(id, attempt, OutOfMemory, oom, o)
            == [CountOom(id, attempt), if oom == 0 then Requeue(id, attempt) else CommitFailed(id, attempt)]
  {
  }

  /** The writes of a worker that lost its step change nothing. */
  lemma LateOom(db: DB, id: StepId, attempt: nat, last: Action)
    requires !Owns(db, id, attempt) && (last == CommitFailed(id, attempt) || last == Requeue(id, attempt))
    ensures Apply(Apply(db, CountOom(id, attempt)), last) == db
  {
  }

  /** What an out-of-memory run on the GPU queue writes. */
  lemma OomRun(db: DB, id: StepId, w: Worker) returns (claimed: DB, attempt: nat, last: Action)
    requires id in db.steps && db.steps[id].status.Queued?
    requires w.opts.residency && w.outcome(id, db.steps[id].attempt + 1).OutOfMemory?
    ensures Owns(claimed, id, attempt) && ClaimAndRun(db, id, w) == Run(claimed, [CountOom(id, attempt), last])
    ensures last == if db.steps[id].oom == 0 then Requeue(id, attempt) else CommitFailed(id, attempt)
  {
    ClaimOwns(db, id);
    claimed, attempt := Claim(db, {id}), db.steps[id].attempt + 1;
    last := if db.steps[id].oom == 0 then Requeue(id, attempt) else CommitFailed(id, attempt);
    OomWritesOf(id, attempt, db.steps[id].oom, w.opts);
  }

  /** On the GPU queue a first out-of-memory puts the step back in the queue
      whatever attempt the job is on, a later one fails it, and both stop the job. */
  lemma FirstOomRequeues(db: DB, id: StepId, w: Worker)
    requires id in db.steps && db.steps[id].status.Queued?
    requires w.opts.residency && w.outcome(id, db.steps[id].attempt + 1).OutOfMemory?
    ensures id in ClaimAndRun(db, id, w).steps && ErrorFor(db, id, w).StopChunk?
    ensures ClaimAndRun(db, id, w).steps[id].status == if db.steps[id].oom == 0 then Queued else Failed
  {
    var claimed, attempt, last := OomRun(db, id, w);
    OomWrites(claimed, id, attempt, last);
  }

  // ---- A whole job ---------------------------------------------------------

  /** `id` was claimed between `db` and `next`. */
  predicate WasClaimed(db: DB, next: DB, id: StepId) {
    id in db.steps && id in next.steps && next.steps[id].attempt > db.steps[id].attempt
  }

  lemma {:induction false} ErrorSticks(db: DB, ids: seq<StepId>, w: Worker, err: DispatchError)
    requires !err.NoError?
    ensures !Dispatched(db, ids, w, err).1.NoError?
    decreases |ids|
  {
    if ids != [] {
      if ids[0] in db.steps && db.steps[ids[0]].status.Queued? {
        ErrorSticks(ClaimAndRun(db, ids[0], w), ids[1..], w, err);
      } else {
        ErrorSticks(db, ids[1..], w, err);
      }
    }
  }

  /** Working a job changes no step that had ended or that another worker runs. */
  lemma {:induction false} OutsideStays(db: DB, ids: seq<StepId>, w: Worker, err: DispatchError, s: StepId)
    requires Reachable(db) && s in db.steps && !db.steps[s].status.Pending? && !db.steps[s].status.Queued?
    ensures s in Dispatched(db, ids, w, err).0.steps
    ensures Dispatched(db, ids, w, err).0.steps[s].status == db.steps[s].status
    decreases |ids|
  {
    if ids != [] && ids[0] in db.steps && db.steps[ids[0]].kind in w.kinds {
      if db.steps[ids[0]].status.Queued? {
        var next, e := ClaimAndRun(db, ids[0], w), ErrorFor(db, ids[0], w);
        ClaimAndRunChanges(db, ids[0], w, s);
        OutsideStays(next, ids[1..], w, if err.NoError? then e else err, s);
      } else {
        OutsideStays(db, ids[1..], w, err, s);
      }
    } else if ids != [] && ids[0] !in db.steps {
      OutsideStays(db, ids[1..], w, err, s);
    }
  }

  /** When a job returns no error, everything it claimed is done or failed. */
  lemma {:induction false} NoErrorFinishesClaims(db: DB, ids: seq<StepId>, w: Worker, s: StepId)
    requires Reachable(db) && s in db.steps && Dispatched(db, ids, w, NoError).1.NoError?
    ensures s in Dispatched(db, ids, w, NoError).0.steps
    ensures WasClaimed(db, Dispatched(db, ids, w, NoError).0, s) ==>
              Finished(Dispatched(db, ids, w, NoError).0.steps[s].status)
    decreases |ids|
  {
    if ids != [] {
      if ids[0] in db.steps && db.steps[ids[0]].status.Queued? {
        var next, e := ClaimAndRun(db, ids[0], w), ErrorFor(db, ids[0], w);
        ClaimAndRunChanges(db, ids[0], w, s);
        if !e.NoError? { ErrorSticks(next, ids[1..], w, e); }
        NoErrorMeansFinished(db, ids[0], w);
        NoErrorFinishesClaims(next, ids[1..], w, s);
        if s == ids[0] { OutsideStays(next, ids[1..], w, NoError, s); }
      } else {
        NoErrorFinishesClaims(db, ids[1..], w, s);
      }
    }
  }

  /** ... and nothing the job was given is left queued. */
  lemma {:induction false} NoErrorLeavesNoneQueued(db: DB, ids: seq<StepId>, w: Worker, s: StepId)
    requires Reachable(db) && s in ids && s in db.steps && db.steps[s].status.Queued?
    requires Dispatched(db, ids, w, NoError).1.NoError?
    ensures s in Dispatched(db, ids, w, NoError).0.steps
    ensures Finished(Dispatched(db, ids, w, NoError).0.steps[s].status)
    decreases |ids|
  {
    if ids[0] in db.steps && db.steps[ids[0]].status.Queued? {
      var next, e := ClaimAndRun(db, ids[0], w), ErrorFor(db, ids[0], w);
      if !e.NoError? { ErrorSticks(next, ids[1..], w, e); }
      ClaimAndRunChanges(db, ids[0], w, s);
      if s == ids[0] {
        NoErrorMeansFinished(db, s, w);
        OutsideStays(next, ids[1..], w, NoError, s);
      } else {
        NoErrorLeavesNoneQueued(next, ids[1..], w, s);
      }
    } else {
      NoErrorLeavesNoneQueued(db, ids[1..], w, s);
    }
  }

  /** Off the GPU queue, with a handler for every kind, the last attempt of a job
      always returns no error, so no queued step it was given is ever stranded. */
  lemma {:induction false} LastAttemptReturnsNoError(db: DB, ids: seq<StepId>, w: Worker)
    requires Reachable(db) && !w.opts.residency && LastAttempt(w.opts)
    requires forall s :: s in db.steps ==> db.steps[s].kind in w.kinds
    ensures Dispatched(db, ids, w, NoError).1.NoError?
    decreases |ids|
  {
    if ids != [] {
      if ids[0] in db.steps && db.steps[ids[0]].status.Queued? {
        var next := ClaimAndRun(db, ids[0], w);
        ClaimAndRunChanges(db, ids[0], w, ids[0]);
        forall s | s in next.steps ensures next.steps[s].kind in w.kinds {
          SameSteps(db, ids[0], w);
          ClaimAndRunChanges(db, ids[0], w, s);
        }
        LastAttemptReturnsNoError(next, ids[1..], w);
      } else {
        LastAttemptReturnsNoError(db, ids[1..], w);
      }
    }
  }

  lemma {:induction false} WritesKeepKeys(db: DB, acts: seq<Action>, id: StepId)
    requires WritesAbout(acts, id)
    ensures Run(db, acts).steps.Keys == db.steps.Keys
  {
    if acts != [] {
      var init, a := acts[..|acts| - 1], acts[|acts| - 1];
      assert a in acts;
      WritesKeepKeys(db, init, id);
      if a.CommitDone? { DoneKeepsKeys(Run(db, init), a); } else { QuietAction(Run(db, init), a); }
    }
  }

  lemma SameSteps(db: DB, id: StepId, w: Worker)
    requires Reachable(db) && id in db.steps && db.steps[id].status.Queued?
    ensures ClaimAndRun(db, id, w).steps.Keys == db.steps.Keys
  {
    var claimed, acts := ClaimThenWrites(db, id, w);
    WritesKeepKeys(claimed, acts, id);
  }

  lemma LastAttemptStrandsNothing(db: DB, ids: seq<StepId>, w: Worker, s: StepId)
    requires Reachable(db) && !w.opts.residency && LastAttempt(w.opts)
    requires forall t :: t in db.steps ==> db.steps[t].kind in w.kinds
    requires s in ids && s in db.steps && db.steps[s].status.Queued?
    ensures s in Dispatched(db, ids, w, NoError).0.steps
    ensures Finished(Dispatched(db, ids, w, NoError).0.steps[s].status)
  {
    LastAttemptReturnsNoError(db, ids, w);
    NoErrorLeavesNoneQueued(db, ids, w, s);
  }

  // ---- The last attempt of a GPU job ---------------------------------------

  predicate IsQueued(db: DB, id: StepId) {
    id in db.steps && db.steps[id].status.Queued?
  }

  /** `id` is in the queue, and its next run ends out of GPU memory. */
  predicate RunsOut(db: DB, id: StepId, w: Worker) {
    IsQueued(db, id) && w.outcome(id, db.steps[id].attempt + 1).OutOfMemory?
  }

  /** A job on the GPU queue on its last attempt. Its steps may be gone, have ended or
      be run by another worker by now; having been in the queue, none is waiting. */
  ghost predicate LastGpuJob(db: DB, ids: seq<StepId>, w: Worker) {
    && w.opts.residency && LastAttempt(w.opts) && NoRepeats(ids)
    && forall s :: s in ids && s in db.steps ==> !db.steps[s].status.Pending? && db.steps[s].kind in w.kinds
  }

  /** No step in the queue runs out of memory, but perhaps the last of them, and that
      one not for the first time. */
  ghost predicate OnlyLastRunsOut(db: DB, ids: seq<StepId>, w: Worker) {
    forall k :: 0 <= k < |ids| && RunsOut(db, ids[k], w) ==> db.steps[ids[k]].oom > 0 && NoneQueued(db, ids[k + 1..])
  }

  ghost predicate NoneQueued(db: DB, ids: seq<StepId>) {
    forall s :: s in ids ==> !IsQueued(db, s)
  }

  /** `next` says the same of `ids` as `db`. */
  ghost predicate SameFor(db: DB, next: DB, ids: seq<StepId>) {
    forall s :: s in ids ==>
                  && (s in db.steps <==> s in next.steps)
                  && (s in db.steps && !db.steps[s].status.Pending? ==>
                        var was, now := db.steps[s], next.steps[s];
                        was.status == now.status && was.kind == now.kind && was.attempt == now.attempt && was.oom == now.oom)
  }

  lemma RestIsOther(ids: seq<StepId>, s: StepId)
    requires NoRepeats(ids) && ids != [] && s in ids[1..]
    ensures s in ids && s != ids[0]
  {
    var k :| 0 <= k < |ids[1..]| && ids[1..][k] == s;
    assert ids[k + 1] == s;
  }

  /** Working the first step of a job leaves the others as they were. */
  lemma OthersStay(db: DB, ids: seq<StepId>, w: Worker)
    requires Reachable(db) && NoRepeats(ids) && ids != [] && IsQueued(db, ids[0])
    ensures SameFor(db, ClaimAndRun(db, ids[0], w), ids[1..])
  {
    SameSteps(db, ids[0], w);
    forall s | s in ids[1..] && s in db.steps ensures StepChange(db, ClaimAndRun(db, ids[0], w), ids[0], s) && s != ids[0] {
      RestIsOther(ids, s);
      ClaimAndRunChanges(db, ids[0], w, s);
    }
  }

  lemma JobContinues(db: DB, next: DB, ids: seq<StepId>, w: Worker)
    requires LastGpuJob(db, ids, w) && ids != [] && SameFor(db, next, ids[1..])
    ensures LastGpuJob(next, ids[1..], w)
    ensures forall s :: s in ids[1..] ==> RunsOut(next, s, w) == RunsOut(db, s, w)
    ensures NoneQueued(next, ids[1..]) <==> NoneQueued(db, ids[1..])
  {
    forall s | s in ids[1..] ensures s in ids {
      RestIsOther(ids, s);
    }
  }

  lemma LaterToo(db: DB, next: DB, ids: seq<StepId>, w: Worker)
    requires SameFor(db, next, ids) && forall s :: s in ids && s in db.steps ==> !db.steps[s].status.Pending?
    ensures OnlyLastRunsOut(next, ids, w) <==> OnlyLastRunsOut(db, ids, w)
  {
    forall k | 0 <= k < |ids|
      ensures RunsOut(next, ids[k], w) == RunsOut(db, ids[k], w) && NoneQueued(next, ids[k + 1..]) == NoneQueued(db, ids[k + 1..])
    {
      assert ids[k] in ids;
      assert forall s :: s in ids[k + 1..] ==> s in ids;
    }
  }

  lemma OnlyLastOneMore(db: DB, ids: seq<StepId>, w: Worker)
    requires ids != []
    ensures RunsOut(db, ids[0], w) ==> (OnlyLastRunsOut(db, ids, w) <==> db.steps[ids[0]].oom > 0 && NoneQueued(db, ids[1..]))
    ensures !RunsOut(db, ids[0], w) ==> (OnlyLastRunsOut(db, ids, w) <==> OnlyLastRunsOut(db, ids[1..], w))
  {
    forall k | 0 <= k < |ids| - 1 ensures ids[1..][k] == ids[k + 1] && ids[1..][k + 1..] == ids[k + 2..] {
    }
    if RunsOut(db, ids[0], w) && NoneQueued(db, ids[1..]) {
      forall k | 1 <= k < |ids| ensures !RunsOut(db, ids[k], w) {
        assert ids[k] == ids[1..][k - 1];
      }
    }
    if !RunsOut(db, ids[0], w) && OnlyLastRunsOut(db, ids[1..], w) {
      forall k | 0 <= k < |ids| && RunsOut(db, ids[k], w) ensures db.steps[ids[k]].oom > 0 && NoneQueued(db, ids[k + 1..]) {
        assert ids[1..][k - 1] == ids[k] && ids[1..][k..] == ids[k + 1..];
      }
    }
  }

  lemma NoneQueuedSplits(db: DB, ids: seq<StepId>)
    requires ids != []
    ensures NoneQueued(db, ids) <==> !IsQueued(db, ids[0]) && NoneQueued(db, ids[1..])
  {
    assert ids == [ids[0]] + ids[1..];
  }

  /** The step that runs out of memory first stops the job: it is queued again if it
      was its first time, and no step after it leaves the queue. */
  lemma StoppedJob(db: DB, ids: seq<StepId>, w: Worker)
    requires Reachable(db) && LastGpuJob(db, ids, w) && ids != [] && RunsOut(db, ids[0], w)
    ensures Dispatched(db, ids, w, NoError) == (ClaimAndRun(db, ids[0], w), StopChunk)
    ensures NoneQueued(ClaimAndRun(db, ids[0], w), ids) <==> db.steps[ids[0]].oom > 0 && NoneQueued(db, ids[1..])
  {
    assert ids[0] in ids;
    FirstOomRequeues(db, ids[0], w);
    OthersStay(db, ids, w);
    JobContinues(db, ClaimAndRun(db, ids[0], w), ids, w);
    NoneQueuedSplits(ClaimAndRun(db, ids[0], w), ids);
  }

  /** A step that is not in the queue is passed over; one that is and does not run out
      of memory on the last attempt is finished, and the job goes on. */
  lemma GoesOn(db: DB, ids: seq<StepId>, w: Worker) returns (next: DB)
    requires Reachable(db) && LastGpuJob(db, ids, w) && ids != [] && !RunsOut(db, ids[0], w)
    ensures Reachable(next) && SameFor(db, next, ids[1..])
    ensures Dispatched(db, ids, w, NoError) == Dispatched(next, ids[1..], w, NoError)
    ensures !IsQueued(Dispatched(db, ids, w, NoError).0, ids[0])
  {
    var id := ids[0];
    assert id in ids;
    if IsQueued(db, id) {
      next := ClaimAndRun(db, id, w);
      OthersStay(db, ids, w);
      NoErrorMeansFinished(db, id, w);
      ClaimAndRunChanges(db, id, w, id);
    } else {
      next := db;
    }
    if id in next.steps {
      OutsideStays(next, ids[1..], w, NoError, id);
    } else {
      NoNewSteps(next, ids[1..], w, NoError);
    }
  }

  lemma {:induction false} NoNewSteps(db: DB, ids: seq<StepId>, w: Worker, err: DispatchError)
    requires Reachable(db)
    ensures Dispatched(db, ids, w, err).0.steps.Keys == db.steps.Keys
    decreases |ids|
  {
    if ids != [] {
      if ids[0] in db.steps && db.steps[ids[0]].status.Queued? {
        var e := ErrorFor(db, ids[0], w);
        SameSteps(db, ids[0], w);
        ClaimAndRunChanges(db, ids[0], w, ids[0]);
        NoNewSteps(ClaimAndRun(db, ids[0], w), ids[1..], w, if err.NoError? then e else err);
      } else {
        NoNewSteps(db, ids[1..], w, err);
      }
    }
  }

  /** What the last attempt of a GPU job leaves behind: it returns no error exactly
      when none of its steps in the queue runs out of memory, and leaves none in the
      queue exactly when none does but perhaps the last of them, and that one not for
      the first time. */
  lemma {:induction false} LastGpuAttempt(db: DB, ids: seq<StepId>, w: Worker)
    requires Reachable(db) && LastGpuJob(db, ids, w)
    ensures Dispatched(db, ids, w, NoError).1.NoError? <==> forall s :: s in ids ==> !RunsOut(db, s, w)
    ensures NoneQueued(Dispatched(db, ids, w, NoError).0, ids) <==> OnlyLastRunsOut(db, ids, w)
    decreases |ids|
  {
    if ids != [] {
      assert ids[0] in ids;
      OnlyLastOneMore(db, ids, w);
      if RunsOut(db, ids[0], w) {
        StoppedJob(db, ids, w);
      } else {
        var next := GoesOn(db, ids, w);
        JobContinues(db, next, ids, w);
        LaterToo(db, next, ids[1..], w);
        LastGpuAttempt(next, ids[1..], w);
        NoneQueuedSplits(Dispatched(db, ids, w, NoError).0, ids);
        assert forall s :: s in ids <==> s == ids[0] || s in ids[1..];
      }
    }
  }

  // ---- A run in which it strands a step ------------------------------------

  /** Two independent steps of one run, the first of which ran out of memory once. */
  function OneOomSoFar(place: Placement): seq<Action> {
    var specs := [StepSpec(0, "image", 3, []), StepSpec(1, "image", 3, [])];
    [Enqueue(0, specs, map[0 := place, 1 := place]), ClaimSteps({0}), CountOom(0, 1), Requeue(0, 1)]
  }

  lemma TwoStepsEnqueued(place: Placement, specs: seq<StepSpec>, placed: map<StepId, Placement>)
    requires place.queue in QUEUES
    requires specs == [StepSpec(0, "image", 3, []), StepSpec(1, "image", 3, [])] && placed == map[0 := place, 1 := place]
    ensures Enqueueable(EMPTY, 0, specs, placed)
    ensures var db := EnqueueRun(EMPTY, 0, specs, placed);
            && 0 in db.steps && db.steps[0] == NewRow(0, specs[0], place)
            && 1 in db.steps && db.steps[1] == NewRow(0, specs[1], place)
  {
    OrderedIsAcyclic(specs, [0, 1]);
    assert specs[0] in specs && specs[1] in specs;
    EnqueueExtends(EMPTY, 0, specs, placed);
  }

  lemma FourActions(db: DB, a: Action, b: Action, c: Action, d: Action)
    ensures Run(db, [a, b, c, d]) == Apply(Apply(Apply(Apply(db, a), b), c), d)
  {
    var acts := [a, b, c, d];
    TwoWrites(db, a, b);
    assert acts[..2] == [a, b];
    RunStep(db, acts, 2);
    RunStep(db, acts, 3);
    assert acts[..4] == acts;
  }

  lemma CountedOnce(db: DB, claimed: DB, counted: DB)
    requires 0 in db.steps && db.steps[0].status.Queued? && db.steps[0].attempt == 0 && db.steps[0].oom == 0
    requires 1 in db.steps && db.steps[1].status.Queued?
    requires claimed == Claim(db, {0}) && counted == CountOomStep(claimed, 0, 1)
    ensures var next := RequeueStep(counted, 0, 1);
            && 0 in next.steps && next.steps[0] == db.steps[0].(attempt := 1, oom := 1)
            && 1 in next.steps && next.steps[1] == db.steps[1]
  {
    assert Owns(claimed, 0, 1);
    assert Owns(counted, 0, 1);
  }

  lemma OneOomActions(place: Placement) returns (db: DB)
    requires place.queue in QUEUES
    ensures 0 in db.steps && db.steps[0].status.Queued? && db.steps[0].attempt == 0 && db.steps[0].oom == 0
    ensures 1 in db.steps && db.steps[1].status.Queued? && db.steps[0].kind == db.steps[1].kind == "image"
    ensures Run(EMPTY, OneOomSoFar(place)) == RequeueStep(CountOomStep(Claim(db, {0}), 0, 1), 0, 1)
  {
    var acts := OneOomSoFar(place);
    TwoStepsEnqueued(place, acts[0].specs, acts[0].placed);
    FourActions(EMPTY, acts[0], acts[1], acts[2], acts[3]);
    db := EnqueueRun(EMPTY, 0, acts[0].specs, acts[0].placed);
  }

  lemma OneOomState(place: Placement)
    requires place.queue in QUEUES
    ensures var db := Run(EMPTY, OneOomSoFar(place));
            && 0 in db.steps && db.steps[0].status.Queued? && db.steps[0].oom == 1 && db.steps[0].kind == "image"
            && 1 in db.steps && db.steps[1].status.Queued? && db.steps[1].kind == "image"
  {
    var db := OneOomActions(place);
    CountedOnce(db, Claim(db, {0}), CountOomStep(Claim(db, {0}), 0, 1));
  }

  /** The last attempt of a job on these steps: the first one fails, and the second
      stays in the queue though there is no further attempt. */
  lemma SecondOomStrandsTheNext(place: Placement, w: Worker)
    requires place.queue in QUEUES && "image" in w.kinds
    requires w.opts == Opts(true, 3, 3) && forall s, k :: w.outcome(s, k) == OutOfMemory
    ensures var db := Run(EMPTY, OneOomSoFar(place));
            && LastGpuJob(db, [0, 1], w) && IsQueued(db, 0) && IsQueued(db, 1) && db.steps[0].oom == 1
            && var (end, err) := Dispatched(db, [0, 1], w, NoError);
               err.StopChunk? && 0 in end.steps && end.steps[0].status.Failed? && IsQueued(end, 1)
  {
    var db, ids := Run(EMPTY, OneOomSoFar(place)), [0, 1];
    OneOomState(place);
    assert Reachable(db);
    StoppedJob(db, ids, w);
    FirstOomRequeues(db, 0, w);
    ClaimAndRunChanges(db, 0, w, 1);
  }
}
