/** Progress: a run whose steps no user cancels never gets stuck. It is active
    exactly while some step is open, an active run always has a step a worker can
    move, and it closes as failed exactly when a step failed. */
module NoDeadlock {
  import opened Transition
  import opened Graph
  import opened GraphValidator
  import opened Protocol
  import opened DependencySafety
  import opened Fence

  predicate Broken(s: Status) {
    s.Failed? || s.Canceled?
  }

  /** No pending step waits for one that will never finish on its own. */
  ghost predicate Unblocked(db: DB) {
    forall s, d :: Edge(db.deps, s, d) && s in db.steps && d in db.steps && db.steps[s].status.Pending? ==>
                     !Broken(db.steps[d].status)
  }

  /** The status of a run says what its steps say. */
  predicate AgreesOn(db: DB, run: RunId)
    requires run in db.runs
  {
    match db.runs[run]
    case Active => HasOpen(db, run)
    case RunDone => !HasOpen(db, run) && !HasFailed(db, run)
    case RunFailed => !HasOpen(db, run) && HasFailed(db, run)
    case _ => false
  }

  ghost predicate AllAgree(db: DB) {
    forall run :: run in db.runs ==> AgreesOn(db, run)
  }

  ghost predicate Healthy(db: DB) {
    Unblocked(db) && AllAgree(db)
  }

  /** The actions of workers and the reconciler, user retries, and enqueues of at
      least one step: everything but user cancellations. */
  predicate Unattended(a: Action) {
    match a
    case Enqueue(run, specs, placed) => specs != []
    case CancelStep(_) => false
    case CancelRun(_) => false
    case SupersedeRun(_, _) => false
    case CancelScope(_) => false
    case _ => true
  }

  ghost predicate AllUnattended(acts: seq<Action>) {
    forall a :: a in acts ==> Unattended(a)
  }

  // ---- Actions that close no step ------------------------------------------

  /** Open steps stay open, no step becomes pending, failed or canceled, and the
      only steps reopened are in active runs. */
  ghost predicate Reopens(db: DB, next: DB) {
    && next.steps.Keys == db.steps.Keys && next.deps == db.deps && next.runs == db.runs
    && forall s :: s in db.steps ==>
                     var was, now := db.steps[s].status, next.steps[s].status;
                     && next.steps[s].run == db.steps[s].run
                     && (now.Pending? ==> was.Pending?)
                     && (Broken(now) ==> now == was)
                     && (!Terminal(was) ==> !Terminal(now))
                     && (now != was && Terminal(was) ==>
                           db.steps[s].run in db.runs && db.runs[db.steps[s].run].Active?)
                     && (now.Done? ==> was.Done?)
  }

  lemma ReopensAgrees(db: DB, next: DB, run: RunId)
    requires Reopens(db, next) && run in db.runs && AgreesOn(db, run)
    ensures AgreesOn(next, run)
  {
    if db.runs[run].Active? {
      var s :| s in db.steps && db.steps[s].run == run && !Terminal(db.steps[s].status);
      assert !Terminal(next.steps[s].status);
    } else {
      forall s | s in next.steps && next.steps[s].run == run ensures next.steps[s].status == db.steps[s].status {
        assert Terminal(db.steps[s].status);
      }
      if HasFailed(db, run) {
        var s :| s in db.steps && db.steps[s].run == run && db.steps[s].status.Failed?;
        assert next.steps[s].status.Failed?;
      }
    }
  }

  lemma ReopensUnblocked(db: DB, next: DB)
    requires Shape(db) && Shape(next) && Unblocked(db) && Reopens(db, next)
    ensures Unblocked(next)
  {
    forall s, d | Edge(next.deps, s, d) && next.steps[s].status.Pending? ensures !Broken(next.steps[d].status) {
      assert Edge(db.deps, s, d);
    }
  }

  lemma ReopensKeepsHealthy(db: DB, next: DB)
    requires Shape(db) && Shape(next) && Healthy(db) && Reopens(db, next)
    ensures Healthy(next)
  {
    forall run | run in next.runs ensures AgreesOn(next, run) {
      ReopensAgrees(db, next, run);
    }
    ReopensUnblocked(db, next);
  }

  lemma ReopeningAction(db: DB, a: Action)
    requires Unattended(a) && !a.Enqueue? && !a.CommitDone? && !a.CommitFailed?
    ensures Reopens(db, Apply(db, a))
  {
  }

  // ---- Commits and the rollup ----------------------------------------------

  /** `next` differs from `db` only in steps of `run`. */
  ghost predicate OnlyIn(db: DB, next: DB, run: RunId) {
    && next.steps.Keys == db.steps.Keys && next.deps == db.deps && next.runs == db.runs
    && forall s :: s in db.steps ==>
                     && next.steps[s].run == db.steps[s].run
                     && (db.steps[s].run != run ==> next.steps[s].status == db.steps[s].status)
  }

  lemma OtherRunsAgree(db: DB, next: DB, run: RunId, other: RunId)
    requires OnlyIn(db, next, run) && other != run && other in db.runs && AgreesOn(db, other)
    ensures AgreesOn(next, other)
  {
    forall s | s in db.steps && db.steps[s].run == other ensures next.steps[s].status == db.steps[s].status {
    }
    if HasOpen(db, other) {
      var s :| s in db.steps && db.steps[s].run == other && !Terminal(db.steps[s].status);
      assert !Terminal(next.steps[s].status);
    }
    if HasFailed(db, other) {
      var s :| s in db.steps && db.steps[s].run == other && db.steps[s].status.Failed?;
      assert next.steps[s].status.Failed?;
    }
  }

  lemma RollupOf(db: DB, run: RunId, r: RunId)
    requires r in db.runs && run in db.runs && db.runs[run].Active?
    requires r == run || AgreesOn(db, r)
    ensures r in Rollup(db, run).runs && AgreesOn(Rollup(db, run), r)
  {
    RollupTouchesRunsOnly(db, run);
    var next := Rollup(db, run);
    assert HasOpen(next, r) == HasOpen(db, r);
    assert HasFailed(next, r) == HasFailed(db, r);
  }

  /** After a commit in an active run, the rollup leaves every run in agreement. */
  lemma CommitAgrees(db: DB, next: DB, run: RunId)
    requires run in db.runs && db.runs[run].Active? && OnlyIn(db, next, run)
    requires AllAgree(db)
    ensures AllAgree(Rollup(next, run))
  {
    RollupTouchesRunsOnly(next, run);
    forall r | r in Rollup(next, run).runs ensures AgreesOn(Rollup(next, run), r) {
      if r != run { OtherRunsAgree(db, next, run, r); }
      RollupOf(next, run, r);
    }
  }

  lemma RunOfOpenStepIsActive(db: DB, id: StepId)
    requires Shape(db) && Healthy(db) && id in db.steps && !Terminal(db.steps[id].status)
    ensures db.steps[id].run in db.runs && db.runs[db.steps[id].run].Active?
  {
    assert HasOpen(db, db.steps[id].run);
    assert AgreesOn(db, db.steps[id].run);
  }

  lemma FinishesOnlyIn(db: DB, id: StepId)
    requires Shape(db) && id in db.steps && db.steps[id].status.Running?
    ensures OnlyIn(db, AfterFinish(db, id), db.steps[id].run)
    ensures forall s :: s in db.steps ==>
                          && (AfterFinish(db, id).steps[s].status.Pending? ==> db.steps[s].status.Pending?)
                          && (Broken(AfterFinish(db, id).steps[s].status) ==> Broken(db.steps[s].status))
  {
    NoSelfEdge(db.deps, id);
    FinishedRows(db, id);
  }

  lemma FinishUnblocked(db: DB, id: StepId)
    requires Shape(db) && Unblocked(db) && id in db.steps && db.steps[id].status.Running?
    ensures Unblocked(AfterFinish(db, id))
  {
    var next := AfterFinish(db, id);
    FinishesOnlyIn(db, id);
    forall s, d | Edge(next.deps, s, d) && s in next.steps && d in next.steps && next.steps[s].status.Pending?
      ensures !Broken(next.steps[d].status)
    {
      assert Edge(db.deps, s, d);
    }
  }

  lemma DoneKeepsHealthy(db: DB, id: StepId, attempt: nat)
    requires Shape(db) && Healthy(db) && Owns(db, id, attempt)
    ensures Healthy(DoneStep(db, id, attempt))
  {
    RunOfOpenStepIsActive(db, id);
    FinishesOnlyIn(db, id);
    FinishUnblocked(db, id);
    CommitAgrees(db, AfterFinish(db, id), db.steps[id].run);
    RollupTouchesRunsOnly(AfterFinish(db, id), db.steps[id].run);
  }

  // ---- Failure and the cascade ---------------------------------------------

  /** The tables after a failed commit, before the cascade. */
  function Failing(db: DB, id: StepId): DB {
    Move(db, {id}, Running, Failed)
  }

  /** The tables after the cascade, before the rollup. */
  ghost function Cascaded(db: DB, id: StepId): DB {
    Move(Failing(db, id), Downstream(Failing(db, id), id), Pending, Canceled)
  }

  lemma {:induction false} ChainStaysInRun(db: DB, p: seq<StepId>, from: StepId, k: nat)
    requires k < |p| && p[0] == from && from in db.steps
    requires forall i :: 1 <= i < |p| ==> Edge(db.deps, p[i], p[i - 1])
    requires forall s, d :: Edge(db.deps, s, d) ==> s in db.steps && d in db.steps && db.steps[s].run == db.steps[d].run
    ensures p[k] in db.steps && db.steps[p[k]].run == db.steps[from].run
  {
    if k > 0 {
      ChainStaysInRun(db, p, from, k - 1);
      assert Edge(db.deps, p[k], p[k - 1]);
    }
  }

  lemma DownstreamInRun(db: DB, from: StepId, s: StepId)
    requires from in db.steps && PendingReach(db, from, s)
    requires forall s, d :: Edge(db.deps, s, d) ==> s in db.steps && d in db.steps && db.steps[s].run == db.steps[d].run
    ensures s in db.steps && db.steps[s].run == db.steps[from].run
  {
    var p :| PendingChain(db, p, from, s);
    ChainStaysInRun(db, p, from, |p| - 1);
  }

  lemma CascadeOnlyIn(db: DB, id: StepId)
    requires Shape(db) && id in db.steps
    ensures OnlyIn(db, Cascaded(db, id), db.steps[id].run)
  {
    var failed := Failing(db, id);
    forall s | s in Downstream(failed, id) ensures db.steps[s].run == db.steps[id].run {
      forall a, b | Edge(failed.deps, a, b)
        ensures a in failed.steps && b in failed.steps && failed.steps[a].run == failed.steps[b].run
      {
        assert Edge(db.deps, a, b);
      }
      DownstreamInRun(failed, id, s);
    }
  }

  lemma CascadeUnblocks(db: DB, id: StepId)
    requires Shape(db) && Unblocked(db) && id in db.steps && db.steps[id].status.Running?
    ensures Cascaded(db, id).deps == db.deps && Cascaded(db, id).steps.Keys == db.steps.Keys
    ensures Unblocked(Cascaded(db, id))
  {
    var failed, next := Failing(db, id), Cascaded(db, id);
    forall s, d | Edge(next.deps, s, d) && next.steps[s].status.Pending? ensures !Broken(next.steps[d].status) {
      assert Edge(db.deps, s, d);
      assert !PendingReach(failed, id, s);
      if d == id || PendingReach(failed, id, d) {
        ReachExtends(failed, id, d, s);
        assert false;
      }
    }
  }

  lemma FailKeepsHealthy(db: DB, id: StepId, attempt: nat)
    requires Shape(db) && Healthy(db) && Owns(db, id, attempt)
    requires Shape(FailStep(db, id, attempt))
    ensures Healthy(FailStep(db, id, attempt))
  {
    RunOfOpenStepIsActive(db, id);
    CascadeOnlyIn(db, id);
    CascadeUnblocks(db, id);
    CommitAgrees(db, Cascaded(db, id), db.steps[id].run);
    RollupTouchesRunsOnly(Cascaded(db, id), db.steps[id].run);
  }

  /** A step that depends on an unfinished step was never released. */
  lemma WaitingIsUnreleased(db: DB, s: StepId, d: StepId)
    requires Safe(db) && Edge(db.deps, s, d) && !IsDone(db, d)
    ensures s in db.steps && !Released(db.steps[s].status)
  {
    if Released(db.steps[s].status) { ReleasedHasDoneDependencies(db, s, d); }
  }

  ghost predicate Waits(db: DB) {
    forall s, d :: Edge(db.deps, s, d) && !IsDone(db, d) ==> s in db.steps && !Released(db.steps[s].status)
  }

  lemma SafeWaits(db: DB)
    requires Safe(db)
    ensures Waits(db)
  {
    forall s, d | Edge(db.deps, s, d) && !IsDone(db, d) ensures s in db.steps && !Released(db.steps[s].status) {
      WaitingIsUnreleased(db, s, d);
    }
  }

  lemma {:induction false} DependentsAreUnreleased(db: DB, w: seq<StepId>, k: nat)
    requires Waits(db)
    requires |w| >= 2 && Walk(db.deps, w) && k < |w| - 1 && !IsDone(db, w[|w| - 1])
    ensures w[k] in db.steps && !Released(db.steps[w[k]].status)
    decreases |w| - k
  {
    if k + 1 < |w| - 1 { DependentsAreUnreleased(db, w, k + 1); }
    assert Edge(db.deps, w[k], w[k + 1]);
  }

  /** Every step on the way from a pending step down to a running one is pending. */
  lemma {:induction false} BetweenIsPending(db: DB, w: seq<StepId>, k: nat)
    requires Shape(db) && Unblocked(db) && Waits(db)
    requires |w| >= 2 && Walk(db.deps, w) && k < |w| - 1
    requires w[|w| - 1] in db.steps && db.steps[w[|w| - 1]].status.Running?
    requires w[0] in db.steps && db.steps[w[0]].status.Pending?
    ensures w[k] in db.steps && db.steps[w[k]].status.Pending?
  {
    DependentsAreUnreleased(db, w, k);
    if k > 0 {
      BetweenIsPending(db, w, k - 1);
      assert Edge(db.deps, w[k - 1], w[k - 1 + 1]);
    }
  }

  /** A walk of pending steps down to `id`, read backwards, is what the cascade
      follows. */
  lemma WalkIsPendingChain(db: DB, w: seq<StepId>, id: StepId)
    requires |w| >= 2 && Walk(db.deps, w) && w[|w| - 1] == id
    requires forall k :: 0 <= k < |w| - 1 ==> w[k] in db.steps && db.steps[w[k]].status.Pending?
    ensures PendingReach(db, id, w[0])
  {
    var n := |w| - 1;
    var p := seq(|w|, i requires 0 <= i < |w| => w[n - i]);
    forall i | 1 <= i < |p|
      ensures Edge(db.deps, p[i], p[i - 1]) && p[i] in db.steps && db.steps[p[i]].status.Pending?
    {
      assert Edge(db.deps, w[n - i], w[n - i + 1]);
    }
    assert PendingChain(db, p, id, w[0]);
  }

  lemma FailStepRow(db: DB, id: StepId, attempt: nat, s: StepId)
    requires Owns(db, id, attempt) && s in db.steps
    requires PendingReach(Failing(db, id), id, s) && db.steps[s].status.Pending?
    ensures s in FailStep(db, id, attempt).steps && FailStep(db, id, attempt).steps[s].status.Canceled?
  {
    RollupTouchesRunsOnly(Cascaded(db, id), db.steps[id].run);
  }

  /** The cascade reaches every pending step that depends on the failed one,
      directly or through other steps: none is left waiting for it. */
  lemma CascadeReachesEveryPendingDescendant(db: DB, id: StepId, attempt: nat, w: seq<StepId>)
    requires Safe(db) && Healthy(db) && Owns(db, id, attempt)
    requires |w| >= 2 && Walk(db.deps, w) && w[|w| - 1] == id
    requires w[0] in db.steps && db.steps[w[0]].status.Pending?
    ensures w[0] in FailStep(db, id, attempt).steps && FailStep(db, id, attempt).steps[w[0]].status.Canceled?
  {
    var failed := Failing(db, id);
    SafeWaits(db);
    forall k | 0 <= k < |w| - 1 ensures w[k] in failed.steps && failed.steps[w[k]].status.Pending? {
      BetweenIsPending(db, w, k);
    }
    WalkIsPendingChain(failed, w, id);
    FailStepRow(db, id, attempt, w[0]);
  }

  // ---- Enqueue -------------------------------------------------------------

  lemma ExtendsAgrees(db: DB, next: DB, run: RunId, specs: seq<StepSpec>, placed: map<StepId, Placement>, r: RunId)
    requires Extends(db, next, run, specs, placed) && run !in db.runs && r in next.runs
    requires forall s :: s in db.steps ==> db.steps[s].run in db.runs
    requires r in db.runs ==> AgreesOn(db, r)
    ensures AgreesOn(next, r) <==> r != run || specs != []
  {
    forall s | s in next.steps ensures if s in db.steps then next.steps[s] == db.steps[s] else next.steps[s].run == run {
      if s !in db.steps { ExtendsStartsFresh(db, next, run, specs, placed, s); }
    }
    if r == run {
      if specs != [] {
        var s := specs[0].id;
        ExtendsStartsFresh(db, next, run, specs, placed, s);
        assert next.steps[s].run == run && !Terminal(next.steps[s].status);
      }
    } else {
      assert HasOpen(next, r) == HasOpen(db, r) by {
        if HasOpen(db, r) {
          var s :| s in db.steps && db.steps[s].run == r && !Terminal(db.steps[s].status);
          assert s in next.steps && next.steps[s].run == r && !Terminal(next.steps[s].status);
        }
      }
      assert HasFailed(next, r) == HasFailed(db, r) by {
        if HasFailed(db, r) {
          var s :| s in db.steps && db.steps[s].run == r && db.steps[s].status.Failed?;
          assert s in next.steps && next.steps[s].run == r && next.steps[s].status.Failed?;
        }
      }
    }
  }

  lemma ExtendsUnblocked(db: DB, next: DB, run: RunId, specs: seq<StepSpec>, placed: map<StepId, Placement>)
    requires Shape(db) && Shape(next) && Unblocked(db) && Extends(db, next, run, specs, placed)
    requires run !in db.runs
    ensures Unblocked(next)
  {
    forall s, d | Edge(next.deps, s, d) && next.steps[s].status.Pending? ensures !Broken(next.steps[d].status) {
      if s in db.steps {
        assert Edge(db.deps, s, d);
      } else {
        ExtendsStartsFresh(db, next, run, specs, placed, s);
        assert next.steps[d].run == run;
        if d !in db.steps { ExtendsStartsFresh(db, next, run, specs, placed, d); }
      }
    }
  }

  /** An accepted request keeps the tables healthy exactly when it has a step: a
      run without steps is active, and no commit will ever close it. */
  lemma EnqueueHealthyIffNonEmpty(db: DB, run: RunId, specs: seq<StepSpec>, placed: map<StepId, Placement>)
    requires Safe(db) && Healthy(db) && Enqueueable(db, run, specs, placed)
    ensures Safe(EnqueueRun(db, run, specs, placed))
    ensures Healthy(EnqueueRun(db, run, specs, placed)) <==> specs != []
  {
    var next := EnqueueRun(db, run, specs, placed);
    EnqueueKeepsSafe(db, run, specs, placed);
    EnqueueExtends(db, run, specs, placed);
    ExtendsUnblocked(db, next, run, specs, placed);
    ExtendsAgrees(db, next, run, specs, placed, run);
    forall r | r in next.runs && (r != run || specs != []) ensures AgreesOn(next, r) {
      ExtendsAgrees(db, next, run, specs, placed, r);
    }
  }

  ghost predicate NoSteps(db: DB, run: RunId) {
    forall s :: s in db.steps ==> db.steps[s].run != run
  }

  /** An active run without steps. */
  ghost predicate EmptyRun(db: DB, run: RunId) {
    run in db.runs && db.runs[run].Active? && NoSteps(db, run)
  }

  /** A user ends `run`. */
  predicate Ends(db: DB, a: Action, run: RunId) {
    a == CancelRun(run) || (a.SupersedeRun? && a.run == run && a.newRun in db.runs)
  }

  lemma RollupOfOther(db: DB, run: RunId, other: RunId)
    requires run in db.runs && run != other
    ensures run in Rollup(db, other).runs && Rollup(db, other).runs[run] == db.runs[run]
  {
  }

  lemma EmptyStaysEmpty(db: DB, next: DB, run: RunId)
    requires NoSteps(db, run) && next.steps.Keys == db.steps.Keys
    requires forall s :: s in db.steps ==> next.steps[s].run == db.steps[s].run
    ensures NoSteps(next, run)
  {
  }

  lemma RollupSparesEmptyRun(db: DB, mid: DB, run: RunId, r: RunId)
    requires EmptyRun(db, run) && r != run && mid.runs == db.runs && mid.steps.Keys == db.steps.Keys
    requires forall s :: s in db.steps ==> mid.steps[s].run == db.steps[s].run
    ensures EmptyRun(Rollup(mid, r), run)
  {
    EmptyStaysEmpty(db, mid, run);
    RollupTouchesRunsOnly(mid, r);
    RollupOfOther(mid, run, r);
    EmptyStaysEmpty(mid, Rollup(mid, r), run);
  }

  lemma DoneSparesEmptyRun(db: DB, id: StepId, attempt: nat, run: RunId)
    requires Safe(db) && EmptyRun(db, run)
    ensures EmptyRun(DoneStep(db, id, attempt), run)
  {
    if Owns(db, id, attempt) {
      NoSelfEdge(db.deps, id);
      FinishedRows(db, id);
      RollupSparesEmptyRun(db, AfterFinish(db, id), run, db.steps[id].run);
    }
  }

  lemma FailSparesEmptyRun(db: DB, id: StepId, attempt: nat, run: RunId)
    requires EmptyRun(db, run)
    ensures EmptyRun(FailStep(db, id, attempt), run)
  {
    if Owns(db, id, attempt) {
      RollupSparesEmptyRun(db, Cascaded(db, id), run, db.steps[id].run);
    }
  }

  lemma EnqueueSparesEmptyRun(db: DB, run: RunId, other: RunId, specs: seq<StepSpec>, placed: map<StepId, Placement>)
    requires Safe(db) && EmptyRun(db, run)
    ensures EmptyRun(EnqueueRun(db, other, specs, placed), run)
  {
    if Enqueueable(db, other, specs, placed) {
      var next := EnqueueRun(db, other, specs, placed);
      EnqueueExtends(db, other, specs, placed);
      forall s | s in next.steps ensures next.steps[s].run != run {
        if s !in db.steps { ExtendsStartsFresh(db, next, other, specs, placed, s); }
      }
    }
  }

  lemma SweepSparesEmptyRun(db: DB, a: Action, run: RunId)
    requires EmptyRun(db, run) && !a.Enqueue? && !a.CommitDone? && !a.CommitFailed?
    ensures EmptyRun(Apply(db, a), run) <==> !Ends(db, a, run)
  {
    EmptyStaysEmpty(db, Apply(db, a), run);
  }

  /** A run without steps stays active through every action but a user's canceling
      or superseding it, which ends it. */
  lemma EmptyRunEndsIff(db: DB, a: Action, run: RunId)
    requires Safe(db) && EmptyRun(db, run)
    ensures EmptyRun(Apply(db, a), run) <==> !Ends(db, a, run)
  {
    if a.Enqueue? {
      EnqueueSparesEmptyRun(db, run, a.run, a.specs, a.placed);
    } else if a.CommitDone? {
      DoneSparesEmptyRun(db, a.id, a.attempt, run);
    } else if a.CommitFailed? {
      FailSparesEmptyRun(db, a.id, a.attempt, run);
    } else {
      SweepSparesEmptyRun(db, a, run);
    }
  }

  /** A request without steps starts such a run. */
  lemma EmptyRequestStartsEmptyRun(db: DB, run: RunId, placed: map<StepId, Placement>)
    requires Safe(db) && Enqueueable(db, run, [], placed)
    ensures EmptyRun(EnqueueRun(db, run, [], placed), run)
  {
    var next := EnqueueRun(db, run, [], placed);
    EnqueueExtends(db, run, [], placed);
    forall s | s in next.steps ensures next.steps[s].run != run {
      assert s in db.steps && db.steps[s].run in db.runs;
    }
  }

  /** No worker, reconciler, retry or other enqueue ever closes such a run. */
  lemma {:induction false} EmptyRunStaysActive(acts: seq<Action>, i: nat, run: RunId)
    requires i <= |acts| && EmptyRun(Run(EMPTY, acts[..i]), run)
    requires forall k :: i <= k < |acts| ==> !acts[k].CancelRun? && !acts[k].SupersedeRun?
    ensures EmptyRun(Run(EMPTY, acts), run)
    decreases |acts| - i
  {
    if i == |acts| {
      assert acts[..i] == acts;
    } else {
      RunStep(EMPTY, acts, i);
      RunIsSafe(acts[..i]);
      EmptyRunEndsIff(Run(EMPTY, acts[..i]), acts[i], run);
      EmptyRunStaysActive(acts, i + 1, run);
    }
  }

  // ---- Every run -----------------------------------------------------------

  lemma ApplyKeepsHealthy(db: DB, a: Action)
    requires Safe(db) && Healthy(db) && Unattended(a)
    ensures Safe(Apply(db, a)) && Healthy(Apply(db, a))
  {
    ApplyKeepsSafe(db, a);
    if a.Enqueue? {
      if Enqueueable(db, a.run, a.specs, a.placed) { EnqueueHealthyIffNonEmpty(db, a.run, a.specs, a.placed); }
    } else if a.CommitDone? {
      if Owns(db, a.id, a.attempt) { DoneKeepsHealthy(db, a.id, a.attempt); }
    } else if a.CommitFailed? {
      if Owns(db, a.id, a.attempt) { FailKeepsHealthy(db, a.id, a.attempt); }
    } else {
      ReopeningAction(db, a);
      ReopensKeepsHealthy(db, Apply(db, a));
    }
  }

  lemma {:induction false} RunIsHealthy(acts: seq<Action>)
    requires AllUnattended(acts)
    ensures Safe(Run(EMPTY, acts)) && Healthy(Run(EMPTY, acts))
  {
    RunIsSafe(acts);
    if acts != [] {
      RunIsHealthy(acts[..|acts| - 1]);
      ApplyKeepsHealthy(Run(EMPTY, acts[..|acts| - 1]), acts[|acts| - 1]);
    }
  }

  /** A step of `run` that a worker holds or will be handed. */
  predicate IsLiveIn(db: DB, run: RunId, s: StepId) {
    s in db.steps && db.steps[s].run == run && Live(db.steps[s].status)
  }

  lemma UnfinishedDependency(db: DB, s: StepId) returns (d: StepId)
    requires Shape(db) && Counted(db) && Gated(db) && s in db.steps && db.steps[s].status.Pending?
    ensures d in db.steps && Edge(db.deps, s, d) && !db.steps[d].status.Done?
  {
    assert Unfinished(db, s) != {};
    d :| d in Unfinished(db, s);
    assert Edge(db.deps, s, d);
  }

  /** A pending step none of whose dependencies is pending has a live one. */
  lemma WaitsForLiveStep(db: DB, s: StepId) returns (d: StepId)
    requires Safe(db) && Unblocked(db) && s in db.steps && db.steps[s].status.Pending?
    ensures Edge(db.deps, s, d)
    ensures IsLiveIn(db, db.steps[s].run, d) || (d in db.steps && db.steps[d].run == db.steps[s].run && db.steps[d].status.Pending?)
  {
    d := UnfinishedDependency(db, s);
  }

  /** The descent: if every open step of a run were pending, the pending steps
      would wait for each other for ever, which an acyclic graph rules out. */
  lemma PendingHasLiveAncestor(db: DB, run: RunId, waiting: set<StepId>) returns (s: StepId)
    requires Safe(db) && Unblocked(db) && waiting != {}
    requires forall w :: w in waiting <==> w in db.steps && db.steps[w].run == run && db.steps[w].status.Pending?
    ensures IsLiveIn(db, run, s)
  {
    var first := AcyclicHasMinimal(db.deps, waiting);
    s := WaitsForLiveStep(db, first);
    assert s !in waiting;
  }

  lemma ActiveHasLiveStep(db: DB, run: RunId) returns (s: StepId)
    requires Safe(db) && Healthy(db) && run in db.runs && db.runs[run].Active?
    ensures IsLiveIn(db, run, s)
  {
    assert AgreesOn(db, run);
    s := OpenHasLiveStep(db, run);
  }

  lemma OpenHasLiveStep(db: DB, run: RunId) returns (s: StepId)
    requires Safe(db) && Unblocked(db) && HasOpen(db, run)
    ensures IsLiveIn(db, run, s)
  {
    s :| s in db.steps && db.steps[s].run == run && !Terminal(db.steps[s].status);
    if !Live(db.steps[s].status) {
      var waiting := set w | w in db.steps && db.steps[w].run == run && db.steps[w].status.Pending?;
      assert s in waiting;
      s := PendingHasLiveAncestor(db, run, waiting);
    }
  }

  /** No deadlock, over every sequence of enqueues, claims, commits, failures,
      requeues, resets, sweeps and retries. */
  lemma NeverStuck(acts: seq<Action>, run: RunId)
    requires AllUnattended(acts)
    requires run in Run(EMPTY, acts).runs
    ensures Run(EMPTY, acts).runs[run].Active? <==> HasOpen(Run(EMPTY, acts), run)
    ensures Run(EMPTY, acts).runs[run].Active? ==> exists s :: IsLiveIn(Run(EMPTY, acts), run, s)
    ensures !Run(EMPTY, acts).runs[run].Active? ==>
              Run(EMPTY, acts).runs[run] == if HasFailed(Run(EMPTY, acts), run) then RunFailed else RunDone
  {
    RunIsHealthy(acts);
    var db := Run(EMPTY, acts);
    assert AgreesOn(db, run);
    if db.runs[run].Active? {
      var s := ActiveHasLiveStep(db, run);
    }
  }

  // ---- A run can always be driven to its end -------------------------------

  ghost function OpenSteps(db: DB, run: RunId): set<StepId> {
    set s | s in db.steps && db.steps[s].run == run && !Terminal(db.steps[s].status)
  }

  lemma {:induction false} RunAppend(db: DB, a: seq<Action>, b: seq<Action>)
    ensures Run(db, a + b) == Run(Run(db, a), b)
    decreases |b|
  {
    if b == [] {
      assert a + b == a;
    } else {
      var init, last := b[..|b| - 1], b[|b| - 1];
      RunAppend(db, a, init);
      assert b == init + [last] && a + b == (a + init) + [last];
      RunLast(Run(db, a), init, last);
      RunLast(db, a + init, last);
    }
  }

  lemma ClaimOne(db: DB, s: StepId)
    requires s in db.steps && db.steps[s].status.Queued?
    ensures Owns(Apply(db, ClaimSteps({s})), s, db.steps[s].attempt + 1)
    ensures Apply(db, ClaimSteps({s})).steps[s].run == db.steps[s].run
    ensures Apply(db, ClaimSteps({s})).runs == db.runs
    ensures forall r :: OpenSteps(Apply(db, ClaimSteps({s})), r) == OpenSteps(db, r)
  {
    var next := Apply(db, ClaimSteps({s}));
    forall r ensures OpenSteps(next, r) == OpenSteps(db, r) {
    }
  }

  lemma FinishesClosesOne(db: DB, next: DB, id: StepId, r: RunId)
    requires Finishes(db, next, id)
    ensures OpenSteps(next, r) == OpenSteps(db, r) - {id}
  {
  }

  lemma DoneClosesOne(db: DB, s: StepId, attempt: nat)
    requires Shape(db) && Owns(db, s, attempt)
    ensures OpenSteps(Apply(db, CommitDone(s, attempt)), db.steps[s].run) == OpenSteps(db, db.steps[s].run) - {s}
    ensures Apply(db, CommitDone(s, attempt)).runs.Keys == db.runs.Keys
  {
    NoSelfEdge(db.deps, s);
    FinishedRows(db, s);
    var mid := AfterFinish(db, s);
    FinishesClosesOne(db, mid, s, db.steps[s].run);
    RollupTouchesRunsOnly(mid, db.steps[s].run);
    assert OpenSteps(Rollup(mid, db.steps[s].run), db.steps[s].run) == OpenSteps(mid, db.steps[s].run);
  }

  /** `a` takes `db` to `next`. */
  ghost predicate Leads(db: DB, a: Action, next: DB) {
    forall more :: Run(db, [a] + more) == Run(next, more)
  }

  lemma ApplyLeads(db: DB, a: Action)
    ensures Leads(db, a, Apply(db, a))
  {
    forall more ensures Run(db, [a] + more) == Run(Apply(db, a), more) {
      RunAppend(db, [a], more);
      RunLast(db, [], a);
      assert [] + [a] == [a];
    }
  }

  /** Handing a queued step to a worker. */
  lemma ClaimLeads(db: DB, run: RunId, s: StepId) returns (a: Action, next: DB)
    requires Safe(db) && Healthy(db) && run in db.runs && s in db.steps && db.steps[s].run == run && db.steps[s].status.Queued?
    ensures a.ClaimSteps? && Leads(db, a, next) && Safe(next) && Healthy(next) && run in next.runs
    ensures s in next.steps && next.steps[s].run == run && next.steps[s].status.Running?
    ensures OpenSteps(next, run) == OpenSteps(db, run)
  {
    a := ClaimSteps({s});
    next := Apply(db, a);
    ClaimOne(db, s);
    ApplyKeepsHealthy(db, a);
    ApplyLeads(db, a);
  }

  /** Completing a running step. */
  lemma CommitLeads(db: DB, run: RunId, s: StepId) returns (a: Action, next: DB)
    requires Safe(db) && Healthy(db) && run in db.runs && s in db.steps && db.steps[s].run == run && db.steps[s].status.Running?
    ensures a.CommitDone? && Leads(db, a, next) && Safe(next) && Healthy(next) && run in next.runs
    ensures OpenSteps(next, run) < OpenSteps(db, run)
  {
    a := CommitDone(s, db.steps[s].attempt);
    next := Apply(db, a);
    assert s in OpenSteps(db, run);
    DoneClosesOne(db, s, db.steps[s].attempt);
    ApplyKeepsHealthy(db, a);
    ApplyLeads(db, a);
  }

  /** Workers alone can finish an active run: claim and complete whatever is live,
      and it closes after finitely many steps. */
  lemma {:induction false} CanFinish(db: DB, run: RunId) returns (more: seq<Action>)
    requires Safe(db) && Healthy(db) && run in db.runs
    ensures forall a :: a in more ==> a.ClaimSteps? || a.CommitDone?
    ensures run in Run(db, more).runs && !Run(db, more).runs[run].Active?
    decreases OpenSteps(db, run), 1
  {
    more := [];
    if db.runs[run].Active? {
      var s := ActiveHasLiveStep(db, run);
      if db.steps[s].status.Running? {
        more := FinishRunning(db, run, s);
      } else {
        var a, next := ClaimLeads(db, run, s);
        var rest := FinishRunning(next, run, s);
        more := [a] + rest;
      }
    }
  }

  lemma {:induction false} FinishRunning(db: DB, run: RunId, s: StepId) returns (more: seq<Action>)
    requires Safe(db) && Healthy(db) && run in db.runs && s in db.steps && db.steps[s].run == run && db.steps[s].status.Running?
    ensures forall a :: a in more ==> a.ClaimSteps? || a.CommitDone?
    ensures run in Run(db, more).runs && !Run(db, more).runs[run].Active?
    decreases OpenSteps(db, run), 0
  {
    var a, next := CommitLeads(db, run, s);
    var rest := CanFinish(next, run);
    more := [a] + rest;
  }

  /** From any state that actions without user cancellations lead to, claims and done
      commits close any run. */
  lemma RunCanFinish(acts: seq<Action>, run: RunId) returns (more: seq<Action>)
    requires AllUnattended(acts) && run in Run(EMPTY, acts).runs
    ensures forall a :: a in more ==> a.ClaimSteps? || a.CommitDone?
    ensures run in Run(EMPTY, acts + more).runs && !Run(EMPTY, acts + more).runs[run].Active?
  {
    RunIsHealthy(acts);
    more := CanFinish(Run(EMPTY, acts), run);
    RunAppend(EMPTY, acts, more);
  }

  // ---- User cancellation of one step ---------------------------------------

  /** Some pending step waits for `id`. */
  ghost predicate HasPendingDependent(db: DB, id: StepId) {
    exists s :: s in db.steps && Edge(db.deps, s, id) && db.steps[s].status.Pending?
  }

  lemma CancelOpenSteps(db: DB, id: StepId, r: RunId)
    requires id in db.steps && !Terminal(db.steps[id].status)
    ensures OpenSteps(Cancel(db, {id}), r) == OpenSteps(db, r) - {id}
    ensures HasFailed(Cancel(db, {id}), r) == HasFailed(db, r)
  {
    var next := Cancel(db, {id});
    if HasFailed(db, r) {
      var s :| s in db.steps && db.steps[s].run == r && db.steps[s].status.Failed?;
      assert next.steps[s].status.Failed?;
    }
  }

  lemma OpenIffNonEmpty(db: DB, r: RunId)
    ensures HasOpen(db, r) <==> OpenSteps(db, r) != {}
  {
    if HasOpen(db, r) {
      var s :| s in db.steps && db.steps[s].run == r && !Terminal(db.steps[s].status);
      assert s in OpenSteps(db, r);
    }
    if OpenSteps(db, r) != {} {
      var s :| s in OpenSteps(db, r);
    }
  }

  lemma CancelAgreesOn(db: DB, id: StepId, r: RunId)
    requires Shape(db) && Healthy(db) && id in db.steps && !Terminal(db.steps[id].status) && r in db.runs
    ensures AgreesOn(Cancel(db, {id}), r) <==> r != db.steps[id].run || OpenSteps(db, r) != {id}
  {
    RunOfOpenStepIsActive(db, id);
    CancelOpenSteps(db, id, r);
    OpenIffNonEmpty(db, r);
    OpenIffNonEmpty(Cancel(db, {id}), r);
    assert AgreesOn(db, r);
    if r == db.steps[id].run { assert id in OpenSteps(db, r); }
    else { assert id !in OpenSteps(db, r); }
  }

  lemma CancelUnblocked(db: DB, id: StepId)
    requires Shape(db) && Unblocked(db) && id in db.steps && !Terminal(db.steps[id].status)
    ensures Cancel(db, {id}).deps == db.deps && Cancel(db, {id}).steps.Keys == db.steps.Keys
    ensures Unblocked(Cancel(db, {id})) <==> !HasPendingDependent(db, id)
  {
    var next := Cancel(db, {id});
    NoSelfEdge(db.deps, id);
    if HasPendingDependent(db, id) {
      var s :| s in db.steps && Edge(db.deps, s, id) && db.steps[s].status.Pending?;
      assert Edge(next.deps, s, id) && next.steps[s].status.Pending? && next.steps[id].status.Canceled?;
    } else {
      forall s, d | Edge(next.deps, s, d) && next.steps[s].status.Pending? ensures !Broken(next.steps[d].status) {
        assert Edge(db.deps, s, d) && s in db.steps && db.steps[s].status.Pending?;
      }
    }
  }

  lemma CancelAgreesEverywhere(db: DB, id: StepId)
    requires Shape(db) && Healthy(db) && id in db.steps && !Terminal(db.steps[id].status)
    ensures Cancel(db, {id}).runs == db.runs
    ensures AllAgree(Cancel(db, {id})) <==> OpenSteps(db, db.steps[id].run) != {id}
  {
    CancelAgreesOn(db, id, db.steps[id].run);
    forall r | r in db.runs && r != db.steps[id].run ensures AgreesOn(Cancel(db, {id}), r) {
      CancelAgreesOn(db, id, r);
    }
  }

  lemma HealthyParts(db: DB, unblocked: bool, agree: bool)
    requires unblocked == Unblocked(db) && agree == AllAgree(db)
    ensures Healthy(db) <==> unblocked && agree
  {
  }

  lemma CancelUnblockedIs(db: DB, id: StepId) returns (next: DB, unblocked: bool)
    requires Shape(db) && Unblocked(db) && id in db.steps && !Terminal(db.steps[id].status)
    ensures next == Apply(db, CancelStep(id)) && unblocked == Unblocked(next)
    ensures unblocked <==> !HasPendingDependent(db, id)
  {
    next := Cancel(db, {id});
    CancelUnblocked(db, id);
    unblocked := Unblocked(next);
  }

  lemma CancelAgreesIs(db: DB, id: StepId) returns (next: DB, agree: bool)
    requires Shape(db) && Healthy(db) && id in db.steps && !Terminal(db.steps[id].status)
    ensures next == Apply(db, CancelStep(id)) && agree == AllAgree(next)
    ensures agree <==> OpenSteps(db, db.steps[id].run) != {id}
  {
    next := Cancel(db, {id});
    CancelAgreesEverywhere(db, id);
    agree := AllAgree(next);
  }

  /** Canceling one step neither cascades nor rolls up. The run keeps its promise
      exactly when nothing pending waits for the step and it is not the run's
      last open step. */
  lemma CancelStepHealthyIff(db: DB, id: StepId)
    requires Shape(db) && Healthy(db) && id in db.steps && !Terminal(db.steps[id].status)
    ensures Healthy(Apply(db, CancelStep(id))) <==>
            !HasPendingDependent(db, id) && OpenSteps(db, db.steps[id].run) != {id}
  {
    var next, unblocked := CancelUnblockedIs(db, id);
    var _, agree := CancelAgreesIs(db, id);
    HealthyParts(next, unblocked, agree);
  }

  /** What that costs: until a user retries the canceled step, a step that
      depends on it is never handed to a worker, whatever else happens. */
  lemma {:induction false} StrandedUntilRetried(acts: seq<Action>, i: nat, j: nat, id: StepId, s: StepId)
    requires i <= j <= |acts|
    requires id in Run(EMPTY, acts[..i]).steps && Run(EMPTY, acts[..i]).steps[id].status.Canceled?
    requires forall k :: i <= k < j ==> acts[k] != Retry(id)
    requires Edge(Run(EMPTY, acts[..j]).deps, s, id)
    ensures s in Run(EMPTY, acts[..j]).steps && !Released(Run(EMPTY, acts[..j]).steps[s].status)
    decreases j - i
  {
    if i == j {
      RunIsSafe(acts[..j]);
      WaitingIsUnreleased(Run(EMPTY, acts[..j]), s, id);
    } else {
      StaysCanceled(acts, i, id);
      StrandedUntilRetried(acts, i + 1, j, id, s);
    }
  }

  lemma StaysCanceled(acts: seq<Action>, i: nat, id: StepId)
    requires i < |acts| && acts[i] != Retry(id)
    requires id in Run(EMPTY, acts[..i]).steps && Run(EMPTY, acts[..i]).steps[id].status.Canceled?
    ensures id in Run(EMPTY, acts[..i + 1]).steps && Run(EMPTY, acts[..i + 1]).steps[id].status.Canceled?
  {
    RunStep(EMPTY, acts, i);
    RunIsSafe(acts[..i]);
    EveryChangeIsLegal(Run(EMPTY, acts[..i]), acts[i], id);
  }
}
