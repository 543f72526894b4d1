/** The fence: the compare-and-set on a step's attempt is the only thing that
    keeps a zombie worker's result out, and it suffices. */
module Fence {
  import opened Transition
  import opened Graph
  import opened Protocol
  import opened DependencySafety

  /** The writes by which a worker ends an attempt. */
  predicate IsWrite(a: Action) {
    a.CommitDone? || a.CommitFailed? || a.Requeue?
  }

  predicate AcceptedWrite(db: DB, a: Action, id: StepId, attempt: nat) {
    IsWrite(a) && a.id == id && a.attempt == attempt && Owns(db, id, attempt)
  }

  /** `a` hands `id` to a worker. */
  predicate HandsOut(db: DB, a: Action, id: StepId) {
    a.ClaimSteps? && id in Claimable(db, a.ids)
  }

  /** How one action may change one existing row. */
  ghost predicate LegalChange(db: DB, a: Action, next: DB, s: StepId)
    requires s in db.steps
  {
    && s in next.steps
    && var r, n := db.steps[s], next.steps[s];
    && (n.status == r.status || CanTransition(r.status, n.status))
    && n.attempt == r.attempt + (if HandsOut(db, a, s) then 1 else 0)
    && (n.status.Running? <==> HandsOut(db, a, s) || StillRuns(db, a, s))
    && (Terminal(r.status) && n.status != r.status ==> a == Retry(s) && !r.status.Done?)
  }

  /** A running step keeps running unless this very action ends its attempt. */
  ghost predicate StillRuns(db: DB, a: Action, s: StepId)
    requires s in db.steps
  {
    && db.steps[s].status.Running?
    && !AcceptedWrite(db, a, s, db.steps[s].attempt)
    && !(a.ResetStale? && s in a.ids)
    && !Cancels(db, a, s)
  }

  /** A user's cancellation reaches `s`. */
  predicate Cancels(db: DB, a: Action, s: StepId)
    requires s in db.steps
  {
    || (a.CancelStep? && a.id == s)
    || (a.CancelScope? && s in a.ids)
    || (a.CancelRun? && a.run == db.steps[s].run && a.run in db.runs && db.runs[a.run].Active?)
    || (a.SupersedeRun? && a.run == db.steps[s].run && a.run in db.runs && db.runs[a.run].Active? && a.newRun in db.runs)
  }

  lemma DoneIsLegal(db: DB, a: Action, s: StepId)
    requires a.CommitDone? && db.deps.Keys == db.steps.Keys && Acyclic(db.deps) && s in db.steps
    ensures LegalChange(db, a, Apply(db, a), s)
  {
    if Owns(db, a.id, a.attempt) {
      NoSelfEdge(db.deps, a.id);
      FinishedRowAt(db, a.id, s);
      RollupTouchesRunsOnly(AfterFinish(db, a.id), db.steps[a.id].run);
    }
  }

  lemma FailIsLegal(db: DB, a: Action, s: StepId)
    requires a.CommitFailed? && s in db.steps
    ensures LegalChange(db, a, Apply(db, a), s)
  {
    if Owns(db, a.id, a.attempt) {
      var failed := Move(db, {a.id}, Running, Failed);
      RollupTouchesRunsOnly(Move(failed, Downstream(failed, a.id), Pending, Canceled), db.steps[a.id].run);
    }
  }

  lemma EnqueueIsLegal(db: DB, a: Action, s: StepId)
    requires a.Enqueue? && db.deps.Keys == db.steps.Keys && s in db.steps
    ensures LegalChange(db, a, Apply(db, a), s)
  {
    if Enqueueable(db, a.run, a.specs, a.placed) { EnqueueExtends(db, a.run, a.specs, a.placed); }
  }

  lemma OtherIsLegal(db: DB, a: Action, s: StepId)
    requires !a.Enqueue? && !a.CommitDone? && !a.CommitFailed? && s in db.steps
    ensures LegalChange(db, a, Apply(db, a), s)
  {
  }

  /** Every status change of every action is one the transition table lists, an
      attempt number grows only by a claim, a step stops running only by its own
      worker's write, a stale reset or a cancellation, and a terminal step moves
      only when a user retries it. */
  lemma EveryChangeIsLegal(db: DB, a: Action, s: StepId)
    requires db.deps.Keys == db.steps.Keys && Acyclic(db.deps) && s in db.steps
    ensures LegalChange(db, a, Apply(db, a), s)
  {
    if a.Enqueue? { EnqueueIsLegal(db, a, s); }
    else if a.CommitDone? { DoneIsLegal(db, a, s); }
    else if a.CommitFailed? { FailIsLegal(db, a, s); }
    else { OtherIsLegal(db, a, s); }
  }

  /** A step no action has created yet starts unclaimed. */
  lemma NewStepIsUnclaimed(db: DB, a: Action, s: StepId)
    requires db.deps.Keys == db.steps.Keys && s !in db.steps && s in Apply(db, a).steps
    ensures Apply(db, a).steps[s].attempt == 0 && !Apply(db, a).steps[s].status.Running?
  {
    if a.Enqueue? {
      EnqueueExtends(db, a.run, a.specs, a.placed);
      ExtendsStartsFresh(db, Apply(db, a), a.run, a.specs, a.placed, s);
    } else if a.CommitDone? {
      DoneKeepsKeys(db, a);
    } else {
      QuietAction(db, a);
    }
  }

  lemma DoneKeepsKeys(db: DB, a: Action)
    requires a.CommitDone?
    ensures Apply(db, a).steps.Keys == db.steps.Keys
  {
    if Owns(db, a.id, a.attempt) {
      RollupTouchesRunsOnly(FanIn(Move(db, {a.id}, Running, Done), a.id), db.steps[a.id].run);
    }
  }

  // ---- Whole runs ----------------------------------------------------------

  /** Attempt `k` of `id` was handed out and is over. */
  predicate Spent(db: DB, id: StepId, k: nat) {
    && id in db.steps
    && (db.steps[id].attempt > k || (db.steps[id].attempt == k && !db.steps[id].status.Running?))
  }

  lemma {:induction false} SpentStaysSpent(acts: seq<Action>, i: nat, j: nat, id: StepId, k: nat)
    requires i <= j <= |acts| && Spent(Run(EMPTY, acts[..i]), id, k)
    ensures Spent(Run(EMPTY, acts[..j]), id, k)
    decreases j - i
  {
    if i < j {
      RunStep(EMPTY, acts, i);
      RunIsSafe(acts[..i]);
      EveryChangeIsLegal(Run(EMPTY, acts[..i]), acts[i], id);
      SpentStaysSpent(acts, i + 1, j, id, k);
    }
  }

  /** With any interleaving of zombies, resets, retries and cancellations, each
      attempt of each step has at most one accepted done, failed or requeue. */
  lemma AtMostOneAcceptedWrite(acts: seq<Action>, i: nat, j: nat, id: StepId, k: nat)
    requires i < |acts| && j < |acts|
    requires AcceptedWrite(Run(EMPTY, acts[..i]), acts[i], id, k)
    requires AcceptedWrite(Run(EMPTY, acts[..j]), acts[j], id, k)
    ensures i == j
  {
    if i < j { WriteSpends(acts, i, j, id, k); }
    if j < i { WriteSpends(acts, j, i, id, k); }
  }

  lemma WriteSpends(acts: seq<Action>, i: nat, j: nat, id: StepId, k: nat)
    requires i < j <= |acts| && AcceptedWrite(Run(EMPTY, acts[..i]), acts[i], id, k)
    ensures Spent(Run(EMPTY, acts[..j]), id, k)
  {
    RunStep(EMPTY, acts, i);
    RunIsSafe(acts[..i]);
    EveryChangeIsLegal(Run(EMPTY, acts[..i]), acts[i], id);
    SpentStaysSpent(acts, i + 1, j, id, k);
  }

  /** Action `i` is the claim that produced attempt `k` of `id`. */
  ghost predicate ClaimOf(acts: seq<Action>, i: nat, id: StepId, k: nat)
    requires i < |acts|
  {
    var db := Run(EMPTY, acts[..i]);
    HandsOut(db, acts[i], id) && db.steps[id].attempt + 1 == k
  }

  lemma OwnershipStartsWithClaim(db: DB, a: Action, id: StepId, k: nat)
    requires db.deps.Keys == db.steps.Keys && Acyclic(db.deps) && Owns(Apply(db, a), id, k)
    ensures id in db.steps
    ensures if HandsOut(db, a, id) then db.steps[id].attempt + 1 == k else Owns(db, id, k)
  {
    if id !in db.steps {
      NewStepIsUnclaimed(db, a, id);
      assert false;
    }
    EveryChangeIsLegal(db, a, id);
  }

  lemma OwnedOneActionEarlier(acts: seq<Action>, i: nat, id: StepId, k: nat)
    requires i < |acts| && Owns(Run(EMPTY, acts[..i + 1]), id, k)
    ensures ClaimOf(acts, i, id, k) || Owns(Run(EMPTY, acts[..i]), id, k)
  {
    RunStep(EMPTY, acts, i);
    RunIsSafe(acts[..i]);
    OwnershipStartsWithClaim(Run(EMPTY, acts[..i]), acts[i], id, k);
  }

  /** A worker that owns attempt `k` got it from a claim and has owned it without
      a break ever since. */
  lemma {:induction false} OwnedSinceItsClaim(acts: seq<Action>, j: nat, id: StepId, k: nat) returns (i: nat)
    requires j <= |acts| && Owns(Run(EMPTY, acts[..j]), id, k)
    ensures i < j && ClaimOf(acts, i, id, k)
    ensures forall m :: i < m <= j ==> Owns(Run(EMPTY, acts[..m]), id, k)
    decreases j
  {
    assert j > 0;
    i := j - 1;
    OwnedOneActionEarlier(acts, i, id, k);
    if !ClaimOf(acts, i, id, k) {
      i := OwnedSinceItsClaim(acts, i, id, k);
    }
  }

  lemma {:induction false} AttemptNeverFalls(acts: seq<Action>, i: nat, j: nat, id: StepId)
    requires i <= j <= |acts| && id in Run(EMPTY, acts[..i]).steps
    ensures id in Run(EMPTY, acts[..j]).steps
    ensures Run(EMPTY, acts[..i]).steps[id].attempt <= Run(EMPTY, acts[..j]).steps[id].attempt
    decreases j - i
  {
    if i < j {
      RunStep(EMPTY, acts, i);
      RunIsSafe(acts[..i]);
      EveryChangeIsLegal(Run(EMPTY, acts[..i]), acts[i], id);
      AttemptNeverFalls(acts, i + 1, j, id);
    }
  }

  /** Two claims never hand out the same attempt. */
  lemma OneClaimPerAttempt(acts: seq<Action>, i: nat, j: nat, id: StepId, k: nat)
    requires i < |acts| && j < |acts| && ClaimOf(acts, i, id, k) && ClaimOf(acts, j, id, k)
    ensures i == j
  {
    if i < j { ClaimRaises(acts, i, j, id); }
    if j < i { ClaimRaises(acts, j, i, id); }
  }

  lemma ClaimRaises(acts: seq<Action>, i: nat, j: nat, id: StepId)
    requires i < j <= |acts| && HandsOut(Run(EMPTY, acts[..i]), acts[i], id)
    ensures id in Run(EMPTY, acts[..j]).steps
    ensures Run(EMPTY, acts[..i]).steps[id].attempt < Run(EMPTY, acts[..j]).steps[id].attempt
  {
    RunStep(EMPTY, acts, i);
    RunIsSafe(acts[..i]);
    EveryChangeIsLegal(Run(EMPTY, acts[..i]), acts[i], id);
    AttemptNeverFalls(acts, i + 1, j, id);
  }

  /** An accepted write comes from the worker its attempt's only claim produced,
      with no other claim, reset or cancellation of the step in between. */
  lemma WriteComesFromItsClaim(acts: seq<Action>, j: nat, id: StepId, k: nat) returns (i: nat)
    requires j < |acts| && AcceptedWrite(Run(EMPTY, acts[..j]), acts[j], id, k)
    ensures i < j && ClaimOf(acts, i, id, k)
    ensures forall m :: i < m <= j ==> Owns(Run(EMPTY, acts[..m]), id, k)
    ensures forall m :: 0 <= m < |acts| && ClaimOf(acts, m, id, k) ==> m == i
  {
    i := OwnedSinceItsClaim(acts, j, id, k);
    forall m | 0 <= m < |acts| && ClaimOf(acts, m, id, k) ensures m == i {
      OneClaimPerAttempt(acts, m, i, id, k);
    }
  }

  /** A worker whose step was reclaimed, canceled or finished changes nothing: no
      row, no counter of a dependent, no run status. */
  lemma ZombieWriteIsInert(acts: seq<Action>, i: nat, j: nat, id: StepId, k: nat)
    requires i < j < |acts| && ClaimOf(acts, i, id, k)
    requires exists m :: i < m <= j && !Owns(Run(EMPTY, acts[..m]), id, k)
    requires IsWrite(acts[j]) && acts[j].id == id && acts[j].attempt == k
    ensures Run(EMPTY, acts[..j + 1]) == Run(EMPTY, acts[..j])
  {
    RunStep(EMPTY, acts, j);
    if Owns(Run(EMPTY, acts[..j]), id, k) {
      var c := WriteComesFromItsClaim(acts, j, id, k);
      OneClaimPerAttempt(acts, c, i, id, k);
    }
  }
}
