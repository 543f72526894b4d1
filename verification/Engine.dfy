/** The engine as it runs: the tables as fields, each operation a method proved
    to do to them exactly what its protocol action says. */
module Engine {
  import opened Transition
  import opened Graph
  import opened GraphValidator
  import opened Protocol
  import opened Jobs
  import Dispatch

  /** How many rows one reconciler transaction touches. */
  const RECONCILE_BATCH_LIMIT: nat := 500

  datatype RetryResult = Retried | NotFound | RetryNotAllowed

  datatype EnqueueResult = Enqueued | InvalidGraph(err: GraphError) | Refused

  /** `s` waited before and is in the queue now. */
  ghost predicate NewlyQueued(was: map<StepId, Row>, now: map<StepId, Row>, s: StepId) {
    s in was && s in now && was[s].status.Pending? && now[s].status.Queued?
  }

  ghost predicate RowsMove(was: map<StepId, Row>, now: map<StepId, Row>) {
    was.Keys == now.Keys && forall s :: s in was ==> Dispatch.Moves(was[s].status, now[s].status)
  }

  /** `s` waited before and has been in the queue since. */
  ghost predicate QueuedSince(was: map<StepId, Row>, now: map<StepId, Row>, s: StepId) {
    s in was && s in now && was[s].status.Pending? && !now[s].status.Pending? && !now[s].status.Canceled?
  }

  /** `jobs` hold exactly the steps that were put in the queue between, each once. */
  ghost predicate Delivered(was: map<StepId, Row>, now: map<StepId, Row>, jobs: seq<Job>) {
    && NoRepeats(JobIds(jobs)) && was.Keys == now.Keys
    && (forall s :: s in JobIds(jobs) <==> QueuedSince(was, now, s))
    && (forall s :: s in was && !was[s].status.Pending? ==> !now[s].status.Pending?)
  }

  lemma QueuedSinceOneMore(was: map<StepId, Row>, mid: map<StepId, Row>, now: map<StepId, Row>, s: StepId)
    requires was.Keys == mid.Keys && RowsMove(mid, now)
    requires s in was && !was[s].status.Pending? ==> !mid[s].status.Pending?
    ensures QueuedSince(was, now, s) <==> QueuedSince(was, mid, s) || NewlyQueued(mid, now, s)
    ensures !(QueuedSince(was, mid, s) && NewlyQueued(mid, now, s))
    ensures s in was && !was[s].status.Pending? ==> !now[s].status.Pending?
  {
    if s in mid { assert Dispatch.Moves(mid[s].status, now[s].status); }
  }

  lemma NoRepeatsJoin(a: seq<StepId>, b: seq<StepId>)
    requires NoRepeats(a) && NoRepeats(b) && forall s :: s in a ==> s !in b
    ensures NoRepeats(a + b)
  {
    forall i, j | 0 <= i < j < |a + b| ensures (a + b)[i] != (a + b)[j] {
      if i < |a| <= j { assert a[i] in a && b[j - |a|] in b; }
    }
  }

  lemma DeliveredOneMore(was: map<StepId, Row>, mid: map<StepId, Row>, now: map<StepId, Row>, jobs: seq<Job>, more: seq<Job>)
    requires Delivered(was, mid, jobs) && RowsMove(mid, now) && NoRepeats(JobIds(more))
    requires forall s :: s in JobIds(more) <==> NewlyQueued(mid, now, s)
    ensures Delivered(was, now, jobs + more)
  {
    JobIdsAppend(jobs, more);
    var a, b := JobIds(jobs), JobIds(more);
    forall s
      ensures s in a + b <==> QueuedSince(was, now, s)
      ensures s in a ==> s !in b
      ensures s in was && !was[s].status.Pending? ==> !now[s].status.Pending?
    {
      QueuedSinceOneMore(was, mid, now, s);
    }
    NoRepeatsJoin(a, b);
  }

  lemma ClaimedRowsMove(before: DB, mid: DB, after: DB, id: StepId, succeeds: bool, more: seq<Job>)
    requires mid == Claim(before, {id}) && Dispatch.AllMove(mid, after, succeeds)
    requires if succeeds then forall s :: s in JobIds(more) <==> NewlyQueued(mid.steps, after.steps, s) else more == []
    ensures RowsMove(before.steps, after.steps)
    ensures forall s :: s in JobIds(more) <==> NewlyQueued(before.steps, after.steps, s)
  {
    forall s | s in before.steps ensures Dispatch.Moves(before.steps[s].status, after.steps[s].status) {
      assert Dispatch.Moves(mid.steps[s].status, after.steps[s].status);
    }
    forall s ensures NewlyQueued(mid.steps, after.steps, s) <==> NewlyQueued(before.steps, after.steps, s) {
    }
  }

  lemma ClaimedRow(before: DB, mid: DB, id: StepId)
    requires id in before.steps && before.steps[id].status.Queued? && mid == Claim(before, {id})
    ensures id in mid.steps && mid.steps[id].attempt == before.steps[id].attempt + 1 && mid.steps[id].oom == before.steps[id].oom
  {
  }

  /** A claim and the writes of its outcome, and the jobs they inserted. */
  lemma WorkedStep(before: DB, mid: DB, after: DB, id: StepId, w: Dispatch.Worker, oom: nat, more: seq<Job>)
    requires id in before.steps && before.steps[id].status.Queued? && mid == Claim(before, {id}) && oom == before.steps[id].oom
    requires var k := before.steps[id].attempt + 1;
             && after == Run(mid, Dispatch.WritesOf(id, k, w.outcome(id, k), oom, w.opts))
             && if w.outcome(id, k).Succeeded? then forall s :: s in JobIds(more) <==> NewlyQueued(mid.steps, after.steps, s)
                else more == []
    ensures after == Dispatch.ClaimAndRun(before, id, w) && RowsMove(before.steps, after.steps)
    ensures forall s :: s in JobIds(more) <==> NewlyQueued(before.steps, after.steps, s)
  {
    var k := before.steps[id].attempt + 1;
    Dispatch.RunMoves(mid, id, k, w.outcome(id, k), oom, w.opts);
    ClaimedRowsMove(before, mid, after, id, w.outcome(id, k).Succeeded?, more);
    Dispatch.ClaimAndRunIs(before, id, w, mid, Dispatch.WritesOf(id, k, w.outcome(id, k), oom, w.opts));
  }

  /** The request's step `s` waits for nothing. */
  ghost predicate StartsReady(specs: seq<StepSpec>, s: StepId) {
    exists i :: 0 <= i < |specs| && specs[i].id == s && specs[i].dependsOn == []
  }

  /** `items` are the new rows of `specs`, in order. */
  ghost predicate NewItems(items: seq<Item>, specs: seq<StepSpec>) {
    |items| == |specs| && forall i :: 0 <= i < |specs| ==>
                                        && items[i].id == specs[i].id
                                        && items[i].row.status == (if specs[i].dependsOn == [] then Queued else Pending)
  }

  /** What the new row of every spec so far passed. */
  ghost predicate AllAccepted(db: DB, specs: seq<StepSpec>, placed: map<StepId, Placement>) {
    forall s :: s in specs ==> RowAccepted(db, s, placed)
  }

  lemma NewItemsGrow(specs: seq<StepSpec>, i: nat, items: seq<Item>, row: Row)
    requires i < |specs| && NewItems(items, specs[..i])
    requires row.status == if specs[i].dependsOn == [] then Queued else Pending
    ensures NewItems(items + [Item(specs[i].id, row)], specs[..i + 1])
  {
  }

  lemma AcceptedGrow(db: DB, specs: seq<StepSpec>, i: nat, placed: map<StepId, Placement>)
    requires i < |specs| && AllAccepted(db, specs[..i], placed) && RowAccepted(db, specs[i], placed)
    ensures AllAccepted(db, specs[..i + 1], placed)
  {
    assert specs[..i + 1] == specs[..i] + [specs[i]];
  }

  lemma RequestGrows(run: RunId, specs: seq<StepSpec>, i: nat, placed: map<StepId, Placement>)
    requires i < |specs| && forall s :: s in specs[..i + 1] ==> s.id in placed
    ensures forall s :: s in specs[..i] ==> s.id in placed
    ensures specs[i].id in placed
    ensures NewRows(run, specs[..i + 1], placed)
            == NewRows(run, specs[..i], placed)[specs[i].id := NewRow(run, specs[i], placed[specs[i].id])]
    ensures DepsOf(specs[..i + 1]) == DepsOf(specs[..i])[specs[i].id := DepSet(specs[i])]
  {
    var more := specs[..i + 1];
    assert more[i] == specs[i] && more[..i] == specs[..i];
    assert specs[i] in more;
    forall s | s in specs[..i] ensures s.id in placed {
      assert s in more;
    }
  }

  lemma NewItemsQueued(items: seq<Item>, specs: seq<StepSpec>)
    requires NewItems(items, specs) && DistinctIds(specs)
    ensures DistinctItems(items)
    ensures forall s :: IsQueued(items, s) <==> StartsReady(specs, s)
  {
    forall s ensures IsQueued(items, s) <==> StartsReady(specs, s) {
      if IsQueued(items, s) {
        var it :| it in items && it.id == s && it.row.status.Queued?;
        var i :| 0 <= i < |items| && items[i] == it;
        assert specs[i].dependsOn == [];
      }
      if StartsReady(specs, s) {
        var i :| 0 <= i < |specs| && specs[i].id == s && specs[i].dependsOn == [];
        assert items[i] in items;
      }
    }
  }

  method HasRepeats(ids: seq<StepId>) returns (repeats: bool)
    ensures repeats <==> !NoRepeats(ids)
  {
    var seen: set<StepId> := {};
    for i := 0 to |ids|
      invariant NoRepeats(ids[..i])
      invariant forall id :: id in seen <==> id in ids[..i]
    {
      if ids[i] in seen {
        var j :| 0 <= j < i && ids[j] == ids[i];
        return true;
      }
      seen := seen + {ids[i]};
    }
    assert ids[..|ids|] == ids;
    return false;
  }

  ghost predicate CascadeClosed(db: DB, all: set<StepId>, frontier: set<StepId>, id: StepId) {
    forall u, s | u == id || u in all ::
      (u !in frontier && Edge(db.deps, s, u) && s in db.steps && db.steps[s].status.Pending? ==> s in all)
  }

  /** A set that holds every pending dependent of its members holds every step a
      chain of pending dependents leads to. */
  lemma {:induction false} ClosedHoldsChain(db: DB, all: set<StepId>, id: StepId, p: seq<StepId>, k: nat)
    requires CascadeClosed(db, all, {}, id) && 1 <= k < |p| && p[0] == id
    requires forall i :: 1 <= i < |p| ==>
                           Edge(db.deps, p[i], p[i - 1]) && p[i] in db.steps && db.steps[p[i]].status.Pending?
    ensures p[k] in all
  {
    if k > 1 { ClosedHoldsChain(db, all, id, p, k - 1); }
    assert Edge(db.deps, p[k], p[k - 1]);
  }

  lemma ClosedIsDownstream(db: DB, all: set<StepId>, id: StepId)
    requires CascadeClosed(db, all, {}, id) && all <= Downstream(db, id)
    ensures all == Downstream(db, id)
  {
    forall s | s in Downstream(db, id) ensures s in all {
      var p :| PendingChain(db, p, id, s);
      ClosedHoldsChain(db, all, id, p, |p| - 1);
    }
  }

  ghost function PendingSteps(db: DB): set<StepId> {
    set s | s in db.steps && db.steps[s].status.Pending?
  }

  ghost function Resettable(db: DB, stale: set<StepId>): set<StepId> {
    set s | s in stale && s in db.steps && db.steps[s].status.Running?
  }

  lemma ResettableAfter(db: DB, reset: set<StepId>, stale: set<StepId>)
    ensures Resettable(Move(db, reset, Running, Queued), stale) == Resettable(db, stale) - reset
  {
  }

  /** The jobs hold exactly `steps`, each once. */
  ghost predicate HoldExactly(jobs: seq<Job>, steps: set<StepId>) {
    NoRepeats(JobIds(jobs)) && forall s :: s in JobIds(jobs) <==> s in steps
  }

  lemma HoldBoth(a: seq<Job>, b: seq<Job>, first: set<StepId>, second: set<StepId>)
    requires HoldExactly(a, first) && HoldExactly(b, second) && first !! second
    ensures HoldExactly(a + b, first + second)
  {
    JobIdsAppend(a, b);
    NoRepeatsJoin(JobIds(a), JobIds(b));
  }

  /** Moving a second batch after a first moves both. */
  lemma MoveTwice(db: DB, first: set<StepId>, second: set<StepId>, from: Status, to: Status)
    requires from != to
    ensures Move(Move(db, first, from, to), second, from, to) == Move(db, first + second, from, to)
  {
    var once := Move(db, first, from, to);
    var both, all := Move(once, second, from, to), Move(db, first + second, from, to);
    forall s | s in db.steps ensures both.steps[s] == all.steps[s] {
    }
    assert both.steps == all.steps;
  }

  /** `reset` of the stale running steps of `db` went back to the queue so far, and
      the new jobs hold exactly those. */
  ghost predicate ResetSoFar(db: DB, now: DB, stale: set<StepId>, reset: set<StepId>, more: seq<Job>) {
    reset <= Resettable(db, stale) && now == Move(db, reset, Running, Queued) && HoldExactly(more, reset)
  }

  lemma NoneResetYet(db: DB, stale: set<StepId>)
    ensures ResetSoFar(db, db, stale, {}, [])
  {
    assert Move(db, {}, Running, Queued).steps == db.steps;
  }

  /** One more batch: it was not reset before, and its jobs join the others'. */
  lemma OneMoreBatch(db: DB, mid: DB, now: DB, stale: set<StepId>, reset: set<StepId>, batch: set<StepId>, more: seq<Job>, next: seq<Job>)
    requires ResetSoFar(db, mid, stale, reset, more) && batch <= Resettable(mid, stale)
    requires now == Move(mid, batch, Running, Queued) && HoldExactly(next, batch)
    ensures ResetSoFar(db, now, stale, reset + batch, more + next)
    ensures batch != {} ==> Resettable(db, stale) - (reset + batch) < Resettable(db, stale) - reset
    ensures batch == Resettable(mid, stale) ==> reset + batch == Resettable(db, stale)
  {
    ResettableAfter(db, reset, stale);
    HoldBoth(more, next, reset, batch);
    MoveTwice(db, reset, batch, Running, Queued);
  }

  /** Listing only the steps that are there to move moves the same steps. */
  lemma MoveOnlyHits(db: DB, ids: set<StepId>, hits: set<StepId>, from: Status, to: Status)
    requires hits <= ids
    requires forall s :: s in ids && s in db.steps && db.steps[s].status == from ==> s in hits
    ensures Move(db, ids, from, to) == Move(db, hits, from, to)
  {
    assert Move(db, ids, from, to).steps == Move(db, hits, from, to).steps;
  }

  lemma AllReset(db: DB, now: DB, stale: set<StepId>, reset: set<StepId>, more: seq<Job>)
    requires ResetSoFar(db, now, stale, reset, more) && reset == Resettable(db, stale)
    ensures now == Apply(db, ResetStale(stale)) && HoldExactly(more, Resettable(db, stale))
  {
    MoveOnlyHits(db, stale, reset, Running, Queued);
  }

  class Engine {
    var steps: map<StepId, Row>
    var deps: Deps
    var runs: map<RunId, RunStatus>
    /** The worker jobs inserted so far. */
    var jobs: seq<Job>
    const estimate: string -> int

    constructor (estimate: string -> int)
      ensures State() == EMPTY && jobs == [] && this.estimate == estimate
    {
      steps, deps, runs, jobs := map[], map[], map[], [];
      this.estimate := estimate;
    }

    ghost function State(): DB
      reads this
    {
      DB(steps, deps, runs)
    }

    // ---- Queries -----------------------------------------------------------

    /** The rows of `ids`, in no particular order. */
    method Rows(ids: set<StepId>) returns (rows: seq<Item>)
      ensures DistinctItems(rows)
      ensures forall r :: r in rows <==> r.id in ids && r.id in steps && r.row == steps[r.id]
    {
      rows := [];
      var rest := ids;
      while rest != {}
        invariant rest <= ids && DistinctItems(rows)
        invariant forall r :: r in rows <==> r.id in ids && r.id !in rest && r.id in steps && r.row == steps[r.id]
      {
        var id :| id in rest;
        rest := rest - {id};
        if id in steps {
          rows := rows + [Item(id, steps[id])];
        }
      }
    }

    method GetDependents(ids: set<StepId>) returns (dependents: set<StepId>)
      ensures dependents == Dependents(State(), ids)
    {
      dependents := set s | s in deps && deps[s] * ids != {};
    }

    method DecrementRemainingDeps(ids: set<StepId>) returns (rows: seq<Item>)
      modifies `steps
      ensures State() == Decrement(old(State()), ids)
      ensures forall r :: r in rows <==> r.id in ids && r.id in steps && r.row == steps[r.id]
    {
      steps := map s | s in steps ::
                 if s in ids then steps[s].(remaining := steps[s].remaining - 1) else steps[s];
      rows := Rows(ids);
    }

    method MarkStepsQueued(ids: set<StepId>) returns (rows: seq<Item>)
      modifies `steps
      ensures State() == Move(old(State()), Ready(old(State()), ids), Pending, Queued)
      ensures DistinctItems(rows)
      ensures forall r :: r in rows <==> r.id in Ready(old(State()), ids) && r.id in steps && r.row == steps[r.id]
    {
      var ready := set s | s in ids && s in steps && steps[s].status.Pending? && steps[s].remaining <= 0;
      steps := map s | s in steps ::
                 if s in ready && steps[s].status == Pending then steps[s].(status := Queued) else steps[s];
      rows := Rows(ready);
    }

    method CancelPendingDependents(ids: set<StepId>) returns (canceled: set<StepId>)
      modifies `steps
      ensures State() == Move(old(State()), ids, Pending, Canceled)
      ensures canceled == set s | s in ids && s in old(steps) && old(steps)[s].status.Pending?
    {
      canceled := set s | s in ids && s in steps && steps[s].status.Pending?;
      steps := map s | s in steps ::
                 if s in ids && steps[s].status == Pending then steps[s].(status := Canceled) else steps[s];
    }

    // ---- Claim and commit --------------------------------------------------

    method ClaimSteps(ids: set<StepId>) returns (claimed: seq<Item>)
      modifies `steps
      ensures State() == Apply(old(State()), Action.ClaimSteps(ids))
      ensures DistinctItems(claimed)
      ensures forall r :: r in claimed <==>
                            r.id in Claimable(old(State()), ids) && r.id in steps && r.row == steps[r.id]
    {
      var ready := set s | s in ids && s in steps && steps[s].status.Queued?;
      steps := map s | s in steps ::
                 var r := steps[s];
                 if s in ids && r.status.Queued? then r.(status := Running, attempt := r.attempt + 1) else r;
      claimed := Rows(ready);
    }

    /** Resolves what a finished step unblocks and inserts jobs for it; exactly
        the steps it moves to queued end up in the new jobs, each once. */
    method FanIn(id: StepId) returns (queued: seq<Item>, ghost more: seq<Job>)
      modifies `steps, `jobs
      ensures State() == Protocol.FanIn(old(State()), id)
      ensures jobs == old(jobs) + more && NoRepeats(JobIds(more))
      ensures forall s :: s in JobIds(more) <==> NewlyQueued(old(steps), steps, s)
    {
      queued, more := [], [];
      ghost var db := State();
      var dependents := GetDependents({id});
      if dependents == {} {
        assert Protocol.FanIn(db, id).steps == db.steps;
        return;
      }
      var decremented := DecrementRemainingDeps(dependents);
      ghost var counted := State();
      var ready := {};
      for i := 0 to |decremented|
        invariant ready == set r | r in decremented[..i] && r.row.status.Pending? && r.row.remaining <= 0 :: r.id
      {
        var r := decremented[i];
        assert decremented[..i + 1] == decremented[..i] + [r];
        if r.row.status.Pending? && r.row.remaining <= 0 {
          ready := ready + {r.id};
        }
      }
      assert decremented[..|decremented|] == decremented;
      assert ready == Ready(counted, dependents) by {
        forall s ensures s in ready <==> s in Ready(counted, dependents) {
          if s in Ready(counted, dependents) { assert Item(s, steps[s]) in decremented; }
        }
      }
      if ready == {} {
        assert Move(counted, {}, Pending, Queued).steps == counted.steps;
        return;
      }
      queued := MarkStepsQueued(ready);
      assert Ready(counted, ready) == ready;
      var inserted := EnqueueReadySteps(queued, estimate);
      more := inserted;
      jobs := jobs + inserted;
      QueuedRows(queued, ready, steps);
    }

    /** Breadth-first: cancels the pending dependents of each frontier, which
        become the next frontier, until none is left. */
    method CascadeCancelPendingDependents(failed: StepId) returns (all: set<StepId>)
      modifies `steps
      ensures all == Downstream(old(State()), failed)
      ensures State() == Move(old(State()), Downstream(old(State()), failed), Pending, Canceled)
    {
      ghost var db := State();
      all := {};
      var frontier := {failed};
      assert Move(db, {}, Pending, Canceled).steps == db.steps;
      while frontier != {}
        invariant State() == Move(db, all, Pending, Canceled)
        invariant all <= Downstream(db, failed)
        invariant frontier <= all + {failed}
        invariant CascadeClosed(db, all, frontier, failed)
        decreases PendingSteps(db) - all, frontier
      {
        var dependents := GetDependents(frontier);
        ghost var more := PendingSteps(db) * dependents - all;
        CascadeRound(db, all, frontier, failed, dependents);
        if dependents == {} {
          assert more == {};
          ClosedIsDownstream(db, all, failed);
          return;
        }
        MoveTwice(db, all, dependents, Pending, Canceled);
        MoveOnlyHits(db, all + dependents, all + more, Pending, Canceled);
        var canceled := CancelPendingDependents(dependents);
        assert canceled == more;
        if canceled == {} {
          assert all + more == all;
          ClosedIsDownstream(db, all, failed);
          return;
        }
        all := all + canceled;
        frontier := canceled;
      }
      ClosedIsDownstream(db, all, failed);
    }

    /** Closes the run once none of its steps is open. */
    method RollupRun(run: RunId)
      modifies `runs
      ensures State() == Rollup(old(State()), run)
    {
      var open := set s | s in steps && steps[s].run == run && !Terminal(steps[s].status);
      if open != {} {
        var s :| s in open;
        return;
      }
      assert !HasOpen(State(), run) by {
        forall s | s in steps && steps[s].run == run && !Terminal(steps[s].status) ensures s in open {
        }
      }
      var status := RunDone;
      var failed := set s | s in steps && steps[s].run == run && steps[s].status.Failed?;
      if failed != {} {
        var s :| s in failed;
        status := RunFailed;
      } else {
        forall s | s in steps && steps[s].run == run && steps[s].status.Failed? ensures s in failed {
        }
      }
      if run in runs && runs[run].Active? {
        runs := runs[run := status];
      }
    }

    method CommitFailed(id: StepId, attempt: nat)
      modifies `steps, `runs
      ensures State() == Apply(old(State()), Action.CommitFailed(id, attempt))
    {
      if id !in steps || !steps[id].status.Running? || steps[id].attempt != attempt {
        return;
      }
      var run := steps[id].run;
      ghost var db := State();
      steps := steps[id := steps[id].(status := Failed)];
      assert State().steps == Move(db, {id}, Running, Failed).steps;
      var canceled := CascadeCancelPendingDependents(id);
      RollupRun(run);
    }

    /** Commits a result; an output that cannot be encoded is a failure. */
    method CommitDone(id: StepId, attempt: nat, encodable: bool) returns (ghost more: seq<Job>)
      modifies `steps, `runs, `jobs
      ensures State() == Apply(old(State()), if encodable then Action.CommitDone(id, attempt) else Action.CommitFailed(id, attempt))
      ensures jobs == old(jobs) + more && NoRepeats(JobIds(more)) && (!encodable ==> more == [])
      ensures encodable ==> forall s :: s in JobIds(more) <==> NewlyQueued(old(steps), steps, s)
    {
      more := [];
      if !encodable {
        CommitFailed(id, attempt);
        return;
      }
      if id !in steps || !steps[id].status.Running? || steps[id].attempt != attempt {
        return;
      }
      var run := steps[id].run;
      ghost var db := State();
      steps := steps[id := steps[id].(status := Done)];
      assert State().steps == Move(db, {id}, Running, Done).steps;
      var queued;
      queued, more := FanIn(id);
      RollupRun(run);
    }

    method RequeueForRetry(id: StepId, attempt: nat)
      modifies `steps
      ensures State() == Apply(old(State()), Requeue(id, attempt))
    {
      if id in steps && steps[id].status.Running? && steps[id].attempt == attempt {
        ghost var db := State();
        steps := steps[id := steps[id].(status := Queued)];
        assert steps == Move(db, {id}, Running, Queued).steps;
      }
    }

    /** One retry after a GPU out-of-memory, counted on the step itself; off the
        GPU queue the step fails. */
    method HandleGpuOom(id: StepId, attempt: nat, o: Dispatch.Opts) returns (err: Dispatch.DispatchError)
      requires id in steps
      modifies `steps, `runs
      ensures State() == Run(old(State()), Dispatch.WritesOf(id, attempt, Dispatch.OutOfMemory, old(steps)[id].oom, o))
      ensures err == Dispatch.ErrorOf(Dispatch.OutOfMemory, o)
    {
      ghost var db := State();
      if !o.residency {
        CommitFailed(id, attempt);
        Dispatch.OneWrite(db, Action.CommitFailed(id, attempt));
        return Dispatch.NoError;
      }
      ghost var last := if steps[id].oom == 0 then Requeue(id, attempt) else Action.CommitFailed(id, attempt);
      Dispatch.OomWritesOf(id, attempt, steps[id].oom, o);
      Dispatch.TwoWrites(db, CountOom(id, attempt), last);
      if !steps[id].status.Running? || steps[id].attempt != attempt {
        Dispatch.LateOom(db, id, attempt, last);
        return Dispatch.StopChunk;
      }
      steps := steps[id := steps[id].(oom := steps[id].oom + 1)];
      assert State() == Apply(db, CountOom(id, attempt));
      if steps[id].oom > 1 {
        CommitFailed(id, attempt);
        return Dispatch.StopChunk;
      }
      RequeueForRetry(id, attempt);
      return Dispatch.StopChunk;
    }

    /** Commits what the handler of a claimed step ended with. */
    method RunOne(id: StepId, attempt: nat, outcome: Dispatch.Outcome, o: Dispatch.Opts)
      returns (err: Dispatch.DispatchError, ghost more: seq<Job>)
      requires id in steps
      modifies `steps, `runs, `jobs
      ensures State() == Run(old(State()), Dispatch.WritesOf(id, attempt, outcome, old(steps)[id].oom, o))
      ensures err == Dispatch.ErrorOf(outcome, o)
      ensures jobs == old(jobs) + more && NoRepeats(JobIds(more)) && (!outcome.Succeeded? ==> more == [])
      ensures outcome.Succeeded? ==> forall s :: s in JobIds(more) <==> NewlyQueued(old(steps), steps, s)
    {
      ghost var db := State();
      more := [];
      Dispatch.OneWrite(db, Dispatch.WritesOf(id, attempt, outcome, steps[id].oom, o)[0]);
      match outcome
      case Succeeded =>
        more := CommitDone(id, attempt, true);
        return Dispatch.NoError, more;
      case Unencodable =>
        more := CommitDone(id, attempt, false);
        return Dispatch.NoError, more;
      case Permanent =>
        CommitFailed(id, attempt);
        return Dispatch.NoError, more;
      case OutOfMemory =>
        err := HandleGpuOom(id, attempt, o);
      case Transient =>
        if o.jobMaxAttempts > 0 && o.jobAttempt >= o.jobMaxAttempts {
          CommitFailed(id, attempt);
          return Dispatch.NoError, more;
        }
        RequeueForRetry(id, attempt);
        return Dispatch.RetryJob, more;
    }

    /** Claims one queued step and returns its new attempt. */
    method ClaimOne(id: StepId) returns (attempt: nat)
      requires id in steps && steps[id].status.Queued?
      modifies `steps
      ensures State() == Claim(old(State()), {id}) && id in steps
      ensures attempt == old(steps)[id].attempt + 1 && steps[id].oom == old(steps)[id].oom
    {
      ghost var before := State();
      var claimed := ClaimSteps({id});
      ClaimedRow(before, State(), id);
      attempt := steps[id].attempt;
    }

    /** Claims and works one queued step of a job. */
    method WorkStep(id: StepId, w: Dispatch.Worker) returns (err: Dispatch.DispatchError, ghost more: seq<Job>)
      requires id in steps && steps[id].status.Queued?
      modifies `steps, `runs, `jobs
      ensures State() == Dispatch.ClaimAndRun(old(State()), id, w) && err == Dispatch.ErrorFor(old(State()), id, w)
      ensures jobs == old(jobs) + more && NoRepeats(JobIds(more))
      ensures forall s :: s in JobIds(more) <==> NewlyQueued(old(steps), steps, s)
      ensures RowsMove(old(steps), steps)
    {
      ghost var before := State();
      var attempt := ClaimOne(id);
      ghost var mid := State();
      var outcome := w.outcome(id, attempt);
      err, more := RunOne(id, attempt, outcome, w.opts);
      WorkedStep(before, mid, State(), id, w, before.steps[id].oom, more);
    }

    /** Works the ids of one job in turn; the new jobs hold exactly the steps that
        waited before and were put in the queue on the way, each once. */
    method DispatchJob(ids: seq<StepId>, w: Dispatch.Worker) returns (err: Dispatch.DispatchError, ghost more: seq<Job>)
      modifies `steps, `runs, `jobs
      ensures (State(), err) == Dispatch.Dispatched(old(State()), ids, w, Dispatch.NoError)
      ensures jobs == old(jobs) + more && NoRepeats(JobIds(more))
      ensures forall s :: s in JobIds(more) <==> QueuedSince(old(steps), steps, s)
      ensures forall s :: s in old(steps) && old(steps)[s].status.Queued? ==> s !in JobIds(more)
    {
      ghost var db := State();
      err, more := Dispatch.NoError, [];
      for i := 0 to |ids|
        invariant Dispatch.Dispatched(State(), ids[i..], w, err) == Dispatch.Dispatched(db, ids, w, Dispatch.NoError)
        invariant jobs == old(jobs) + more && Delivered(db.steps, steps, more)
      {
        var id := ids[i];
        assert ids[i..][0] == id && ids[i..][1..] == ids[i + 1..];
        if id !in steps {
          continue;
        }
        if steps[id].kind !in w.kinds {
          return Dispatch.Snooze, more;
        }
        if !steps[id].status.Queued? {
          continue;
        }
        ghost var before := steps;
        var e;
        ghost var next;
        e, next := WorkStep(id, w);
        DeliveredOneMore(db.steps, before, steps, more, next);
        more := more + next;
        if e.StopChunk? {
          return Dispatch.StopChunk, more;
        }
        if err.NoError? {
          err := e;
        }
      }
    }

    // ---- Enqueue -----------------------------------------------------------

    method AcceptRow(s: StepSpec, placed: map<StepId, Placement>) returns (ok: bool)
      ensures ok <==> RowAccepted(State(), s, placed)
    {
      var repeats := HasRepeats(s.dependsOn);
      ok := !(s.id !in placed || placed[s.id].queue !in QUEUES || s.id in steps || s.id in deps
              || !(1 <= ToInt16(s.priority) <= 4) || repeats);
    }

    /** Resolves and checks every row of a request before any is inserted. */
    method BuildRows(run: RunId, specs: seq<StepSpec>, placed: map<StepId, Placement>)
      returns (ok: bool, rows: map<StepId, Row>, edges: Deps, items: seq<Item>)
      requires DistinctIds(specs)
      ensures ok <==> forall s :: s in specs ==> RowAccepted(State(), s, placed)
      ensures ok ==> rows == NewRows(run, specs, placed) && edges == DepsOf(specs)
      ensures ok ==> NewItems(items, specs)
    {
      rows, edges, items := map[], map[], [];
      for i := 0 to |specs|
        invariant AllAccepted(State(), specs[..i], placed)
        invariant rows == NewRows(run, specs[..i], placed) && edges == DepsOf(specs[..i])
        invariant NewItems(items, specs[..i])
      {
        var s := specs[i];
        var accepted := AcceptRow(s, placed);
        if !accepted {
          assert s in specs;
          return false, rows, edges, items;
        }
        AcceptedGrow(State(), specs, i, placed);
        RequestGrows(run, specs, i, placed);
        var row := NewRow(run, s, placed[s.id]);
        NewItemsGrow(specs, i, items, row);
        rows := rows[s.id := row];
        edges := edges[s.id := set d | d in s.dependsOn];
        items := items + [Item(s.id, row)];
      }
      assert specs[..|specs|] == specs;
      ok := true;
    }

    /** Creates a run with its steps and inserts a job for every step that waits
        for nothing; a request that is refused changes nothing. */
    method Enqueue(run: RunId, specs: seq<StepSpec>, placed: map<StepId, Placement>)
      returns (r: EnqueueResult, ghost more: seq<Job>)
      modifies `steps, `deps, `runs, `jobs
      ensures State() == Apply(old(State()), Action.Enqueue(run, specs, placed))
      ensures r.Enqueued? <==> Enqueueable(old(State()), run, specs, placed)
      ensures r.InvalidGraph? <==> !(DistinctIds(specs) && DepsInside(specs) && Acyclic(DepsOf(specs)))
      ensures jobs == old(jobs) + more && NoRepeats(JobIds(more))
      ensures forall s :: s in JobIds(more) <==> r.Enqueued? && StartsReady(specs, s)
    {
      more := [];
      ghost var db := State();
      var err;
      ghost var order;
      err, order := ValidateGraph(specs);
      if !err.Valid? {
        return InvalidGraph(err), more;
      }
      if run in runs {
        return Refused, more;
      }
      var ok, rows, edges, items := BuildRows(run, specs, placed);
      if !ok {
        return Refused, more;
      }
      NewItemsQueued(items, specs);
      steps, deps, runs := steps + rows, deps + edges, runs[run := Active];
      var inserted := EnqueueReadySteps(items, estimate);
      more := inserted;
      jobs := jobs + inserted;
      return Enqueued, more;
    }

    // ---- Users and the reconciler ------------------------------------------

    method RetryStep(id: StepId) returns (r: RetryResult, ghost more: seq<Job>)
      modifies `steps, `jobs
      ensures State() == Apply(old(State()), Retry(id))
      ensures r.Retried? <==> Retryable(old(State()), id)
      ensures r.NotFound? <==> id !in old(steps)
      ensures jobs == old(jobs) + more && NoRepeats(JobIds(more))
      ensures forall s :: s in JobIds(more) <==> s == id && r.Retried?
    {
      more := [];
      if id !in steps {
        return NotFound, more;
      }
      if !((steps[id].status.Failed? || steps[id].status.Canceled?) && steps[id].remaining <= 0
           && steps[id].run in runs && runs[steps[id].run].Active?) {
        return RetryNotAllowed, more;
      }
      steps := steps[id := steps[id].(status := Queued, oom := 0)];
      var rows := [Item(id, steps[id])];
      var inserted := EnqueueReadySteps(rows, estimate);
      assert rows[0] in rows;
      more := inserted;
      jobs := jobs + inserted;
      return Retried, more;
    }

    method CancelStep(id: StepId) returns (found: bool)
      modifies `steps
      ensures State() == Apply(old(State()), Action.CancelStep(id))
      ensures found <==> id in old(steps) && !Terminal(old(steps)[id].status)
    {
      found := id in steps && !Terminal(steps[id].status);
      ghost var db := State();
      if found {
        steps := steps[id := steps[id].(status := Canceled)];
      }
      assert steps == Cancel(db, {id}).steps;
    }

    method CancelRun(run: RunId) returns (found: bool)
      modifies `steps, `runs
      ensures State() == Apply(old(State()), Action.CancelRun(run))
      ensures found <==> run in old(runs) && old(runs)[run].Active?
    {
      found := run in runs && runs[run].Active?;
      if found {
        ghost var db := State();
        runs := runs[run := RunCanceled];
        steps := map s | s in steps ::
                   if steps[s].run == run && !Terminal(steps[s].status) then steps[s].(status := Canceled) else steps[s];
        assert steps == Cancel(db, RunSteps(db, run)).steps;
      }
    }

    /** One transaction of the reset: at most a batch of the running steps among
        `stale` goes back to the queue, each in one new job. */
    method ResetBatch(stale: set<StepId>) returns (batch: set<StepId>, ghost more: seq<Job>)
      modifies `steps, `jobs
      ensures State() == Move(old(State()), batch, Running, Queued)
      ensures batch <= Resettable(old(State()), stale)
      ensures |batch| < RECONCILE_BATCH_LIMIT ==> batch == Resettable(old(State()), stale)
      ensures jobs == old(jobs) + more && NoRepeats(JobIds(more))
      ensures forall s :: s in JobIds(more) <==> s in batch
    {
      ghost var db := State();
      var candidates := set s | s in stale && s in steps && steps[s].status.Running?;
      batch := TakeBatch(candidates, RECONCILE_BATCH_LIMIT);
      steps := map s | s in steps ::
                 if s in batch && steps[s].status == Running then steps[s].(status := Queued) else steps[s];
      var rows := Rows(batch);
      QueuedRows(rows, batch, steps);
      var inserted := EnqueueReadySteps(rows, estimate);
      more := inserted;
      jobs := jobs + inserted;
    }

    /** Moves the running steps among `stale`, whose heartbeats are too old, back to
        the queue, one bounded batch at a time, until a short batch; the new jobs hold
        exactly those, each once. */
    method ResetStaleHeartbeats(stale: set<StepId>) returns (ghost more: seq<Job>)
      modifies `steps, `jobs
      ensures State() == Apply(old(State()), ResetStale(stale))
      ensures jobs == old(jobs) + more && NoRepeats(JobIds(more))
      ensures forall s :: s in JobIds(more) <==> s in Resettable(old(State()), stale)
    {
      ghost var db := State();
      ghost var open := Resettable(db, stale);
      ghost var reset: set<StepId> := {};
      more := [];
      NoneResetYet(db, stale);
      while true
        invariant ResetSoFar(db, State(), stale, reset, more)
        invariant jobs == old(jobs) + more
        decreases open - reset
      {
        ghost var mid := State();
        ghost var next;
        var batch;
        batch, next := ResetBatch(stale);
        OneMoreBatch(db, mid, State(), stale, reset, batch, more, next);
        reset, more := reset + batch, more + next;
        if |batch| < RECONCILE_BATCH_LIMIT {
          AllReset(db, State(), stale, reset, more);
          return;
        }
        assert batch != {};
      }
    }
  }

  /** Up to `limit` members of `s`, fewer only when that is all of them. */
  method TakeBatch(s: set<StepId>, limit: nat) returns (batch: set<StepId>)
    ensures batch <= s && |batch| <= limit
    ensures |batch| < limit ==> batch == s
  {
    batch := {};
    var rest := s;
    while rest != {} && |batch| < limit
      invariant batch <= s && rest == s - batch && |batch| <= limit
      decreases rest
    {
      var x :| x in rest;
      batch := batch + {x};
      rest := rest - {x};
    }
  }

  /** One round of the cascade: the frontier's pending dependents are downstream,
      and once they are added the frontier is closed. */
  lemma CascadeRound(db: DB, all: set<StepId>, frontier: set<StepId>, id: StepId, dependents: set<StepId>)
    requires all <= Downstream(db, id) && frontier <= all + {id} && CascadeClosed(db, all, frontier, id)
    requires dependents == Dependents(db, frontier)
    ensures var more := PendingSteps(db) * dependents - all;
            && all + more <= Downstream(db, id)
            && CascadeClosed(db, all + more, more, id)
            && (more == {} ==> CascadeClosed(db, all, {}, id))
  {
    var more := PendingSteps(db) * dependents - all;
    forall s | s in more ensures s in Downstream(db, id) {
      var u :| u in db.deps[s] * frontier;
      ReachExtends(db, id, u, s);
    }
    forall u, s | (u == id || u in all) && Edge(db.deps, s, u) && s in db.steps && db.steps[s].status.Pending?
      ensures s in all + more
    {
      if u in frontier {
        assert u in db.deps[s] * frontier;
      }
    }
  }

  lemma QueuedRows(rows: seq<Item>, ids: set<StepId>, steps: map<StepId, Row>)
    requires forall r :: r in rows <==> r.id in ids && r.id in steps && r.row == steps[r.id]
    ensures forall s :: IsQueued(rows, s) <==> s in ids && s in steps && steps[s].status.Queued?
  {
    forall s | s in ids && s in steps && steps[s].status.Queued? ensures IsQueued(rows, s) {
      assert Item(s, steps[s]) in rows;
    }
  }
}
