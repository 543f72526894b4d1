/** Dependency safety: over every sequence of actions from empty tables, a step's
    counter is exactly the number of its dependencies that are not done, and a
    step that was ever released has all of them done. */
module DependencySafety {
  import opened Transition
  import opened Graph
  import opened GraphValidator
  import opened Protocol

  ghost function Unfinished(db: DB, s: StepId): set<StepId>
    requires s in db.deps
  {
    set d | d in db.deps[s] && !(d in db.steps && db.steps[d].status.Done?)
  }

  /** A step is released once it has been queued for a worker. */
  predicate Released(s: Status) {
    s.Queued? || s.Running? || s.Done? || s.Failed?
  }

  ghost predicate Shape(db: DB) {
    && db.deps.Keys == db.steps.Keys
    && Closed(db.deps) && Acyclic(db.deps)
    && (forall s :: s in db.steps ==> db.steps[s].run in db.runs)
    && (forall s, d :: Edge(db.deps, s, d) ==> db.steps[s].run == db.steps[d].run)
  }

  ghost predicate Counted(db: DB)
    requires db.deps.Keys == db.steps.Keys
  {
    forall s :: s in db.steps ==> db.steps[s].remaining == |Unfinished(db, s)|
  }

  ghost predicate Gated(db: DB) {
    forall s :: s in db.steps ==>
                  && (Released(db.steps[s].status) ==> db.steps[s].remaining == 0)
                  && (db.steps[s].status.Pending? ==> db.steps[s].remaining > 0)
  }

  ghost predicate Safe(db: DB) {
    Shape(db) && Counted(db) && Gated(db)
  }

  // ---- Actions that finish no step -----------------------------------------

  /** The same steps, edges and counters, the same steps done, no step pending
      again, and only steps that wait for nothing newly released. */
  ghost predicate Quiet(db: DB, next: DB) {
    && next.steps.Keys == db.steps.Keys && next.deps == db.deps && db.runs.Keys <= next.runs.Keys
    && forall s :: s in db.steps ==>
                     && next.steps[s].run == db.steps[s].run
                     && next.steps[s].remaining == db.steps[s].remaining
                     && (next.steps[s].status.Done? <==> db.steps[s].status.Done?)
                     && (next.steps[s].status.Pending? ==> db.steps[s].status.Pending?)
                     && (Released(next.steps[s].status) ==> Released(db.steps[s].status) || db.steps[s].remaining <= 0)
  }

  lemma QuietKeepsSafe(db: DB, next: DB)
    requires Safe(db) && Quiet(db, next)
    ensures Safe(next)
  {
    forall s | s in next.steps ensures next.steps[s].remaining == |Unfinished(next, s)| {
      assert Unfinished(next, s) == Unfinished(db, s);
    }
  }

  lemma SameStepsKeepSafe(db: DB, next: DB)
    requires Safe(db) && next.steps == db.steps && next.deps == db.deps && db.runs.Keys <= next.runs.Keys
    ensures Safe(next)
  {
    assert Quiet(db, next);
    QuietKeepsSafe(db, next);
  }

  // ---- Finishing a step ----------------------------------------------------

  lemma NoSelfEdge(g: Deps, s: StepId)
    requires Acyclic(g)
    ensures !Edge(g, s, s)
  {
    if Edge(g, s, s) { SelfEdgeIsCycle(g, s); }
  }

  /** The tables right after a done commit and its fan-in. */
  ghost function AfterFinish(db: DB, id: StepId): DB {
    FanIn(Move(db, {id}, Running, Done), id)
  }

  /** What finishing `id` does to the row of `s`. */
  function FinishedRow(r: Row, isIt: bool, dependsOnIt: bool): Row {
    if isIt then r.(status := Done)
    else if dependsOnIt then
      r.(remaining := r.remaining - 1,
         status := if r.status.Pending? && r.remaining <= 1 then Queued else r.status)
    else r
  }

  lemma FinishedRowAt(db: DB, id: StepId, s: StepId)
    requires id in db.steps && db.steps[id].status.Running? && s in db.steps
    requires !Edge(db.deps, id, id) && db.deps.Keys == db.steps.Keys
    ensures AfterFinish(db, id).steps.Keys == db.steps.Keys
    ensures AfterFinish(db, id).deps == db.deps && AfterFinish(db, id).runs == db.runs
    ensures AfterFinish(db, id).steps[s] == FinishedRow(db.steps[s], s == id, Edge(db.deps, s, id))
  {
    var done := Move(db, {id}, Running, Done);
    var ids := Dependents(done, {id});
    assert s in ids <==> Edge(db.deps, s, id) by {
      if Edge(db.deps, s, id) { assert id in db.deps[s] * {id}; }
    }
  }

  /** The same for every row at once. */
  lemma FinishedRows(db: DB, id: StepId)
    requires id in db.steps && db.steps[id].status.Running?
    requires !Edge(db.deps, id, id) && db.deps.Keys == db.steps.Keys
    ensures AfterFinish(db, id).steps.Keys == db.steps.Keys
    ensures AfterFinish(db, id).deps == db.deps && AfterFinish(db, id).runs == db.runs
    ensures forall s :: s in db.steps ==>
                          AfterFinish(db, id).steps[s] == FinishedRow(db.steps[s], s == id, Edge(db.deps, s, id))
  {
    FinishedRowAt(db, id, id);
    forall s | s in db.steps
      ensures AfterFinish(db, id).steps[s] == FinishedRow(db.steps[s], s == id, Edge(db.deps, s, id))
    {
      FinishedRowAt(db, id, s);
    }
  }

  /** `next` is `db` with the running step `id` finished. */
  ghost predicate Finishes(db: DB, next: DB, id: StepId) {
    && id in db.steps && db.deps.Keys == db.steps.Keys
    && next.steps.Keys == db.steps.Keys && next.deps == db.deps && next.runs == db.runs
    && forall s :: s in db.steps ==>
                     next.steps[s] == FinishedRow(db.steps[s], s == id, Edge(db.deps, s, id))
  }

  lemma FinishesUnfinished(db: DB, next: DB, id: StepId, s: StepId)
    requires Finishes(db, next, id) && s in db.steps
    ensures Unfinished(next, s) == Unfinished(db, s) - {id}
  {
  }

  lemma FinishesCounter(db: DB, next: DB, id: StepId, s: StepId)
    requires Finishes(db, next, id) && s in db.steps && !db.steps[id].status.Done? && !Edge(db.deps, id, id)
    requires db.steps[s].remaining == |Unfinished(db, s)|
    ensures next.steps[s].remaining == |Unfinished(next, s)|
  {
    FinishesUnfinished(db, next, id, s);
    if Edge(db.deps, s, id) {
      assert id in Unfinished(db, s);
    } else {
      assert Unfinished(next, s) == Unfinished(db, s);
    }
  }

  lemma FinishesGated(db: DB, next: DB, id: StepId)
    requires Finishes(db, next, id) && db.steps[id].status.Running? && !Edge(db.deps, id, id)
    requires Gated(db) && Counted(db)
    ensures Gated(next)
  {
    forall s | s in db.steps && Released(db.steps[s].status) ensures !Edge(db.deps, s, id) {
      assert |Unfinished(db, s)| == 0;
      assert id !in Unfinished(db, s);
    }
  }

  lemma FinishedKeepsSafe(db: DB, id: StepId)
    requires Safe(db) && id in db.steps && db.steps[id].status.Running?
    ensures Safe(AfterFinish(db, id))
  {
    var next := AfterFinish(db, id);
    NoSelfEdge(db.deps, id);
    FinishedRows(db, id);
    FinishesGated(db, next, id);
    forall s | s in db.steps ensures next.steps[s].remaining == |Unfinished(next, s)| {
      FinishesCounter(db, next, id, s);
    }
  }

  // ---- Enqueue -------------------------------------------------------------

  lemma {:induction false} NewRowsAt(run: RunId, specs: seq<StepSpec>, placed: map<StepId, Placement>, i: nat)
    requires i < |specs| && DistinctIds(specs)
    requires forall s :: s in specs ==> s.id in placed
    ensures specs[i].id in NewRows(run, specs, placed)
    ensures NewRows(run, specs, placed)[specs[i].id] == NewRow(run, specs[i], placed[specs[i].id])
  {
    var init := specs[..|specs| - 1];
    if i < |specs| - 1 {
      NewRowsAt(run, init, placed, i);
    }
  }

  lemma NewRowOf(run: RunId, specs: seq<StepSpec>, placed: map<StepId, Placement>)
    requires DistinctIds(specs) && forall s :: s in specs ==> s.id in placed
    ensures forall s :: s in specs ==>
                          && s.id in NewRows(run, specs, placed)
                          && NewRows(run, specs, placed)[s.id] == NewRow(run, s, placed[s.id])
  {
    forall s | s in specs
      ensures s.id in NewRows(run, specs, placed)
      ensures NewRows(run, specs, placed)[s.id] == NewRow(run, s, placed[s.id])
    {
      var i :| 0 <= i < |specs| && specs[i] == s;
      NewRowsAt(run, specs, placed, i);
    }
  }

  ghost function SetOf(ids: seq<StepId>): set<StepId> {
    set d | d in ids
  }

  /** Without repeats a list is as long as its set of members. */
  lemma {:induction false} NoRepeatsCount(ids: seq<StepId>)
    requires NoRepeats(ids)
    ensures |SetOf(ids)| == |ids|
  {
    if ids != [] {
      var init, last := ids[..|ids| - 1], ids[|ids| - 1];
      NoRepeatsCount(init);
      assert SetOf(ids) == SetOf(init) + {last} by { assert ids == init + [last]; }
      assert last !in init;
    }
  }

  /** A cycle stays inside whichever of two closed, disjoint graphs it starts in. */
  lemma {:induction false} WalkStays(g: Deps, h: Deps, p: seq<StepId>, k: nat)
    requires Closed(h) && Walk(g, p) && k < |p| && p[0] in h
    requires forall s :: s in h ==> s in g && g[s] == h[s]
    ensures p[k] in h && Walk(h, p[..k + 1])
  {
    if k > 0 {
      WalkStays(g, h, p, k - 1);
      assert Edge(g, p[k - 1], p[k - 1 + 1]);
      var q := p[..k + 1];
      forall i | 0 <= i < |q| - 1 ensures Edge(h, q[i], q[i + 1]) {
        if i < k - 1 {
          assert Edge(h, p[..k][i], p[..k][i + 1]);
        }
      }
    }
  }

  lemma CycleStays(g: Deps, h: Deps, id: StepId)
    requires Closed(h) && Acyclic(h) && id in h
    requires forall s :: s in h ==> s in g && g[s] == h[s]
    ensures !OnCycle(g, id)
  {
    if OnCycle(g, id) {
      var p :| CycleThrough(g, p, id);
      WalkStays(g, h, p, |p| - 1);
      assert p[..|p|] == p;
      assert CycleThrough(h, p, id);
      assert OnCycle(h, id);
    }
  }

  lemma EmptyHasNoCycle(g: Deps, id: StepId)
    requires id !in g
    ensures !OnCycle(g, id)
  {
    forall p ensures !CycleThrough(g, p, id) {
      if |p| >= 2 && p[0] == id { assert !Edge(g, p[0], p[0 + 1]); }
    }
  }

  lemma JoinKeepsAcyclic(g: Deps, h: Deps)
    requires Closed(g) && Acyclic(g) && Closed(h) && Acyclic(h) && g.Keys !! h.Keys
    ensures Closed(g + h) && Acyclic(g + h)
  {
    forall id ensures !OnCycle(g + h, id) {
      if id in g {
        CycleStays(g + h, g, id);
      } else if id in h {
        CycleStays(g + h, h, id);
      } else {
        EmptyHasNoCycle(g + h, id);
      }
    }
  }

  /** `next` is `db` with the request's steps added as a new active run. */
  ghost predicate Extends(db: DB, next: DB, run: RunId, specs: seq<StepSpec>, placed: map<StepId, Placement>) {
    && (forall s :: s in specs ==> s.id in placed && s.id !in db.steps)
    && next.runs == db.runs[run := Active]
    && next.steps.Keys == db.steps.Keys + Ids(specs) && next.deps.Keys == next.steps.Keys
    && (forall s :: s in db.steps ==> s in db.deps && next.steps[s] == db.steps[s] && next.deps[s] == db.deps[s])
    && (forall s :: s in specs ==>
                      && next.steps[s.id] == NewRow(run, s, placed[s.id])
                      && next.deps[s.id] == DepSet(s))
  }

  lemma EnqueueExtends(db: DB, run: RunId, specs: seq<StepSpec>, placed: map<StepId, Placement>)
    requires db.deps.Keys == db.steps.Keys && Enqueueable(db, run, specs, placed)
    ensures Extends(db, EnqueueRun(db, run, specs, placed), run, specs, placed)
    ensures EnqueueRun(db, run, specs, placed).deps == db.deps + DepsOf(specs)
    ensures Closed(DepsOf(specs)) && db.deps.Keys !! DepsOf(specs).Keys
  {
    DepsOfClosed(specs);
    NewRowOf(run, specs, placed);
    forall s | s in specs ensures s.id in Ids(specs) {
    }
  }

  lemma ExtendsStartsFresh(db: DB, next: DB, run: RunId, specs: seq<StepSpec>, placed: map<StepId, Placement>, s: StepId)
    requires Extends(db, next, run, specs, placed) && s in next.steps && s !in db.steps
    ensures next.steps[s].attempt == 0 && (next.steps[s].status.Queued? || next.steps[s].status.Pending?)
    ensures next.steps[s].run == run
  {
    var t :| t in specs && t.id == s;
  }

  lemma ExtendsEdges(db: DB, next: DB, run: RunId, specs: seq<StepSpec>, placed: map<StepId, Placement>, s: StepId, d: StepId)
    requires Extends(db, next, run, specs, placed) && Closed(db.deps) && DepsInside(specs) && Edge(next.deps, s, d)
    requires db.deps.Keys == db.steps.Keys
    requires forall a, b :: Edge(db.deps, a, b) ==> db.steps[a].run == db.steps[b].run
    ensures d in next.steps && next.steps[s].run == next.steps[d].run
  {
    if s in db.steps {
      assert Edge(db.deps, s, d);
    } else {
      var t :| t in specs && t.id == s;
      assert d in Ids(specs);
    }
  }

  lemma ExtendsCounter(db: DB, next: DB, run: RunId, specs: seq<StepSpec>, placed: map<StepId, Placement>, s: StepId)
    requires Extends(db, next, run, specs, placed) && DepsInside(specs) && Closed(db.deps) && s in next.steps
    requires forall t :: t in specs ==> NoRepeats(t.dependsOn)
    requires db.deps.Keys == db.steps.Keys
    requires s in db.steps ==> db.steps[s].remaining == |Unfinished(db, s)|
    ensures next.steps[s].remaining == |Unfinished(next, s)|
  {
    if s in db.steps {
      assert Unfinished(next, s) == Unfinished(db, s);
    } else {
      var t :| t in specs && t.id == s;
      forall d | d in t.dependsOn ensures d in next.steps && !next.steps[d].status.Done? {
        assert d in Ids(specs);
      }
      assert Unfinished(next, s) == SetOf(t.dependsOn);
      NoRepeatsCount(t.dependsOn);
    }
  }

  lemma ExtendsShape(db: DB, next: DB, run: RunId, specs: seq<StepSpec>, placed: map<StepId, Placement>)
    requires Shape(db) && Extends(db, next, run, specs, placed) && DepsInside(specs)
    requires Closed(next.deps) && Acyclic(next.deps)
    ensures Shape(next)
  {
    forall s, d | Edge(next.deps, s, d) ensures next.steps[s].run == next.steps[d].run {
      ExtendsEdges(db, next, run, specs, placed, s, d);
    }
    forall s | s in next.steps ensures next.steps[s].run in next.runs {
      if s !in db.steps { var t :| t in specs && t.id == s; }
    }
  }

  lemma ExtendsGated(db: DB, next: DB, run: RunId, specs: seq<StepSpec>, placed: map<StepId, Placement>)
    requires Gated(db) && Extends(db, next, run, specs, placed)
    ensures Gated(next)
  {
    forall s | s in next.steps
      ensures Released(next.steps[s].status) ==> next.steps[s].remaining == 0
      ensures next.steps[s].status.Pending? ==> next.steps[s].remaining > 0
    {
      if s !in db.steps { var t :| t in specs && t.id == s; }
    }
  }

  lemma EnqueueKeepsSafe(db: DB, run: RunId, specs: seq<StepSpec>, placed: map<StepId, Placement>)
    requires Safe(db) && Enqueueable(db, run, specs, placed)
    ensures Safe(EnqueueRun(db, run, specs, placed))
  {
    var next := EnqueueRun(db, run, specs, placed);
    EnqueueExtends(db, run, specs, placed);
    JoinKeepsAcyclic(db.deps, DepsOf(specs));
    ExtendsShape(db, next, run, specs, placed);
    ExtendsGated(db, next, run, specs, placed);
    forall s | s in next.steps ensures next.steps[s].remaining == |Unfinished(next, s)| {
      ExtendsCounter(db, next, run, specs, placed, s);
    }
  }

  // ---- Every action, every run ---------------------------------------------

  lemma RollupTouchesRunsOnly(db: DB, run: RunId)
    ensures Rollup(db, run).steps == db.steps && Rollup(db, run).deps == db.deps
    ensures Rollup(db, run).runs.Keys == db.runs.Keys
  {
  }

  lemma MoveIsQuiet(db: DB, ids: set<StepId>, from: Status, to: Status)
    requires !from.Done? && !to.Done? && !to.Pending?
    requires Released(to) ==> Released(from) || forall s :: s in ids && s in db.steps ==> db.steps[s].remaining <= 0
    ensures Quiet(db, Move(db, ids, from, to))
  {
  }

  lemma FailIsQuiet(db: DB, id: StepId, attempt: nat)
    ensures Quiet(db, FailStep(db, id, attempt))
  {
    if Owns(db, id, attempt) {
      var failed := Move(db, {id}, Running, Failed);
      MoveIsQuiet(db, {id}, Running, Failed);
      var ids := Downstream(failed, id);
      MoveIsQuiet(failed, ids, Pending, Canceled);
      RollupTouchesRunsOnly(Move(failed, ids, Pending, Canceled), db.steps[id].run);
    }
  }

  lemma EndRunIsQuiet(db: DB, run: RunId, status: RunStatus)
    ensures Quiet(db, EndRun(db, run, status))
  {
  }

  lemma QuietAction(db: DB, a: Action)
    requires !a.Enqueue? && !a.CommitDone?
    ensures Quiet(db, Apply(db, a))
  {
    match a
    case CommitFailed(id, attempt) => FailIsQuiet(db, id, attempt);
    case Requeue(id, attempt) => MoveIsQuiet(db, {id}, Running, Queued);
    case ResetStale(ids) => MoveIsQuiet(db, ids, Running, Queued);
    case SweepReady(ids) => MoveIsQuiet(db, Ready(db, ids), Pending, Queued);
    case CancelRun(run) => EndRunIsQuiet(db, run, RunCanceled);
    case SupersedeRun(run, newRun) => EndRunIsQuiet(db, run, Superseded);
    case ClaimSteps(ids) =>
    case CountOom(id, attempt) =>
    case Retry(id) =>
    case CancelStep(id) =>
    case CancelScope(ids) =>
  }

  lemma ApplyKeepsSafe(db: DB, a: Action)
    requires Safe(db)
    ensures Safe(Apply(db, a))
  {
    if a.Enqueue? {
      if Enqueueable(db, a.run, a.specs, a.placed) { EnqueueKeepsSafe(db, a.run, a.specs, a.placed); }
    } else if a.CommitDone? {
      if Owns(db, a.id, a.attempt) {
        FinishedKeepsSafe(db, a.id);
        RollupTouchesRunsOnly(AfterFinish(db, a.id), db.steps[a.id].run);
        SameStepsKeepSafe(AfterFinish(db, a.id), Apply(db, a));
      }
    } else {
      QuietAction(db, a);
      QuietKeepsSafe(db, Apply(db, a));
    }
  }

  lemma {:induction false} RunIsSafe(acts: seq<Action>)
    ensures Safe(Run(EMPTY, acts))
  {
    if acts == [] {
      forall id ensures !OnCycle(EMPTY.deps, id) {
        EmptyHasNoCycle(EMPTY.deps, id);
      }
    } else {
      RunIsSafe(acts[..|acts| - 1]);
      ApplyKeepsSafe(Run(EMPTY, acts[..|acts| - 1]), acts[|acts| - 1]);
    }
  }

  /** Some sequence of actions leads from empty tables to `db`. */
  ghost predicate Reachable(db: DB) {
    exists acts :: db == Run(EMPTY, acts)
  }

  lemma ReachableIsSafe(db: DB)
    requires Reachable(db)
    ensures Safe(db)
  {
    var acts :| db == Run(EMPTY, acts);
    RunIsSafe(acts);
  }

  lemma ReachableStep(db: DB, a: Action)
    requires Reachable(db)
    ensures Reachable(Apply(db, a))
  {
    var acts :| db == Run(EMPTY, acts);
    var more := acts + [a];
    assert more[..|more| - 1] == acts;
    assert Apply(db, a) == Run(EMPTY, more);
  }

  predicate IsDone(db: DB, s: StepId) {
    s in db.steps && db.steps[s].status.Done?
  }

  lemma ReleasedHasDoneDependencies(db: DB, s: StepId, d: StepId)
    requires db.deps.Keys == db.steps.Keys && Edge(db.deps, s, d)
    requires db.steps[s].remaining == |Unfinished(db, s)| && db.steps[s].remaining == 0
    ensures IsDone(db, d)
  {
    assert d !in Unfinished(db, s);
  }

  /** No step is handed to a worker, or finishes, before everything it depends on
      is done, whatever zombies, resets, retries and cancellations came before. */
  lemma ReleasedOnlyAfterDependencies(acts: seq<Action>, s: StepId, d: StepId)
    requires s in Run(EMPTY, acts).steps && Edge(Run(EMPTY, acts).deps, s, d)
    requires Released(Run(EMPTY, acts).steps[s].status)
    ensures IsDone(Run(EMPTY, acts), d)
  {
    RunIsSafe(acts);
    ReleasedHasDoneDependencies(Run(EMPTY, acts), s, d);
  }

  lemma GatedHasNoneReady(db: DB, ids: set<StepId>)
    requires Gated(db)
    ensures Ready(db, ids) == {} && Apply(db, SweepReady(ids)) == db
  {
    assert Ready(db, ids) == {};
    assert Move(db, {}, Pending, Queued).steps == db.steps;
  }

  /** The reconciler's ready sweep never finds anything to do: fan-in queues a
      dependent in the same transaction that finishes its last dependency. */
  lemma ReadySweepFindsNothing(acts: seq<Action>, ids: set<StepId>)
    ensures Ready(Run(EMPTY, acts), ids) == {}
    ensures Apply(Run(EMPTY, acts), SweepReady(ids)) == Run(EMPTY, acts)
  {
    RunIsSafe(acts);
    GatedHasNoneReady(Run(EMPTY, acts), ids);
  }

  /** Only a done commit finishes a step, and only a step that was running. */
  lemma BecomesDone(db: DB, a: Action, s: StepId)
    requires db.deps.Keys == db.steps.Keys && Acyclic(db.deps)
    requires IsDone(Apply(db, a), s) && !IsDone(db, s)
    ensures a.CommitDone? && a.id == s && Owns(db, s, a.attempt)
    ensures Apply(db, a).deps == db.deps
  {
    if a.Enqueue? {
      EnqueueFinishesNothing(db, a, s);
    } else if a.CommitDone? {
      DoneStepFinishesOne(db, a.id, a.attempt, s);
    } else {
      QuietAction(db, a);
    }
  }

  lemma EnqueueFinishesNothing(db: DB, a: Action, s: StepId)
    requires db.deps.Keys == db.steps.Keys && a.Enqueue?
    ensures IsDone(Apply(db, a), s) ==> IsDone(db, s)
  {
    if Enqueueable(db, a.run, a.specs, a.placed) {
      EnqueueExtends(db, a.run, a.specs, a.placed);
      if s in Apply(db, a).steps && s !in db.steps {
        ExtendsStartsFresh(db, Apply(db, a), a.run, a.specs, a.placed, s);
      }
    }
  }

  lemma DoneStepFinishesOne(db: DB, id: StepId, attempt: nat, s: StepId)
    requires db.deps.Keys == db.steps.Keys && Acyclic(db.deps)
    ensures DoneStep(db, id, attempt).deps == db.deps
    ensures IsDone(DoneStep(db, id, attempt), s) <==> IsDone(db, s) || (s == id && Owns(db, id, attempt))
  {
    if Owns(db, id, attempt) {
      NoSelfEdge(db.deps, id);
      FinishedRows(db, id);
      RollupTouchesRunsOnly(AfterFinish(db, id), db.steps[id].run);
    }
  }

  lemma DoneSurvives(db: DB, a: Action, s: StepId)
    requires db.deps.Keys == db.steps.Keys && Acyclic(db.deps) && IsDone(db, s)
    ensures IsDone(Apply(db, a), s)
  {
    if a.Enqueue? {
      if Enqueueable(db, a.run, a.specs, a.placed) { EnqueueExtends(db, a.run, a.specs, a.placed); }
    } else if a.CommitDone? {
      DoneStepFinishesOne(db, a.id, a.attempt, s);
    } else {
      QuietAction(db, a);
    }
  }

  /** Done is final: no action of the protocol reopens a finished step. */
  lemma {:induction false} DoneStaysDone(acts: seq<Action>, i: nat, s: StepId)
    requires i <= |acts| && IsDone(Run(EMPTY, acts[..i]), s)
    ensures IsDone(Run(EMPTY, acts), s)
    decreases |acts| - i
  {
    if i == |acts| {
      assert acts[..i] == acts;
    } else {
      RunStep(EMPTY, acts, i);
      RunIsSafe(acts[..i]);
      DoneSurvives(Run(EMPTY, acts[..i]), acts[i], s);
      DoneStaysDone(acts, i + 1, s);
    }
  }

  /** Steps become done in a topological order: when a step becomes done,
      everything it depends on was done already. */
  lemma DoneInTopologicalOrder(acts: seq<Action>, i: nat, s: StepId, d: StepId)
    requires i < |acts|
    requires IsDone(Run(EMPTY, acts[..i + 1]), s) && !IsDone(Run(EMPTY, acts[..i]), s)
    requires Edge(Run(EMPTY, acts[..i + 1]).deps, s, d)
    ensures IsDone(Run(EMPTY, acts[..i]), d)
  {
    RunStep(EMPTY, acts, i);
    RunIsSafe(acts[..i]);
    BecomesDone(Run(EMPTY, acts[..i]), acts[i], s);
    ReleasedOnlyAfterDependencies(acts[..i], s, d);
  }
}
