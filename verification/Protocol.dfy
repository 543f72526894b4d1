/** The step protocol: the pipeline tables, what each statement the engine runs
    does to them, and the actions workers, users and the reconciler interleave.
    Anything may act on any step at any time, so a worker whose step was
    reclaimed is simply one that still sends writes for an old attempt. */
module Protocol {
  import opened Transition
  import opened Graph
  import opened GraphValidator

  type RunId = nat

  datatype RunStatus = Active | RunDone | RunFailed | RunCanceled | Superseded

  /** Where the step's handler said it runs. */
  datatype Placement = Placement(queue: string, providerRef: string)

  datatype Row = Row(
    run: RunId, kind: string, place: Placement, priority: int,
    status: Status, attempt: nat, remaining: int, oom: nat)

  /** `deps[s]` is the set of steps that `s` depends on. */
  datatype DB = DB(steps: map<StepId, Row>, deps: Deps, runs: map<RunId, RunStatus>)

  const EMPTY := DB(map[], map[], map[])

  // ---- Statements ----------------------------------------------------------

  /** Moves the listed steps that are in status `from` to `to`. */
  function Move(db: DB, ids: set<StepId>, from: Status, to: Status): DB {
    db.(steps := map s | s in db.steps ::
          if s in ids && db.steps[s].status == from then db.steps[s].(status := to) else db.steps[s])
  }

  /** Moves the listed steps that are not terminal to canceled. */
  function Cancel(db: DB, ids: set<StepId>): DB {
    db.(steps := map s | s in db.steps ::
          if s in ids && !Terminal(db.steps[s].status) then db.steps[s].(status := Canceled) else db.steps[s])
  }

  /** The rows a claim of `ids` returns. */
  function Claimable(db: DB, ids: set<StepId>): set<StepId> {
    set s | s in ids && s in db.steps && db.steps[s].status.Queued?
  }

  function Claim(db: DB, ids: set<StepId>): DB {
    db.(steps := map s | s in db.steps ::
          var r := db.steps[s];
          if s in ids && r.status.Queued? then r.(status := Running, attempt := r.attempt + 1) else r)
  }

  /** The fence: a worker's write applies only to the attempt it claimed, and
      only while that attempt is still running. */
  predicate Owns(db: DB, id: StepId, attempt: nat) {
    id in db.steps && db.steps[id].status.Running? && db.steps[id].attempt == attempt
  }

  function Dependents(db: DB, ids: set<StepId>): set<StepId> {
    set s | s in db.deps && db.deps[s] * ids != {}
  }

  function Decrement(db: DB, ids: set<StepId>): DB {
    db.(steps := map s | s in db.steps ::
          if s in ids then db.steps[s].(remaining := db.steps[s].remaining - 1) else db.steps[s])
  }

  /** The pending steps of `ids` that wait for nothing any more. */
  function Ready(db: DB, ids: set<StepId>): set<StepId> {
    set s | s in ids && s in db.steps && db.steps[s].status.Pending? && db.steps[s].remaining <= 0
  }

  /** Fan-in: every dependent of `id` waits for one step less, and those that
      wait for none become queued. */
  function FanIn(db: DB, id: StepId): DB {
    var counted := Decrement(db, Dependents(db, {id}));
    Move(counted, Ready(counted, Dependents(db, {id})), Pending, Queued)
  }

  /** `p` leads from `from` to dependents of dependents, all of them pending. */
  ghost predicate PendingChain(db: DB, p: seq<StepId>, from: StepId, to: StepId) {
    && |p| >= 2 && p[0] == from && p[|p| - 1] == to
    && forall i :: 1 <= i < |p| ==>
                     Edge(db.deps, p[i], p[i - 1]) && p[i] in db.steps && db.steps[p[i]].status.Pending?
  }

  ghost predicate PendingReach(db: DB, from: StepId, to: StepId) {
    exists p :: PendingChain(db, p, from, to)
  }

  ghost function Downstream(db: DB, from: StepId): set<StepId> {
    set s | s in db.steps && PendingReach(db, from, s)
  }

  /** A pending dependent of what is reached is reached. */
  lemma ReachExtends(db: DB, from: StepId, d: StepId, s: StepId)
    requires d == from || PendingReach(db, from, d)
    requires Edge(db.deps, s, d) && s in db.steps && db.steps[s].status.Pending?
    ensures PendingReach(db, from, s)
  {
    if d == from {
      assert PendingChain(db, [from, s], from, s);
    } else {
      var p :| PendingChain(db, p, from, d);
      assert PendingChain(db, p + [s], from, s);
    }
  }

  predicate HasOpen(db: DB, run: RunId) {
    exists s :: s in db.steps && db.steps[s].run == run && !Terminal(db.steps[s].status)
  }

  predicate HasFailed(db: DB, run: RunId) {
    exists s :: s in db.steps && db.steps[s].run == run && db.steps[s].status.Failed?
  }

  function CloseRun(db: DB, run: RunId, status: RunStatus): DB {
    if run in db.runs && db.runs[run].Active? then db.(runs := db.runs[run := status]) else db
  }

  function Rollup(db: DB, run: RunId): DB {
    if HasOpen(db, run) then db
    else CloseRun(db, run, if HasFailed(db, run) then RunFailed else RunDone)
  }

  function RunSteps(db: DB, run: RunId): set<StepId> {
    set s | s in db.steps && db.steps[s].run == run
  }

  predicate Retryable(db: DB, id: StepId) {
    && id in db.steps
    && (db.steps[id].status.Failed? || db.steps[id].status.Canceled?)
    && db.steps[id].remaining <= 0
    && db.steps[id].run in db.runs && db.runs[db.steps[id].run].Active?
  }

  // ---- Enqueue -------------------------------------------------------------

  /** The priority column is 16 bits wide and the conversion wraps. */
  function ToInt16(n: int): int {
    (n + 0x8000) % 0x1_0000 - 0x8000
  }

  const QUEUES: set<string> := {"gpu", "cpu", "llm", "render", "io"}

  ghost predicate NoRepeats(ids: seq<StepId>) {
    forall i, j :: 0 <= i < j < |ids| ==> ids[i] != ids[j]
  }

  /** What the handler lookup and the table constraints ask of one step; `placed`
      holds the steps whose handler resolved. */
  ghost predicate RowAccepted(db: DB, s: StepSpec, placed: map<StepId, Placement>) {
    && s.id in placed && placed[s.id].queue in QUEUES
    && s.id !in db.steps && s.id !in db.deps
    && 1 <= ToInt16(s.priority) <= 4
    && NoRepeats(s.dependsOn)
  }

  /** A request is inserted whole or not at all. */
  ghost predicate Enqueueable(db: DB, run: RunId, specs: seq<StepSpec>, placed: map<StepId, Placement>) {
    && DistinctIds(specs) && DepsInside(specs) && Acyclic(DepsOf(specs))
    && run !in db.runs
    && forall s :: s in specs ==> RowAccepted(db, s, placed)
  }

  function NewRow(run: RunId, s: StepSpec, place: Placement): Row {
    Row(run, s.kind, place, ToInt16(s.priority), if s.dependsOn == [] then Queued else Pending,
        0, |s.dependsOn|, 0)
  }

  ghost function NewRows(run: RunId, specs: seq<StepSpec>, placed: map<StepId, Placement>): (rows: map<StepId, Row>)
    requires forall s :: s in specs ==> s.id in placed
    ensures rows.Keys == Ids(specs)
  {
    if specs == [] then map[]
    else
      var init, last := specs[..|specs| - 1], specs[|specs| - 1];
      assert specs == init + [last];
      NewRows(run, init, placed)[last.id := NewRow(run, last, placed[last.id])]
  }

  // ---- Actions -------------------------------------------------------------

  datatype Action =
    | Enqueue(run: RunId, specs: seq<StepSpec>, placed: map<StepId, Placement>)
    | ClaimSteps(ids: set<StepId>)
    | CommitDone(id: StepId, attempt: nat)
    | CommitFailed(id: StepId, attempt: nat)
    | Requeue(id: StepId, attempt: nat)
    | CountOom(id: StepId, attempt: nat)
    | ResetStale(ids: set<StepId>)
    | SweepReady(ids: set<StepId>)
    | Retry(id: StepId)
    | CancelStep(id: StepId)
    | CancelRun(run: RunId)
    | SupersedeRun(run: RunId, newRun: RunId)
    | CancelScope(ids: set<StepId>)

  ghost function DoneStep(db: DB, id: StepId, attempt: nat): DB {
    if Owns(db, id, attempt) then
      Rollup(FanIn(Move(db, {id}, Running, Done), id), db.steps[id].run)
    else db
  }

  ghost function FailStep(db: DB, id: StepId, attempt: nat): DB {
    if Owns(db, id, attempt) then
      var failed := Move(db, {id}, Running, Failed);
      Rollup(Move(failed, Downstream(failed, id), Pending, Canceled), db.steps[id].run)
    else db
  }

  function RequeueStep(db: DB, id: StepId, attempt: nat): DB {
    if Owns(db, id, attempt) then Move(db, {id}, Running, Queued) else db
  }

  function CountOomStep(db: DB, id: StepId, attempt: nat): DB {
    if Owns(db, id, attempt) then db.(steps := db.steps[id := db.steps[id].(oom := db.steps[id].oom + 1)]) else db
  }

  function RetryStep(db: DB, id: StepId): DB {
    if Retryable(db, id) then db.(steps := db.steps[id := db.steps[id].(status := Queued, oom := 0)]) else db
  }

  function EndRun(db: DB, run: RunId, status: RunStatus): DB {
    if run in db.runs && db.runs[run].Active? then Cancel(CloseRun(db, run, status), RunSteps(db, run)) else db
  }

  ghost function EnqueueRun(db: DB, run: RunId, specs: seq<StepSpec>, placed: map<StepId, Placement>): DB {
    if Enqueueable(db, run, specs, placed) then
      DB(db.steps + NewRows(run, specs, placed), db.deps + DepsOf(specs), db.runs[run := Active])
    else db
  }

  ghost function Apply(db: DB, a: Action): DB {
    match a
    case Enqueue(run, specs, placed) => EnqueueRun(db, run, specs, placed)
    case ClaimSteps(ids) => Claim(db, ids)
    case CommitDone(id, attempt) => DoneStep(db, id, attempt)
    case CommitFailed(id, attempt) => FailStep(db, id, attempt)
    case Requeue(id, attempt) => RequeueStep(db, id, attempt)
    case CountOom(id, attempt) => CountOomStep(db, id, attempt)
    case ResetStale(ids) => Move(db, ids, Running, Queued)
    case SweepReady(ids) => Move(db, Ready(db, ids), Pending, Queued)
    case Retry(id) => RetryStep(db, id)
    case CancelStep(id) => Cancel(db, {id})
    case CancelRun(run) => EndRun(db, run, RunCanceled)
    case SupersedeRun(run, newRun) => if newRun in db.runs then EndRun(db, run, Superseded) else db
    case CancelScope(ids) => Cancel(db, ids)
  }

  /** The tables after the actions of `acts`, in order. */
  ghost function Run(db: DB, acts: seq<Action>): DB {
    if acts == [] then db else Apply(Run(db, acts[..|acts| - 1]), acts[|acts| - 1])
  }

  lemma RunLast(db: DB, acts: seq<Action>, last: Action)
    ensures Run(db, acts + [last]) == Apply(Run(db, acts), last)
  {
    assert (acts + [last])[..|acts|] == acts;
  }

  lemma RunStep(db: DB, acts: seq<Action>, i: nat)
    requires i < |acts|
    ensures Run(db, acts[..i + 1]) == Apply(Run(db, acts[..i]), acts[i])
  {
    assert acts[..i + 1][..i] == acts[..i];
  }
}
