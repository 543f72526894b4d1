/** The rollup as it runs: three statements after the commit, each on its own, with
    anything in between. A process that stops takes its rollup with it. */
module Rollups {
  import opened Transition
  import opened Graph
  import opened GraphValidator
  import opened Protocol
  import opened DependencySafety
  import opened Fence
  import opened NoDeadlock

  /** A rollup of `run` that has still to count the open steps, to look for a failed
      one, or to mark the run. */
  datatype Task = Counting(run: RunId) | Checking(run: RunId) | Marking(run: RunId, failed: bool)

  datatype State = State(db: DB, tasks: multiset<Task>)

  /** An action on the steps, the next statement of a rollup, or its loss. */
  datatype Event = Act(a: Action) | Go(t: Task) | Lose(t: Task)

  function ClosedAs(failed: bool): RunStatus {
    if failed then RunFailed else RunDone
  }

  predicate IsCommit(db: DB, a: Action) {
    (a.CommitDone? || a.CommitFailed?) && Owns(db, a.id, a.attempt)
  }

  /** A commit without its rollup. */
  ghost function CommitOnly(db: DB, a: Action): DB
    requires IsCommit(db, a)
  {
    if a.CommitDone? then AfterFinish(db, a.id) else Cascaded(db, a.id)
  }

  ghost function Acted(s: State, a: Action): State {
    if IsCommit(s.db, a) then State(CommitOnly(s.db, a), s.tasks + multiset{Counting(s.db.steps[a.id].run)})
    else State(Apply(s.db, a), s.tasks)
  }

  function Went(s: State, t: Task): State {
    if t !in s.tasks then s
    else
      var rest := s.tasks - multiset{t};
      match t
      case Counting(run) => State(s.db, if HasOpen(s.db, run) then rest else rest + multiset{Checking(run)})
      case Checking(run) => State(s.db, rest + multiset{Marking(run, HasFailed(s.db, run))})
      case Marking(run, failed) => State(CloseRun(s.db, run, ClosedAs(failed)), rest)
  }

  ghost function Step(s: State, e: Event): State {
    match e
    case Act(a) => Acted(s, a)
    case Go(t) => Went(s, t)
    case Lose(t) => State(s.db, s.tasks - multiset{t})
  }

  const START := State(EMPTY, multiset{})

  ghost function Steps(s: State, events: seq<Event>): State {
    Fold(Step, s, events)
  }

  ghost function Fold(step: (State, Event) -> State, s: State, events: seq<Event>): State {
    if events == [] then s else step(Fold(step, s, events[..|events| - 1]), events[|events| - 1])
  }

  lemma {:induction false} FoldAppend(step: (State, Event) -> State, s: State, a: seq<Event>, b: seq<Event>)
    ensures Fold(step, s, a + b) == Fold(step, Fold(step, s, a), b)
    decreases |b|
  {
    if b == [] {
      assert a + b == a;
    } else {
      var init, last := b[..|b| - 1], b[|b| - 1];
      FoldAppend(step, s, a, init);
      assert (a + b)[..|a + b| - 1] == a + init;
    }
  }

  lemma StepsAppend(s: State, a: seq<Event>, b: seq<Event>)
    ensures Steps(s, a + b) == Steps(Steps(s, a), b)
  {
    FoldAppend(Step, s, a, b);
  }

  lemma {:induction false} FoldOne(step: (State, Event) -> State, s: State, e: Event)
    ensures Fold(step, s, [e]) == step(s, e)
  {
    assert [e][..0] == [];
    assert Fold(step, s, []) == s;
  }

  lemma {:induction false} FoldThree(step: (State, Event) -> State, s: State, a: Event, b: Event, c: Event)
    ensures Fold(step, s, [a, b, c]) == step(step(step(s, a), b), c)
  {
    FoldOne(step, s, a);
    FoldAppend(step, s, [a], [b]);
    FoldOne(step, step(s, a), b);
    FoldAppend(step, s, [a, b], [c]);
    FoldOne(step, step(step(s, a), b), c);
    assert [a] + [b] == [a, b] && [a, b] + [c] == [a, b, c];
  }

  lemma StepsOne(s: State, e: Event)
    ensures Steps(s, [e]) == Step(s, e)
  {
    FoldOne(Step, s, e);
  }

  /** The first event, and then the others. */
  lemma StepsFirst(s: State, e: Event, next: State, rest: seq<Event>)
    requires next == Step(s, e)
    ensures Steps(s, [e] + rest) == Steps(next, rest)
  {
    StepsOne(s, e);
    StepsAppend(s, [e], rest);
  }

  /** ... and the last one. */
  lemma StepsLast(s: State, events: seq<Event>)
    requires events != []
    ensures Steps(s, events) == Step(Steps(s, events[..|events| - 1]), events[|events| - 1])
  {
  }

  /** Everything but user cancellations, and the loss of a rollup of `run`. */
  predicate Kept(e: Event, run: RunId) {
    match e
    case Act(a) => Unattended(a)
    case Go(_) => true
    case Lose(t) => t.run != run
  }

  ghost predicate AllKept(events: seq<Event>, run: RunId) {
    forall e :: e in events ==> Kept(e, run)
  }

  // ---- The one action is the three statements at once -----------------------

  lemma OneTaskIs(db: DB, run: RunId)
    ensures var s := State(db, multiset{Counting(run)});
            Went(Went(Went(s, Counting(run)), Checking(run)), Marking(run, HasFailed(db, run))) == State(Rollup(db, run), multiset{})
  {
    var s := State(db, multiset{Counting(run)});
    var none: multiset<Task> := multiset{};
    assert s.tasks - multiset{Counting(run)} == none;
    if !HasOpen(db, run) {
      var t, u := Checking(run), Marking(run, HasFailed(db, run));
      assert none + multiset{t} == multiset{t} && multiset{t} - multiset{t} == none;
      assert none + multiset{u} == multiset{u} && multiset{u} - multiset{u} == none;
    }
  }

  /** With no other rollup about, a commit and its three statements in a row are the
      commit action. */
  lemma RollupAtOnce(db: DB, a: Action)
    requires IsCommit(db, a)
    ensures var run := db.steps[a.id].run;
            var failed := HasFailed(CommitOnly(db, a), run);
            Steps(State(db, multiset{}), [Act(a), Go(Counting(run)), Go(Checking(run)), Go(Marking(run, failed))])
            == State(Apply(db, a), multiset{})
  {
    var c, run := CommitThenRollup(db, a);
    var rest := [Go(Counting(run)), Go(Checking(run)), Go(Marking(run, HasFailed(c, run)))];
    StepsFirst(State(db, multiset{}), Act(a), State(c, multiset{Counting(run)}), rest);
    assert [Act(a)] + rest == [Act(a), rest[0], rest[1], rest[2]];
    OneTaskRuns(c, run);
  }

  lemma CommitThenRollup(db: DB, a: Action) returns (c: DB, run: RunId)
    requires IsCommit(db, a)
    ensures c == CommitOnly(db, a) && run == db.steps[a.id].run && Apply(db, a) == Rollup(c, run)
    ensures Step(State(db, multiset{}), Act(a)) == State(c, multiset{Counting(run)})
  {
    c, run := CommitOnly(db, a), db.steps[a.id].run;
    assert multiset{} + multiset{Counting(run)} == multiset{Counting(run)};
  }

  lemma OneTaskRuns(c: DB, run: RunId)
    ensures Steps(State(c, multiset{Counting(run)}), [Go(Counting(run)), Go(Checking(run)), Go(Marking(run, HasFailed(c, run)))])
            == State(Rollup(c, run), multiset{})
  {
    FoldThree(Step, State(c, multiset{Counting(run)}), Go(Counting(run)), Go(Checking(run)), Go(Marking(run, HasFailed(c, run))));
    OneTaskIs(c, run);
  }

  // ---- Nothing is forgotten -------------------------------------------------

  /** A rollup of `run` has still to come. */
  ghost predicate ToCome(s: State, run: RunId) {
    exists t :: t in s.tasks && t.run == run
  }

  /** An active run without an open step has a rollup to come. */
  ghost predicate Covered(s: State, run: RunId) {
    run in s.db.runs && s.db.runs[run].Active? && !HasOpen(s.db, run) ==> ToCome(s, run)
  }

  ghost predicate Sane(db: DB) {
    Safe(db) && Unblocked(db)
  }

  /** The steps of `run` are the same and have the same status. */
  ghost predicate SameIn(db: DB, next: DB, run: RunId) {
    && (forall s :: s in next.steps && next.steps[s].run == run ==> s in db.steps && db.steps[s].run == run)
    && (forall s :: s in db.steps && db.steps[s].run == run ==>
                      s in next.steps && next.steps[s].run == run && next.steps[s].status == db.steps[s].status)
  }

  lemma SameInSays(db: DB, next: DB, run: RunId)
    requires SameIn(db, next, run)
    ensures HasOpen(next, run) == HasOpen(db, run) && HasFailed(next, run) == HasFailed(db, run)
  {
    if HasOpen(db, run) {
      var s :| s in db.steps && db.steps[s].run == run && !Terminal(db.steps[s].status);
      assert s in next.steps && next.steps[s].run == run && !Terminal(next.steps[s].status);
    }
    if HasFailed(db, run) {
      var s :| s in db.steps && db.steps[s].run == run && db.steps[s].status.Failed?;
      assert s in next.steps && next.steps[s].run == run && next.steps[s].status.Failed?;
    }
  }

  lemma CommitOnlyIn(db: DB, a: Action)
    requires Safe(db) && IsCommit(db, a)
    ensures OnlyIn(db, CommitOnly(db, a), db.steps[a.id].run)
  {
    if a.CommitDone? { FinishesOnlyIn(db, a.id); } else { CascadeOnlyIn(db, a.id); }
  }

  lemma CommitSane(db: DB, a: Action)
    requires Sane(db) && IsCommit(db, a)
    ensures Sane(CommitOnly(db, a))
  {
    if a.CommitDone? {
      FinishedKeepsSafe(db, a.id);
      FinishUnblocked(db, a.id);
    } else {
      ApplyKeepsSafe(db, a);
      RollupTouchesRunsOnly(Cascaded(db, a.id), db.steps[a.id].run);
      SameStepsKeepSafe(Apply(db, a), Cascaded(db, a.id));
      CascadeUnblocks(db, a.id);
    }
  }

  /** What every other action does to a run: an enqueue leaves the runs there are
      alone, the rest only reopens. */
  lemma OtherAction(db: DB, a: Action)
    requires Sane(db) && Unattended(a) && !IsCommit(db, a)
    ensures Sane(Apply(db, a))
    ensures Reopens(db, Apply(db, a)) || (a.Enqueue? && Enqueueable(db, a.run, a.specs, a.placed))
  {
    ApplyKeepsSafe(db, a);
    if a.Enqueue? {
      if Enqueueable(db, a.run, a.specs, a.placed) {
        EnqueueExtends(db, a.run, a.specs, a.placed);
        ExtendsUnblocked(db, Apply(db, a), a.run, a.specs, a.placed);
      }
    } else if a.CommitDone? || a.CommitFailed? {
      assert Apply(db, a) == db;
    } else {
      ReopeningAction(db, a);
      ReopensUnblocked(db, Apply(db, a));
    }
  }

  /** An accepted request changes no other run and starts its own with an open step. */
  lemma EnqueueIn(db: DB, run: RunId, specs: seq<StepSpec>, placed: map<StepId, Placement>, other: RunId)
    requires Safe(db) && Enqueueable(db, run, specs, placed) && specs != []
    ensures var next := EnqueueRun(db, run, specs, placed);
            && next.runs == db.runs[run := Active] && HasOpen(next, run)
            && (other != run ==> SameIn(db, next, other))
  {
    EnqueueExtends(db, run, specs, placed);
    ExtendsIn(db, EnqueueRun(db, run, specs, placed), run, specs, placed, other);
  }

  lemma ExtendsIn(db: DB, next: DB, run: RunId, specs: seq<StepSpec>, placed: map<StepId, Placement>, other: RunId)
    requires Extends(db, next, run, specs, placed) && specs != []
    ensures HasOpen(next, run) && (other != run ==> SameIn(db, next, other))
  {
    var first := specs[0].id;
    ExtendsStartsFresh(db, next, run, specs, placed, first);
    assert first in next.steps && next.steps[first].run == run && !Terminal(next.steps[first].status);
    forall s | s in next.steps && s !in db.steps ensures next.steps[s].run == run {
      ExtendsStartsFresh(db, next, run, specs, placed, s);
    }
  }

  lemma ReopensStaysOpen(db: DB, next: DB, run: RunId)
    requires Reopens(db, next) && HasOpen(db, run)
    ensures HasOpen(next, run)
  {
    var s :| s in db.steps && db.steps[s].run == run && !Terminal(db.steps[s].status);
    assert !Terminal(next.steps[s].status);
  }

  lemma ActCovers(s: State, a: Action, run: RunId)
    requires Sane(s.db) && Covered(s, run) && Unattended(a)
    ensures Sane(Acted(s, a).db) && Covered(Acted(s, a), run)
  {
    var next := Acted(s, a);
    if IsCommit(s.db, a) {
      CommitSane(s.db, a);
      CommitOnlyIn(s.db, a);
      if s.db.steps[a.id].run == run {
        assert Counting(run) in next.tasks;
      } else {
        SameInSays(s.db, next.db, run);
        TasksStay(s, next, run);
      }
    } else {
      OtherAction(s.db, a);
      TasksStay(s, next, run);
      if Reopens(s.db, next.db) {
        if HasOpen(s.db, run) { ReopensStaysOpen(s.db, next.db, run); }
      } else {
        EnqueueIn(s.db, a.run, a.specs, a.placed, run);
        if run != a.run { SameInSays(s.db, next.db, run); }
      }
    }
  }

  lemma TasksStay(s: State, next: State, run: RunId)
    requires s.tasks <= next.tasks
    ensures ToCome(s, run) ==> ToCome(next, run)
  {
    if ToCome(s, run) {
      var t :| t in s.tasks && t.run == run;
      assert t in next.tasks;
    }
  }

  lemma TakenAway(tasks: multiset<Task>, t: Task, run: RunId)
    requires t.run != run
    ensures (exists u :: u in tasks && u.run == run) ==> exists u :: u in tasks - multiset{t} && u.run == run
  {
    if u :| u in tasks && u.run == run {
      assert u in tasks - multiset{t};
    }
  }

  lemma ClosingSane(db: DB, run: RunId, status: RunStatus)
    requires Sane(db)
    ensures Sane(CloseRun(db, run, status))
  {
    SameStepsKeepSafe(db, CloseRun(db, run, status));
  }

  lemma OtherGoCovers(s: State, t: Task, run: RunId)
    requires Covered(s, run) && t in s.tasks && t.run != run
    ensures Covered(Went(s, t), run)
  {
    var next := Went(s, t);
    SameInSays(s.db, next.db, run);
    TakenAway(s.tasks, t, run);
    TasksStay(State(s.db, s.tasks - multiset{t}), next, run);
  }

  lemma OwnGoCovers(s: State, t: Task)
    requires t in s.tasks
    ensures Covered(Went(s, t), t.run)
  {
    var next := Went(s, t);
    match t
    case Counting(run) => if !HasOpen(s.db, run) { assert Checking(run) in next.tasks; }
    case Checking(run) => assert Marking(run, HasFailed(s.db, run)) in next.tasks;
    case Marking(_, _) =>
  }

  lemma GoCovers(s: State, t: Task, run: RunId)
    requires Sane(s.db) && Covered(s, run)
    ensures Sane(Went(s, t).db) && Covered(Went(s, t), run)
  {
    if t in s.tasks {
      if t.Marking? { ClosingSane(s.db, t.run, ClosedAs(t.failed)); }
      if t.run == run { OwnGoCovers(s, t); } else { OtherGoCovers(s, t, run); }
    }
  }

  lemma StepCovers(s: State, e: Event, run: RunId)
    requires Sane(s.db) && Covered(s, run) && Kept(e, run)
    ensures Sane(Step(s, e).db) && Covered(Step(s, e), run)
  {
    match e
    case Act(a) => ActCovers(s, a, run);
    case Go(t) => GoCovers(s, t, run);
    case Lose(t) => TakenAway(s.tasks, t, run);
  }

  lemma {:induction false} AllCovered(events: seq<Event>, run: RunId)
    requires AllKept(events, run)
    ensures Sane(Steps(START, events).db) && Covered(Steps(START, events), run)
  {
    if events != [] {
      StepsLast(START, events);
      AllCovered(events[..|events| - 1], run);
      StepCovers(Steps(START, events[..|events| - 1]), events[|events| - 1], run);
    } else {
      RunIsSafe([]);
    }
  }

  /** No deadlock with rollups of their own: whatever happens between a commit and
      its rollup and between its statements, an active run has a step a worker can
      move or a rollup to come, unless one of its rollups was lost. */
  lemma NeverForgotten(events: seq<Event>, run: RunId)
    requires AllKept(events, run)
    requires var s := Steps(START, events); run in s.db.runs && s.db.runs[run].Active?
    ensures var s := Steps(START, events); (exists id :: IsLiveIn(s.db, run, id)) || ToCome(s, run)
  {
    AllCovered(events, run);
    var s := Steps(START, events);
    if HasOpen(s.db, run) {
      var id := OpenHasLiveStep(s.db, run);
    }
  }

  // ---- A retry between the statements ---------------------------------------

  /** A rollup of `run` has counted no open step and not yet marked the run. */
  ghost predicate PastCount(s: State, run: RunId) {
    exists t :: t in s.tasks && t.run == run && !t.Counting?
  }

  /** A closed run has no open step and the status its steps call for; a rollup of an
      active one that counted none is still right. */
  ghost predicate Consistent(s: State, run: RunId) {
    && (run in s.db.runs && !s.db.runs[run].Active? ==> !HasOpen(s.db, run) && s.db.runs[run] == ClosedAs(HasFailed(s.db, run)))
    && (run in s.db.runs && s.db.runs[run].Active? ==>
          forall t :: t in s.tasks && t.run == run ==> StillRight(s.db, t))
    && (run !in s.db.runs ==> !ToCome(s, run))
  }

  predicate StillRight(db: DB, t: Task) {
    match t
    case Counting(run) => true
    case Checking(run) => !HasOpen(db, run)
    case Marking(run, failed) => !HasOpen(db, run) && failed == HasFailed(db, run)
  }

  /** A retry reopens a step of `run` under such a rollup. */
  ghost predicate Interrupts(s: State, e: Event, run: RunId) {
    e.Act? && e.a.Retry? && Retryable(s.db, e.a.id) && s.db.steps[e.a.id].run == run && PastCount(s, run)
  }

  lemma SameKeepsRight(db: DB, next: DB, t: Task)
    requires SameIn(db, next, t.run) && StillRight(db, t)
    ensures StillRight(next, t)
  {
    SameInSays(db, next, t.run);
  }

  /** Without an open step only a retry changes anything in a run. */
  lemma SettledStays(db: DB, a: Action, run: RunId)
    requires Sane(db) && Unattended(a) && !IsCommit(db, a) && !a.Enqueue? && !HasOpen(db, run)
    requires !(a.Retry? && Retryable(db, a.id) && db.steps[a.id].run == run)
    ensures SameIn(db, Apply(db, a), run)
  {
    if a.CommitDone? || a.CommitFailed? {
      assert Apply(db, a) == db;
    } else {
      ReopeningAction(db, a);
      forall s | s in db.steps && db.steps[s].run == run
        ensures s in Apply(db, a).steps && Apply(db, a).steps[s].status == db.steps[s].status
      {
        if a == Retry(s) {
          assert Apply(db, a) == db;
        } else {
          EveryChangeIsLegal(db, a, s);
        }
      }
      ReopensSameIn(db, Apply(db, a), run);
    }
  }

  lemma ReopensSameIn(db: DB, next: DB, run: RunId)
    requires Reopens(db, next)
    requires forall s :: s in db.steps && db.steps[s].run == run ==> s in next.steps && next.steps[s].status == db.steps[s].status
    ensures SameIn(db, next, run)
  {
  }

  lemma KeepsConsistent(s: State, next: State, run: RunId)
    requires Consistent(s, run) && SameIn(s.db, next.db, run)
    requires run in s.db.runs <==> run in next.db.runs
    requires run in s.db.runs ==> s.db.runs[run] == next.db.runs[run]
    requires forall t :: t in next.tasks && t.run == run ==> t in s.tasks
    ensures Consistent(next, run)
  {
    SameInSays(s.db, next.db, run);
    if run in s.db.runs && s.db.runs[run].Active? {
      forall t | t in next.tasks && t.run == run ensures StillRight(next.db, t) {
        SameKeepsRight(s.db, next.db, t);
      }
    }
  }

  /** A run with an open step has nothing to be wrong about. */
  lemma OpenIsConsistent(s: State, run: RunId)
    requires run in s.db.runs && s.db.runs[run].Active? && !PastCount(s, run)
    ensures Consistent(s, run)
  {
    forall t | t in s.tasks && t.run == run ensures StillRight(s.db, t) {
      assert t.Counting?;
    }
  }

  lemma OpenRun(s: State, run: RunId)
    requires Consistent(s, run) && HasOpen(s.db, run) && Shape(s.db)
    ensures run in s.db.runs && s.db.runs[run].Active? && !PastCount(s, run)
  {
    var id :| id in s.db.steps && s.db.steps[id].run == run && !Terminal(s.db.steps[id].status);
    forall t | t in s.tasks && t.run == run ensures t.Counting? {
      assert StillRight(s.db, t);
    }
  }

  lemma CountingIsNotPast(s: State, next: State, run: RunId)
    requires !PastCount(s, run) && next.tasks == s.tasks + multiset{Counting(run)}
    ensures !PastCount(next, run)
  {
    assert forall t :: t in next.tasks ==> t in s.tasks || t == Counting(run);
  }

  lemma CommitConsistent(s: State, a: Action, run: RunId)
    requires Sane(s.db) && Consistent(s, run) && IsCommit(s.db, a)
    ensures Consistent(Acted(s, a), run)
  {
    var next := Acted(s, a);
    CommitOnlyIn(s.db, a);
    if s.db.steps[a.id].run == run {
      assert HasOpen(s.db, run);
      OpenRun(s, run);
      CountingIsNotPast(s, next, run);
      OpenIsConsistent(next, run);
    } else {
      KeepsConsistent(s, next, run);
    }
  }

  lemma OtherConsistent(s: State, a: Action, run: RunId)
    requires Sane(s.db) && Consistent(s, run) && Unattended(a) && !IsCommit(s.db, a) && !Interrupts(s, Act(a), run)
    ensures Consistent(Acted(s, a), run)
  {
    var next := Acted(s, a);
    OtherAction(s.db, a);
    if !Reopens(s.db, next.db) {
      EnqueueIn(s.db, a.run, a.specs, a.placed, run);
      if run == a.run {
        assert !ToCome(next, run);
      } else {
        KeepsConsistent(s, next, run);
      }
    } else if HasOpen(s.db, run) {
      OpenRun(s, run);
      OpenIsConsistent(next, run);
    } else if a.Retry? && Retryable(s.db, a.id) && s.db.steps[a.id].run == run {
      OpenIsConsistent(next, run);
    } else {
      if a.Enqueue? { assert next.db == s.db; } else { SettledStays(s.db, a, run); }
      KeepsConsistent(s, next, run);
    }
  }

  lemma GoConsistent(s: State, t: Task, run: RunId)
    requires Consistent(s, run)
    ensures Consistent(Went(s, t), run)
  {
    var next := Went(s, t);
    if t in s.tasks {
      SameInSays(s.db, next.db, run);
      if t.run != run || (t.Counting? && HasOpen(s.db, run)) {
        KeepsConsistent(s, next, run);
      } else if run in s.db.runs && s.db.runs[run].Active? && !t.Marking? {
        assert StillRight(s.db, t);
        forall u | u in next.tasks && u.run == run ensures StillRight(next.db, u) {
          assert u in s.tasks || u == Checking(run) || u == Marking(run, HasFailed(s.db, run));
        }
      } else if run in s.db.runs && s.db.runs[run].Active? {
        assert StillRight(s.db, t);
      }
    }
  }

  lemma StepConsistent(s: State, e: Event, run: RunId)
    requires Sane(s.db) && Consistent(s, run) && (e.Act? ==> Unattended(e.a)) && !Interrupts(s, e, run)
    ensures Consistent(Step(s, e), run)
  {
    match e
    case Act(a) => if IsCommit(s.db, a) { CommitConsistent(s, a, run); } else { OtherConsistent(s, a, run); }
    case Go(t) => GoConsistent(s, t, run);
    case Lose(t) => KeepsConsistent(s, Step(s, e), run);
  }

  lemma StepSane(s: State, e: Event)
    requires Sane(s.db) && (e.Act? ==> Unattended(e.a))
    ensures Sane(Step(s, e).db)
  {
    match e
    case Act(a) => if IsCommit(s.db, a) { CommitSane(s.db, a); } else { OtherAction(s.db, a); }
    case Go(t) => if t.Marking? { ClosingSane(s.db, t.run, ClosedAs(t.failed)); }
    case Lose(_) =>
  }

  /** No user cancels anything, and no retry comes between a count of `run` and its
      mark. */
  ghost predicate Timely(events: seq<Event>, run: RunId) {
    forall i :: 0 <= i < |events| ==>
                  && (events[i].Act? ==> Unattended(events[i].a))
                  && !Interrupts(Steps(START, events[..i]), events[i], run)
  }

  lemma {:induction false} AllConsistent(events: seq<Event>, run: RunId)
    requires Timely(events, run)
    ensures Sane(Steps(START, events).db) && Consistent(Steps(START, events), run)
  {
    if events != [] {
      var n := |events| - 1;
      var init := events[..n];
      assert forall i :: 0 <= i < n ==> init[i] == events[i] && init[..i] == events[..i];
      StepsLast(START, events);
      AllConsistent(init, run);
      StepConsistent(Steps(START, init), events[n], run);
      StepSane(Steps(START, init), events[n]);
    } else {
      RunIsSafe([]);
    }
  }

  /** Unless a retry comes between the count and the mark of one of its rollups, a run
      is closed only when no step is open, as failed exactly when one failed. */
  lemma ClosedIsRight(events: seq<Event>, run: RunId)
    requires Timely(events, run)
    requires var s := Steps(START, events); run in s.db.runs && !s.db.runs[run].Active?
    ensures var s := Steps(START, events); !HasOpen(s.db, run) && s.db.runs[run] == ClosedAs(HasFailed(s.db, run))
  {
    AllConsistent(events, run);
  }

  /** A closed run with an open step. */
  ghost predicate Wrong(s: State, run: RunId) {
    run in s.db.runs && !s.db.runs[run].Active? && HasOpen(s.db, run)
  }

  predicate OnlyRollups(events: seq<Event>) {
    forall e :: e in events ==> e.Go?
  }

  /** A rollup past its count closes its run, open steps or not; one that has still to
      count closes a run without open steps. */
  lemma RollupCloses(s: State, t: Task) returns (events: seq<Event>)
    requires t in s.tasks && t.run in s.db.runs && (t.Counting? ==> !HasOpen(s.db, t.run))
    ensures OnlyRollups(events)
    ensures var end := Steps(s, events); end.db.steps == s.db.steps && t.run in end.db.runs && !end.db.runs[t.run].Active?
    decreases if t.Counting? then 2 else if t.Checking? then 1 else 0
  {
    var next := Went(s, t);
    if t.Marking? {
      events := [Go(t)];
      StepsOne(s, Go(t));
    } else {
      var u := if t.Counting? then Checking(t.run) else Marking(t.run, HasFailed(s.db, t.run));
      assert u in next.tasks;
      var rest := RollupCloses(next, u);
      events := [Go(t)] + rest;
      StepsFirst(s, Go(t), next, rest);
    }
  }

  lemma {:induction false} RollupsStayConsistent(s: State, events: seq<Event>, run: RunId)
    requires Consistent(s, run) && OnlyRollups(events)
    ensures Consistent(Steps(s, events), run)
  {
    if events != [] {
      var init, last := events[..|events| - 1], events[|events| - 1];
      assert last in events;
      StepsLast(s, events);
      RollupsStayConsistent(s, init, run);
      GoConsistent(Steps(s, init), last.t, run);
    }
  }

  /** What a retry risks: its run can be closed with the step back in the queue
      exactly when a rollup of the run was past its count. */
  lemma RetryRisksIff(s: State, id: StepId)
    requires Sane(s.db) && Retryable(s.db, id) && Consistent(s, s.db.steps[id].run)
    ensures var run := s.db.steps[id].run;
            (exists events :: OnlyRollups(events) && Wrong(Steps(Acted(s, Retry(id)), events), run)) <==> PastCount(s, run)
  {
    var run, next := s.db.steps[id].run, Acted(s, Retry(id));
    assert next.db.steps[id].status.Queued? && next.db.steps[id].run == run;
    if PastCount(s, run) {
      var t :| t in s.tasks && t.run == run && !t.Counting?;
      var events := RollupCloses(next, t);
      assert HasOpen(next.db, run);
      assert Wrong(Steps(next, events), run);
    } else {
      OtherConsistent(s, Retry(id), run);
      forall events | OnlyRollups(events) ensures !Wrong(Steps(next, events), run) {
        RollupsStayConsistent(next, events, run);
      }
    }
  }

  // ---- A run that is closed under a retried step ----------------------------

  /** One step that fails, and is retried between the count and the check of the
      rollup that its failure started. */
  function RetriedUnderRollup(place: Placement): seq<Event> {
    [Act(Enqueue(0, [StepSpec(0, "image", 3, [])], map[0 := place])), Act(ClaimSteps({0})), Act(CommitFailed(0, 1)),
     Go(Counting(0)), Act(Retry(0)), Go(Checking(0)), Go(Marking(0, false))]
  }

  /** The tables of a run of this one step. */
  predicate OneStep(db: DB, status: Status, attempt: nat, run: RunStatus) {
    && db.steps.Keys == {0} && db.deps == map[0 := {}] && db.runs == map[0 := run]
    && var r := db.steps[0]; r.run == 0 && r.status == status && r.attempt == attempt && r.remaining == 0
  }

  lemma OneStepEnqueued(place: Placement, specs: seq<StepSpec>, placed: map<StepId, Placement>)
    requires place.queue in QUEUES && specs == [StepSpec(0, "image", 3, [])] && placed == map[0 := place]
    ensures OneStep(Apply(EMPTY, Enqueue(0, specs, placed)), Queued, 0, Active)
  {
    OrderedIsAcyclic(specs, [0]);
    assert specs[0] in specs;
    EnqueueExtends(EMPTY, 0, specs, placed);
    assert DepSet(specs[0]) == {};
  }

  lemma OneStepFails(db: DB)
    requires OneStep(db, Running, 1, Active)
    ensures IsCommit(db, CommitFailed(0, 1)) && OneStep(CommitOnly(db, CommitFailed(0, 1)), Failed, 1, Active)
  {
  }

  lemma OneStepOpen(db: DB, status: Status, attempt: nat, run: RunStatus)
    requires OneStep(db, status, attempt, run)
    ensures HasOpen(db, 0) <==> !Terminal(status)
    ensures HasFailed(db, 0) <==> status.Failed?
  {
    assert 0 in db.steps;
  }

  /** A retry under a rollup that has counted. */
  lemma RetriedAfterCount(s: State)
    requires OneStep(s.db, Failed, 1, Active) && s.tasks == multiset{Checking(0)}
    ensures var end := Steps(s, [Act(Retry(0)), Go(Checking(0)), Go(Marking(0, false))]);
            OneStep(end.db, Queued, 1, RunDone)
  {
    var next := Acted(s, Retry(0));
    assert OneStep(next.db, Queued, 1, Active);
    OneStepOpen(next.db, Queued, 1, Active);
    var rest := [Go(Checking(0)), Go(Marking(0, false))];
    StepsFirst(s, Act(Retry(0)), next, rest);
    assert [Act(Retry(0))] + rest == [Act(Retry(0)), Go(Checking(0)), Go(Marking(0, false))];
    var last := Went(next, Checking(0));
    assert last == State(next.db, multiset{Marking(0, false)});
    StepsFirst(next, Go(Checking(0)), last, [Go(Marking(0, false))]);
    assert [Go(Checking(0))] + [Go(Marking(0, false))] == rest;
    StepsOne(last, Go(Marking(0, false)));
  }

  /** The step fails, and the rollup that this starts counts. */
  lemma FailedAndCounted(s: State)
    requires OneStep(s.db, Queued, 0, Active) && s.tasks == multiset{}
    ensures var end := Steps(s, [Act(ClaimSteps({0})), Act(CommitFailed(0, 1)), Go(Counting(0))]);
            OneStep(end.db, Failed, 1, Active) && end.tasks == multiset{Checking(0)}
  {
    var claimed := Acted(s, ClaimSteps({0}));
    assert OneStep(claimed.db, Running, 1, Active);
    var rest := [Act(CommitFailed(0, 1)), Go(Counting(0))];
    StepsFirst(s, Act(ClaimSteps({0})), claimed, rest);
    assert [Act(ClaimSteps({0}))] + rest == [Act(ClaimSteps({0})), Act(CommitFailed(0, 1)), Go(Counting(0))];
    OneStepFails(claimed.db);
    var failed := Acted(claimed, CommitFailed(0, 1));
    assert failed.tasks == multiset{Counting(0)};
    StepsFirst(claimed, Act(CommitFailed(0, 1)), failed, [Go(Counting(0))]);
    assert [Act(CommitFailed(0, 1))] + [Go(Counting(0))] == rest;
    OneStepOpen(failed.db, Failed, 1, Active);
    StepsOne(failed, Go(Counting(0)));
    assert Went(failed, Counting(0)) == State(failed.db, multiset{Checking(0)});
  }

  /** The run is marked done with its only step back in the queue. */
  lemma DoneUnderRetry(place: Placement)
    requires place.queue in QUEUES
    ensures var s := Steps(START, RetriedUnderRollup(place)); OneStep(s.db, Queued, 1, RunDone) && Wrong(s, 0)
  {
    var all := RetriedUnderRollup(place);
    var a, b, c := all[..1], all[1..4], all[4..];
    assert all[0].a == Enqueue(0, all[0].a.specs, all[0].a.placed);
    assert b == [Act(ClaimSteps({0})), Act(CommitFailed(0, 1)), Go(Counting(0))];
    assert c == [Act(Retry(0)), Go(Checking(0)), Go(Marking(0, false))];
    OneStepEnqueued(place, all[0].a.specs, all[0].a.placed);
    StepsOne(START, all[0]);
    FailedAndCounted(Steps(START, [all[0]]));
    RetriedAfterCount(Steps(Steps(START, [all[0]]), b));
    StepsAppend(START, a, b);
    StepsAppend(START, a + b, c);
    assert a == [all[0]] && a + b + c == all;
    OneStepOpen(Steps(START, all).db, Queued, 1, RunDone);
  }
}
