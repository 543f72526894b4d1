/** The step graph check that runs before a run is enqueued: distinct ids,
    dependencies inside the request, and a three-colour depth-first search for
    cycles. */
module GraphValidator {
  import opened Graph

  datatype StepSpec = StepSpec(id: StepId, kind: string, priority: int, dependsOn: seq<StepId>)

  datatype GraphError =
    | Valid
    | DuplicateId(id: StepId)
    | SelfDependency(id: StepId)
    | OutsideDependency(id: StepId, dep: StepId)
    | Cycle(id: StepId)

  /** A step that is in no colour map entry has not been visited. */
  datatype Colour = Visiting | Finished

  ghost predicate DistinctIds(steps: seq<StepSpec>) {
    forall i, j :: 0 <= i < j < |steps| ==> steps[i].id != steps[j].id
  }

  ghost function Ids(steps: seq<StepSpec>): set<StepId> {
    set s | s in steps :: s.id
  }

  ghost predicate DepsInside(steps: seq<StepSpec>) {
    forall s, d :: s in steps && d in s.dependsOn ==> d in Ids(steps)
  }

  ghost function DepSet(s: StepSpec): set<StepId> {
    set d | d in s.dependsOn
  }

  /** The dependency graph of a request. */
  ghost function DepsOf(steps: seq<StepSpec>): (g: Deps)
    ensures g.Keys == Ids(steps)
  {
    if steps == [] then map[]
    else
      var init, last := steps[..|steps| - 1], steps[|steps| - 1];
      assert steps == init + [last];
      DepsOf(init)[last.id := DepSet(last)]
  }

  lemma {:induction false} DepsOfStep(steps: seq<StepSpec>, i: nat)
    requires i < |steps| && DistinctIds(steps)
    ensures DepsOf(steps)[steps[i].id] == DepSet(steps[i])
  {
    var init := steps[..|steps| - 1];
    if i < |steps| - 1 {
      DepsOfStep(init, i);
      assert steps[i].id in DepsOf(init);
    }
  }

  /** Every edge of the request's graph is a dependency some step lists. */
  lemma DepsOfClosed(steps: seq<StepSpec>)
    requires DistinctIds(steps)
    ensures forall s :: s in steps ==> DepsOf(steps)[s.id] == DepSet(s)
    ensures Closed(DepsOf(steps)) <==> DepsInside(steps)
  {
    forall s | s in steps ensures DepsOf(steps)[s.id] == DepSet(s) {
      var i :| 0 <= i < |steps| && steps[i] == s;
      DepsOfStep(steps, i);
    }
    if Closed(DepsOf(steps)) {
      forall s, d | s in steps && d in s.dependsOn ensures d in Ids(steps) {
        assert d in DepsOf(steps)[s.id];
      }
    }
  }

  /** Every step depends only on steps listed before it. */
  ghost predicate Ordered(specs: seq<StepSpec>) {
    forall k, d :: 0 <= k < |specs| && d in specs[k].dependsOn ==> exists j :: 0 <= j < k && specs[j].id == d
  }

  lemma OrderedIsInside(specs: seq<StepSpec>)
    requires Ordered(specs)
    ensures DepsInside(specs)
  {
    forall s, d | s in specs && d in s.dependsOn ensures d in Ids(specs) {
      var k :| 0 <= k < |specs| && specs[k] == s;
      var j :| 0 <= j < k && specs[j].id == d;
      assert specs[j] in specs;
    }
  }

  lemma OrderedEdge(specs: seq<StepSpec>, order: seq<StepId>, i: nat, d: StepId)
    requires DistinctIds(specs) && Ordered(specs) && i < |specs| == |order|
    requires forall k :: 0 <= k < |specs| ==> order[k] == specs[k].id
    requires Edge(DepsOf(specs), order[i], d)
    ensures d in order[..i]
  {
    DepsOfStep(specs, i);
    var j :| 0 <= j < i && specs[j].id == d;
    assert order[..i][j] == d;
  }

  /** A request in dependency order has no cycle. */
  lemma OrderedIsAcyclic(specs: seq<StepSpec>, order: seq<StepId>)
    requires DistinctIds(specs) && Ordered(specs)
    requires |order| == |specs| && forall k :: 0 <= k < |specs| ==> order[k] == specs[k].id
    ensures DepsInside(specs) && Acyclic(DepsOf(specs))
  {
    OrderedIsInside(specs);
    DepsOfClosed(specs);
    forall k | 0 <= k < |order| ensures order[k] in Ids(specs) {
      assert specs[k] in specs;
    }
    forall i, d | 0 <= i < |order| && Edge(DepsOf(specs), order[i], d) ensures d in order[..i] {
      OrderedEdge(specs, order, i, d);
    }
    TopologicalIsAcyclic(DepsOf(specs), order);
  }

  /** Stepping back onto the stack of steps being visited closes a cycle. */
  lemma StackCycle(g: Deps, stack: seq<StepId>, id: StepId)
    requires Walk(g, stack) && id in stack && Edge(g, stack[|stack| - 1], id)
    ensures OnCycle(g, id)
  {
    var p := stack + [id];
    var k :| 0 <= k < |stack| && stack[k] == id;
    forall i | 0 <= i < |p| - 1 ensures Edge(g, p[i], p[i + 1]) {
      if i < |stack| - 1 { assert Edge(g, stack[i], stack[i + 1]); }
    }
    RevisitClosesCycle(g, p, k, |stack|);
  }

  /** Visiting steps are exactly the stack, finished steps exactly `order`, and
      everything a finished step depends on was finished before it. */
  ghost predicate Consistent(g: Deps, state: map<StepId, Colour>, order: seq<StepId>, stack: seq<StepId>) {
    && state.Keys <= g.Keys
    && (forall s :: s in stack <==> s in state && state[s].Visiting?)
    && (forall s :: s in order <==> s in state && state[s].Finished?)
    && (forall i, j :: 0 <= i < j < |order| ==> order[i] != order[j])
    && (forall i, d :: 0 <= i < |order| && Edge(g, order[i], d) ==> d in order[..i])
    && Walk(g, stack)
  }

  lemma PushKeeps(g: Deps, state: map<StepId, Colour>, order: seq<StepId>, stack: seq<StepId>, id: StepId)
    requires Consistent(g, state, order, stack) && id in g && id !in state
    requires stack != [] ==> Edge(g, stack[|stack| - 1], id)
    ensures Consistent(g, state[id := Visiting], order, stack + [id])
  {
    var inner := stack + [id];
    forall i | 0 <= i < |inner| - 1 ensures Edge(g, inner[i], inner[i + 1]) {
      if i < |stack| - 1 { assert Edge(g, stack[i], stack[i + 1]); }
    }
  }

  lemma PopKeeps(g: Deps, state: map<StepId, Colour>, order: seq<StepId>, stack: seq<StepId>, id: StepId)
    requires Consistent(g, state, order, stack + [id]) && id in g && id !in stack
    requires forall d :: d in g[id] ==> d in order
    ensures Consistent(g, state[id := Finished], order + [id], stack)
  {
    var inner := stack + [id];
    assert inner[|stack|] == id && id in inner;
    forall s ensures s in stack <==> s in state[id := Finished] && state[id := Finished][s].Visiting? {
      assert s in inner <==> s in stack || s == id;
    }
    forall i | 0 <= i < |stack| - 1 ensures Edge(g, stack[i], stack[i + 1]) {
      assert inner[i] == stack[i] && inner[i + 1] == stack[i + 1];
      assert Edge(g, inner[i], inner[i + 1]);
    }
    var next := order + [id];
    forall i, d | 0 <= i < |next| && Edge(g, next[i], d) ensures d in next[..i] {
      if i < |order| {
        assert next[i] == order[i] && next[..i] == order[..i];
      } else {
        assert next[..i] == order;
      }
    }
  }

  /** The variables the recursive visit shares: the requested steps by id and
      the colour of every step reached so far. */
  class Search {
    const byID: map<StepId, StepSpec>
    var state: map<StepId, Colour>
    /** The steps in the order they were finished. */
    ghost var order: seq<StepId>

    constructor (byID: map<StepId, StepSpec>)
      ensures this.byID == byID && state == map[] && order == []
    {
      this.byID, state, order := byID, map[], [];
    }

    ghost predicate Represents(g: Deps) {
      && Closed(g)
      && byID.Keys == g.Keys
      && (forall s :: s in g ==> g[s] == DepSet(byID[s]))
    }

    method Visit(id: StepId, ghost g: Deps, ghost stack: seq<StepId>) returns (err: GraphError)
      requires Represents(g) && Consistent(g, state, order, stack) && id in g
      requires stack != [] ==> Edge(g, stack[|stack| - 1], id)
      modifies this
      ensures old(state.Keys) <= state.Keys && old(order) <= order
      ensures err.Valid? ==> Consistent(g, state, order, stack) && id in order
      ensures !err.Valid? ==> err.Cycle? && OnCycle(g, err.id)
      decreases g.Keys - state.Keys
    {
      if id in state {
        if state[id].Finished? {
          return Valid;
        }
        StackCycle(g, stack, id);
        return Cycle(id);
      }
      PushKeeps(g, state, order, stack, id);
      state := state[id := Visiting];
      var deps := byID[id].dependsOn;
      for k := 0 to |deps|
        invariant old(state.Keys) + {id} <= state.Keys && old(order) <= order
        invariant Consistent(g, state, order, stack + [id])
        invariant forall j :: 0 <= j < k ==> deps[j] in order
      {
        assert deps[k] in g[id];
        err := Visit(deps[k], g, stack + [id]);
        if !err.Valid? {
          return;
        }
      }
      PopKeeps(g, state, order, stack, id);
      state := state[id := Finished];
      order := order + [id];
      return Valid;
    }

    method VisitAll(steps: seq<StepSpec>, ghost g: Deps) returns (err: GraphError)
      requires Represents(g) && state == map[] && order == []
      requires forall s :: s in g <==> exists j :: 0 <= j < |steps| && steps[j].id == s
      modifies this
      ensures err.Valid? ==> Topological(g, order)
      ensures !err.Valid? ==> err.Cycle? && OnCycle(g, err.id)
    {
      for i := 0 to |steps|
        invariant Consistent(g, state, order, [])
        invariant forall j :: 0 <= j < i ==> steps[j].id in order
      {
        err := Visit(steps[i].id, g, []);
        if !err.Valid? {
          return;
        }
      }
      return Valid;
    }
  }

  method IndexById(steps: seq<StepSpec>) returns (err: GraphError, byID: map<StepId, StepSpec>)
    ensures err.Valid? ==> DistinctIds(steps) && byID.Keys == Ids(steps)
    ensures err.Valid? ==> forall s :: s in steps ==> byID[s.id] == s
    ensures !err.Valid? ==> err.DuplicateId?
                            && exists i, j :: 0 <= i < j < |steps| && steps[i].id == steps[j].id == err.id
  {
    byID := map[];
    for i := 0 to |steps|
      invariant forall j :: 0 <= j < i ==> steps[j].id in byID && byID[steps[j].id] == steps[j]
      invariant forall s :: s in byID ==> exists j :: 0 <= j < i && steps[j].id == s
      invariant forall j, k :: 0 <= j < k < i ==> steps[j].id != steps[k].id
    {
      if steps[i].id in byID {
        return DuplicateId(steps[i].id), byID;
      }
      byID := byID[steps[i].id := steps[i]];
    }
    return Valid, byID;
  }

  method CheckDependencies(steps: seq<StepSpec>, byID: map<StepId, StepSpec>) returns (err: GraphError)
    requires byID.Keys == Ids(steps)
    ensures err.Valid? ==> DepsInside(steps) && forall s :: s in steps ==> s.id !in s.dependsOn
    ensures !err.Valid? ==> err.SelfDependency? || err.OutsideDependency?
    ensures err.SelfDependency? ==> exists s :: s in steps && s.id == err.id && err.id in s.dependsOn
    ensures err.OutsideDependency? ==>
              exists s :: s in steps && s.id == err.id && err.dep in s.dependsOn && err.dep !in Ids(steps)
  {
    for i := 0 to |steps|
      invariant forall j :: 0 <= j < i ==> steps[j].id !in steps[j].dependsOn
      invariant forall j, d :: 0 <= j < i && d in steps[j].dependsOn ==> d in Ids(steps)
    {
      var s := steps[i];
      for k := 0 to |s.dependsOn|
        invariant forall j :: 0 <= j < k ==> s.dependsOn[j] != s.id && s.dependsOn[j] in Ids(steps)
      {
        var dep := s.dependsOn[k];
        if dep == s.id {
          return SelfDependency(s.id);
        }
        if dep !in byID {
          return OutsideDependency(s.id, dep);
        }
      }
    }
    return Valid;
  }

  lemma SelfEdgeIsCycle(g: Deps, id: StepId)
    requires Edge(g, id, id)
    ensures OnCycle(g, id)
  {
    assert CycleThrough(g, [id, id], id);
  }

  /** Accepts a request exactly when its ids are distinct, every dependency is
      in the request and no step depends on itself, directly or not. */
  method ValidateGraph(steps: seq<StepSpec>) returns (err: GraphError, ghost order: seq<StepId>)
    ensures err.Valid? <==> DistinctIds(steps) && DepsInside(steps) && Acyclic(DepsOf(steps))
    ensures err.Valid? ==> Topological(DepsOf(steps), order)
    ensures err.DuplicateId? ==> exists i, j :: 0 <= i < j < |steps| && steps[i].id == steps[j].id == err.id
    ensures err.SelfDependency? ==> exists s :: s in steps && s.id == err.id && err.id in s.dependsOn
    ensures err.OutsideDependency? ==>
              exists s :: s in steps && s.id == err.id && err.dep in s.dependsOn && err.dep !in Ids(steps)
    ensures err.Cycle? ==> DistinctIds(steps) && DepsInside(steps) && OnCycle(DepsOf(steps), err.id)
  {
    order := [];
    var byID;
    err, byID := IndexById(steps);
    if !err.Valid? {
      return;
    }
    DepsOfClosed(steps);
    ghost var g := DepsOf(steps);
    err := CheckDependencies(steps, byID);
    if err.SelfDependency? {
      SelfEdgeIsCycle(g, err.id);
    }
    if !err.Valid? {
      return;
    }
    var search := new Search(byID);
    err := search.VisitAll(steps, g);
    if err.Valid? {
      order := search.order;
      TopologicalIsAcyclic(g, order);
    }
  }
}
