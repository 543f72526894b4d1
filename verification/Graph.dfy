/** Dependency graphs: walks, cycles, topological orders, and the descent
    argument that every non-empty set of steps of an acyclic graph has a step
    that depends on no other step of the set. */
module Graph {

  type StepId = nat

  /** `g[s]` is the set of steps that `s` depends on. */
  type Deps = map<StepId, set<StepId>>

  ghost predicate Closed(g: Deps) {
    forall s, d :: s in g && d in g[s] ==> d in g
  }

  ghost predicate Edge(g: Deps, s: StepId, d: StepId) {
    s in g && d in g[s]
  }

  /** Each step of `p` depends on the step after it. */
  ghost predicate Walk(g: Deps, p: seq<StepId>) {
    forall i :: 0 <= i < |p| - 1 ==> Edge(g, p[i], p[i + 1])
  }

  ghost predicate CycleThrough(g: Deps, p: seq<StepId>, id: StepId) {
    |p| >= 2 && Walk(g, p) && p[0] == id && p[|p| - 1] == id
  }

  ghost predicate OnCycle(g: Deps, id: StepId) {
    exists p :: CycleThrough(g, p, id)
  }

  ghost predicate Acyclic(g: Deps) {
    forall id :: !OnCycle(g, id)
  }

  /** `order` lists every step of `g` once, each after all it depends on. */
  ghost predicate Topological(g: Deps, order: seq<StepId>) {
    && (forall i, j :: 0 <= i < j < |order| ==> order[i] != order[j])
    && (forall s :: s in g <==> s in order)
    && (forall i, d :: 0 <= i < |order| && Edge(g, order[i], d) ==> d in order[..i])
  }

  function IndexOf(order: seq<StepId>, s: StepId): (i: nat)
    requires s in order
    ensures i < |order| && order[i] == s
  {
    if order[0] == s then 0 else 1 + IndexOf(order[1..], s)
  }

  /** Along a walk the position in a topological order only goes down. */
  lemma {:induction false} WalkDescends(g: Deps, order: seq<StepId>, p: seq<StepId>, k: nat)
    requires Topological(g, order) && Closed(g) && Walk(g, p)
    requires k < |p| && p[0] in g
    ensures p[k] in order && IndexOf(order, p[k]) + k <= IndexOf(order, p[0])
  {
    if k > 0 {
      WalkDescends(g, order, p, k - 1);
      assert Edge(g, p[k - 1], p[k - 1 + 1]);
      var i := IndexOf(order, p[k - 1]);
      assert p[k] in order[..i];
      var j: nat :| j < i && order[j] == p[k];
      assert j == IndexOf(order, p[k]);
    }
  }

  lemma TopologicalIsAcyclic(g: Deps, order: seq<StepId>)
    requires Topological(g, order) && Closed(g)
    ensures Acyclic(g)
  {
    forall id | OnCycle(g, id) ensures false {
      var p :| CycleThrough(g, p, id);
      assert Edge(g, p[0], p[0 + 1]);
      WalkDescends(g, order, p, |p| - 1);
    }
  }

  /** `x` depends on no step of `s`. */
  ghost predicate FreeOf(g: Deps, x: StepId, s: set<StepId>) {
    forall d :: d in s ==> !Edge(g, x, d)
  }

  /** A walk of any length inside `s`, when every step of `s` depends on one of `s`. */
  lemma {:induction false} WalkInside(g: Deps, s: set<StepId>, x: StepId, n: nat) returns (p: seq<StepId>)
    requires x in s
    requires forall y :: y in s ==> !FreeOf(g, y, s)
    ensures |p| == n + 1 && p[0] == x && Walk(g, p)
    ensures forall i :: 0 <= i < |p| ==> p[i] in s
    decreases n
  {
    p := [x];
    if n > 0 {
      var d :| d in s && Edge(g, x, d);
      var q := WalkInside(g, s, d, n - 1);
      p := [x] + q;
    }
  }

  /** More positions than values: two positions agree. */
  lemma {:induction false} Pigeonhole(p: seq<StepId>, s: set<StepId>) returns (i: nat, j: nat)
    requires |p| > |s|
    requires forall k :: 0 <= k < |p| ==> p[k] in s
    ensures i < j < |p| && p[i] == p[j]
  {
    var last := p[|p| - 1];
    var q := p[..|p| - 1];
    if last in q {
      i :| 0 <= i < |q| && q[i] == last;
      j := |p| - 1;
    } else {
      i, j := Pigeonhole(q, s - {last});
    }
  }

  /** A walk that comes back to a step closes a cycle through it. */
  lemma RevisitClosesCycle(g: Deps, p: seq<StepId>, i: nat, j: nat)
    requires Walk(g, p) && i < j < |p| && p[i] == p[j]
    ensures OnCycle(g, p[i])
  {
    var c := p[i..j + 1];
    forall k | 0 <= k < |c| - 1 ensures Edge(g, c[k], c[k + 1]) {
      assert Edge(g, p[i + k], p[i + k + 1]);
    }
    assert CycleThrough(g, c, p[i]);
  }

  /** In an acyclic graph dependencies cannot be followed round forever. */
  lemma AcyclicHasMinimal(g: Deps, s: set<StepId>) returns (x: StepId)
    requires Acyclic(g) && s != {}
    ensures x in s && FreeOf(g, x, s)
  {
    if y :| y in s && FreeOf(g, y, s) {
      x := y;
    } else {
      x :| x in s;
      var p := WalkInside(g, s, x, |s|);
      var i, j := Pigeonhole(p, s);
      RevisitClosesCycle(g, p, i, j);
      assert false;
    }
  }
}
