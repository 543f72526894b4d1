/** Freezing a render: one step for every cache entry the manifest needs and does
    not have, then compose, then preview. */
module Freeze {
  import opened Graph
  import opened GraphValidator
  import opened Protocol
  import opened DependencySafety
  import opened Timeline
  import opened Manifests

  const SCENE_BODY := "render.scene_body"
  const TRANSITION := "render.transition"
  const AUDIO_MASTER := "render.audio_master"
  const SUBTITLES := "render.subtitles"
  const COMPOSE := "render.compose"
  const PREVIEW := "render.preview"
  const PRIORITY_BATCH := 3

  /** A step of a manifest's graph before it has an id. */
  datatype PlannedStep = PlannedStep(kind: string, hash: string)

  // ---- The entries a manifest needs ----------------------------------------

  function SegmentStep(h: Hashing, m: Manifest, s: Segment): PlannedStep
    requires Drawable(m, s)
  {
    PlannedStep(if s.kind.Transition? then TRANSITION else SCENE_BODY, SegmentHash(h, m, s))
  }

  function SegmentSteps(h: Hashing, m: Manifest, segments: seq<Segment>): (steps: seq<PlannedStep>)
    requires forall s :: s in segments ==> Drawable(m, s)
    ensures |steps| == |segments|
    ensures forall k :: 0 <= k < |segments| ==> steps[k] == SegmentStep(h, m, segments[k])
  {
    seq(|segments|, k requires 0 <= k < |segments| => SegmentStep(h, m, segments[k]))
  }

  function MasterSteps(h: Hashing, m: Manifest, t: Timeline, lang: string): seq<PlannedStep>
    requires |t.scenes| == |m.scenes|
  {
    [PlannedStep(AUDIO_MASTER, AudioHash(h, m, t)), PlannedStep(SUBTITLES, SubtitlesHash(h, m, t, lang))]
  }

  /** Every cacheable step of a manifest, segments in timeline order first. */
  method PlanSteps(h: Hashing, m: Manifest, t: Timeline, lang: string) returns (out: seq<PlannedStep>)
    requires |t.scenes| == |m.scenes| && forall s :: s in t.segments ==> Drawable(m, s)
    ensures out == SegmentSteps(h, m, t.segments) + MasterSteps(h, m, t, lang)
  {
    out := [];
    for k := 0 to |t.segments|
      invariant out == SegmentSteps(h, m, t.segments)[..k]
    {
      var seg := t.segments[k];
      var kind := SCENE_BODY;
      if seg.kind == SegmentKind.Transition { kind := TRANSITION; }
      out := out + [PlannedStep(kind, SegmentHash(h, m, seg))];
    }
    out := out + [PlannedStep(AUDIO_MASTER, AudioHash(h, m, t)), PlannedStep(SUBTITLES, SubtitlesHash(h, m, t, lang))];
  }

  function Hashes(steps: seq<PlannedStep>): (hashes: seq<string>)
    ensures |hashes| == |steps|
    ensures forall k :: 0 <= k < |steps| ==> hashes[k] == steps[k].hash
  {
    seq(|steps|, k requires 0 <= k < |steps| => steps[k].hash)
  }

  /** The first planned step of every hash that is not in `cached`, in order. */
  ghost function Needed(planned: seq<PlannedStep>, cached: seq<string>): seq<PlannedStep> {
    if planned == [] then []
    else
      var before, last := Needed(planned[..|planned| - 1], cached), planned[|planned| - 1];
      if last.hash in cached || last.hash in Hashes(before) then before else before + [last]
  }

  /** `hashes` without the cached ones. */
  ghost function Missing(hashes: seq<string>, cached: seq<string>): seq<string> {
    if hashes == [] then []
    else
      var before, last := Missing(hashes[..|hashes| - 1], cached), hashes[|hashes| - 1];
      if last in cached then before else before + [last]
  }

  ghost predicate AllDifferent(hashes: seq<string>) {
    forall i, j :: 0 <= i < j < |hashes| ==> hashes[i] != hashes[j]
  }

  lemma HashesAppend(steps: seq<PlannedStep>, s: PlannedStep)
    ensures Hashes(steps + [s]) == Hashes(steps) + [s.hash]
  {
  }

  /** The needed steps cover every hash that is not cached, each once. */
  lemma {:induction false} NeededCovers(planned: seq<PlannedStep>, cached: seq<string>)
    ensures AllDifferent(Hashes(Needed(planned, cached)))
    ensures forall h :: h in Hashes(Needed(planned, cached)) <==> h in Hashes(planned) && h !in cached
    ensures forall p :: p in Needed(planned, cached) ==> p in planned
  {
    if planned != [] {
      var init, last := planned[..|planned| - 1], planned[|planned| - 1];
      NeededCovers(init, cached);
      HashesAppend(init, last);
      HashesAppend(Needed(init, cached), last);
      assert planned == init + [last];
    }
  }

  lemma MissingAppend(hashes: seq<string>, h: string, cached: seq<string>)
    ensures Missing(hashes + [h], cached) == if h in cached then Missing(hashes, cached) else Missing(hashes, cached) + [h]
  {
    assert (hashes + [h])[..|hashes|] == hashes;
  }

  /** The steps a freeze enqueues before compose and preview are the pinned hashes
      that are not cached, in the same order. */
  lemma {:induction false} NeededIsPinnedMinusCached(planned: seq<PlannedStep>, cached: seq<string>)
    ensures Hashes(Needed(planned, cached)) == Missing(Hashes(Needed(planned, [])), cached)
  {
    if planned != [] {
      var init, last := planned[..|planned| - 1], planned[|planned| - 1];
      NeededIsPinnedMinusCached(init, cached);
      NeededCovers(init, cached);
      NeededCovers(init, []);
      HashesAppend(Needed(init, cached), last);
      HashesAppend(Needed(init, []), last);
      MissingAppend(Hashes(Needed(init, [])), last.hash, cached);
    }
  }

  /** The cache entries a manifest needs, each once. */
  method PinnedHashes(steps: seq<PlannedStep>) returns (out: seq<string>)
    ensures out == Hashes(Needed(steps, []))
  {
    var seen: set<string> := {};
    out := [];
    for i := 0 to |steps|
      invariant out == Hashes(Needed(steps[..i], []))
      invariant forall h :: h in seen <==> h in out
    {
      assert steps[..i + 1][..i] == steps[..i];
      HashesAppend(Needed(steps[..i], []), steps[i]);
      if steps[i].hash !in seen {
        seen := seen + {steps[i].hash};
        out := out + [steps[i].hash];
      }
    }
    assert steps[..|steps|] == steps;
  }

  // ---- The graph -----------------------------------------------------------

  /** What is enqueued: the needed steps, compose after all of them, preview after
      compose; `inputs` is the hash each step is given. */
  ghost predicate IsFrozen(specs: seq<StepSpec>, inputs: seq<string>, needed: seq<PlannedStep>,
                           ids: seq<StepId>, hash: string, previewHash: string)
  {
    var n := |needed|;
    && |specs| == |inputs| == n + 2 <= |ids|
    && (forall k :: 0 <= k < n ==> specs[k] == StepSpec(ids[k], needed[k].kind, PRIORITY_BATCH, []) && inputs[k] == needed[k].hash)
    && specs[n] == StepSpec(ids[n], COMPOSE, PRIORITY_BATCH, ids[..n]) && inputs[n] == hash
    && specs[n + 1] == StepSpec(ids[n + 1], PREVIEW, PRIORITY_BATCH, [ids[n]]) && inputs[n + 1] == previewHash
  }

  /** The steps built for the needed ones so far. */
  ghost predicate Built(specs: seq<StepSpec>, inputs: seq<string>, deps: seq<StepId>, needed: seq<PlannedStep>, ids: seq<StepId>) {
    && |specs| == |inputs| == |needed| <= |ids| && deps == ids[..|needed|]
    && forall k :: 0 <= k < |needed| ==>
                     specs[k] == StepSpec(ids[k], needed[k].kind, PRIORITY_BATCH, []) && inputs[k] == needed[k].hash
  }

  lemma BuiltOneMore(specs: seq<StepSpec>, inputs: seq<string>, deps: seq<StepId>, needed: seq<PlannedStep>,
                     ids: seq<StepId>, p: PlannedStep)
    requires Built(specs, inputs, deps, needed, ids) && |needed| < |ids|
    ensures var id := ids[|specs|];
            Built(specs + [StepSpec(id, p.kind, PRIORITY_BATCH, [])], inputs + [p.hash], deps + [id], needed + [p], ids)
  {
  }

  /** Compose after all steps built, and preview after compose. */
  lemma BuiltIsFrozen(specs: seq<StepSpec>, inputs: seq<string>, deps: seq<StepId>, needed: seq<PlannedStep>,
                      ids: seq<StepId>, hash: string, previewHash: string)
    requires Built(specs, inputs, deps, needed, ids) && |needed| + 2 <= |ids|
    ensures var compose := StepSpec(ids[|specs|], COMPOSE, PRIORITY_BATCH, deps);
            var preview := StepSpec(ids[|specs| + 1], PREVIEW, PRIORITY_BATCH, [compose.id]);
            IsFrozen(specs + [compose, preview], inputs + [hash, previewHash], needed, ids, hash, previewHash)
  {
  }

  lemma NeededOneMore(planned: seq<PlannedStep>, i: nat, cached: seq<string>)
    requires i < |planned|
    ensures var needed := Needed(planned[..i], cached);
            Needed(planned[..i + 1], cached)
            == if planned[i].hash in cached || planned[i].hash in Hashes(needed) then needed else needed + [planned[i]]
    ensures CachedCount(planned[..i + 1], cached) == CachedCount(planned[..i], cached) + if planned[i].hash in cached then 1 else 0
  {
    assert planned[..i + 1][..i] == planned[..i];
  }

  ghost function CachedCount(planned: seq<PlannedStep>, cached: seq<string>): nat {
    if planned == [] then 0
    else CachedCount(planned[..|planned| - 1], cached) + if planned[|planned| - 1].hash in cached then 1 else 0
  }

  /** The first loop of StepSpecs. */
  method CachedSet(cachedHashes: seq<string>) returns (cached: set<string>)
    ensures forall x :: x in cached <==> x in cachedHashes
  {
    cached := {};
    for i := 0 to |cachedHashes|
      invariant forall x :: x in cached <==> x in cachedHashes[..i]
    {
      cached := cached + {cachedHashes[i]};
    }
    assert cachedHashes[..|cachedHashes|] == cachedHashes;
  }

  /** Builds the run's steps. `ids` are the fresh ids the calls to the id generator
      return, in order. */
  method StepSpecs(h: Hashing, planned: seq<PlannedStep>, cachedHashes: seq<string>, manifestHash: string, ids: seq<StepId>)
    returns (specs: seq<StepSpec>, inputs: seq<string>, reused: nat)
    requires NoRepeats(ids) && |ids| == |planned| + 2
    ensures IsFrozen(specs, inputs, Needed(planned, cachedHashes), ids, manifestHash, h.digest(PreviewKey(manifestHash)))
    ensures reused == CachedCount(planned, cachedHashes)
  {
    var cached := CachedSet(cachedHashes);
    var seen: set<string> := {};
    var deps: seq<StepId> := [];
    specs, inputs, reused := [], [], 0;
    ghost var needed: seq<PlannedStep> := [];
    for i := 0 to |planned|
      invariant needed == Needed(planned[..i], cachedHashes) && reused == CachedCount(planned[..i], cachedHashes)
      invariant Built(specs, inputs, deps, needed, ids) && |specs| <= i
      invariant forall x :: x in seen <==> x in Hashes(needed)
    {
      var p := planned[i];
      NeededOneMore(planned, i, cachedHashes);
      if p.hash in cached {
        reused := reused + 1;
      } else if p.hash !in seen {
        HashesAppend(needed, p);
        BuiltOneMore(specs, inputs, deps, needed, ids, p);
        seen := seen + {p.hash};
        var spec := StepSpec(ids[|specs|], p.kind, PRIORITY_BATCH, []);
        specs, inputs, deps := specs + [spec], inputs + [p.hash], deps + [spec.id];
        needed := needed + [p];
      }
    }
    assert planned[..|planned|] == planned;
    BuiltIsFrozen(specs, inputs, deps, needed, ids, manifestHash, h.digest(PreviewKey(manifestHash)));
    var compose := StepSpec(ids[|specs|], COMPOSE, PRIORITY_BATCH, deps);
    var preview := StepSpec(ids[|specs| + 1], PREVIEW, PRIORITY_BATCH, [compose.id]);
    specs, inputs := specs + [compose, preview], inputs + [manifestHash, h.digest(PreviewKey(manifestHash))];
  }

  lemma FrozenIsOrdered(specs: seq<StepSpec>, inputs: seq<string>, needed: seq<PlannedStep>,
                        ids: seq<StepId>, hash: string, previewHash: string)
    requires NoRepeats(ids) && IsFrozen(specs, inputs, needed, ids, hash, previewHash)
    ensures forall k :: 0 <= k < |specs| ==> specs[k].id == ids[k]
    ensures Ordered(specs)
  {
    var n := |needed|;
    forall k, d | 0 <= k < |specs| && d in specs[k].dependsOn ensures exists j :: 0 <= j < k && specs[j].id == d {
      if k == n {
        var j :| 0 <= j < n && ids[j] == d;
        assert specs[j].id == d;
      } else {
        assert k == n + 1 && specs[n].id == d;
      }
    }
  }

  /** Fresh ids make the frozen steps an acyclic request: the graph check accepts
      every freeze. */
  lemma FrozenGraphIsValid(specs: seq<StepSpec>, inputs: seq<string>, needed: seq<PlannedStep>,
                           ids: seq<StepId>, hash: string, previewHash: string)
    requires NoRepeats(ids) && IsFrozen(specs, inputs, needed, ids, hash, previewHash)
    ensures DistinctIds(specs) && DepsInside(specs) && Acyclic(DepsOf(specs))
  {
    FrozenIsOrdered(specs, inputs, needed, ids, hash, previewHash);
    OrderedIsAcyclic(specs, ids[..|specs|]);
  }

  /** What the tables ask of the ids of a new run and of its handlers. */
  ghost predicate FreshAndPlaced(db: DB, ids: seq<StepId>, placed: map<StepId, Placement>) {
    forall id :: id in ids ==> id !in db.steps && id !in db.deps && id in placed && placed[id].queue in QUEUES
  }

  lemma FrozenRowAccepted(db: DB, placed: map<StepId, Placement>, specs: seq<StepSpec>, inputs: seq<string>,
                          needed: seq<PlannedStep>, ids: seq<StepId>, hash: string, previewHash: string, k: nat)
    requires NoRepeats(ids) && IsFrozen(specs, inputs, needed, ids, hash, previewHash)
    requires FreshAndPlaced(db, ids, placed) && k < |specs|
    ensures RowAccepted(db, specs[k], placed)
  {
    assert specs[k].id == ids[k] && ids[k] in ids;
    assert NoRepeats(ids[..|needed|]);
    assert NoRepeats(specs[k].dependsOn);
  }

  /** A frozen run with new ids, whose handlers all resolve, is enqueued. */
  lemma FrozenIsEnqueueable(db: DB, run: RunId, placed: map<StepId, Placement>, specs: seq<StepSpec>, inputs: seq<string>,
                            needed: seq<PlannedStep>, ids: seq<StepId>, hash: string, previewHash: string)
    requires NoRepeats(ids) && IsFrozen(specs, inputs, needed, ids, hash, previewHash)
    requires run !in db.runs && FreshAndPlaced(db, ids, placed)
    ensures Enqueueable(db, run, specs, placed)
  {
    FrozenGraphIsValid(specs, inputs, needed, ids, hash, previewHash);
    forall k: nat | k < |specs| ensures RowAccepted(db, specs[k], placed) {
      FrozenRowAccepted(db, placed, specs, inputs, needed, ids, hash, previewHash, k);
    }
  }

  // ---- Compose waits for its inputs ----------------------------------------

  lemma DepsStay(db: DB, a: Action, s: StepId)
    requires db.deps.Keys == db.steps.Keys && Acyclic(db.deps) && s in db.deps
    ensures s in Apply(db, a).deps && Apply(db, a).deps[s] == db.deps[s]
  {
    if a.Enqueue? {
      if Enqueueable(db, a.run, a.specs, a.placed) { EnqueueExtends(db, a.run, a.specs, a.placed); }
    } else if a.CommitDone? {
      DoneStepFinishesOne(db, a.id, a.attempt, s);
    } else {
      QuietAction(db, a);
    }
  }

  /** What a step depends on never changes after it was enqueued. */
  lemma {:induction false} DepsAreForever(acts: seq<Action>, i: nat, s: StepId)
    requires i <= |acts| && s in Run(EMPTY, acts[..i]).deps
    ensures s in Run(EMPTY, acts).deps && Run(EMPTY, acts).deps[s] == Run(EMPTY, acts[..i]).deps[s]
    decreases |acts| - i
  {
    if i == |acts| {
      assert acts[..i] == acts;
    } else {
      RunStep(EMPTY, acts, i);
      RunIsSafe(acts[..i]);
      DepsStay(Run(EMPTY, acts[..i]), acts[i], s);
      DepsAreForever(acts, i + 1, s);
    }
  }

  /** Compose depends on every other frozen step, from its enqueue on. */
  lemma ComposeEdge(next: DB, db: DB, run: RunId, specs: seq<StepSpec>, placed: map<StepId, Placement>,
                    needed: seq<PlannedStep>, inputs: seq<string>, ids: seq<StepId>, hash: string, previewHash: string, k: nat)
    requires Extends(db, next, run, specs, placed)
    requires IsFrozen(specs, inputs, needed, ids, hash, previewHash) && k < |needed|
    ensures Edge(next.deps, ids[|needed|], ids[k])
  {
    var compose := specs[|needed|];
    assert compose in specs && ids[..|needed|][k] == ids[k];
    assert ids[k] in DepSet(compose);
  }

  lemma EnqueuedExtends(acts: seq<Action>, i: nat)
    requires i < |acts| && acts[i].Enqueue?
    requires Enqueueable(Run(EMPTY, acts[..i]), acts[i].run, acts[i].specs, acts[i].placed)
    ensures Extends(Run(EMPTY, acts[..i]), Run(EMPTY, acts[..i + 1]), acts[i].run, acts[i].specs, acts[i].placed)
  {
    RunIsSafe(acts[..i]);
    RunStep(EMPTY, acts, i);
    EnqueueExtends(Run(EMPTY, acts[..i]), acts[i].run, acts[i].specs, acts[i].placed);
  }

  lemma EdgeStays(acts: seq<Action>, i: nat, s: StepId, d: StepId)
    requires i <= |acts| && Edge(Run(EMPTY, acts[..i]).deps, s, d)
    ensures Edge(Run(EMPTY, acts).deps, s, d)
  {
    DepsAreForever(acts, i, s);
  }

  /** In every run of the pipeline, compose is given to a worker only when each
      hash the manifest pins was cached at freeze time or its step is done. */
  lemma ComposeWaitsForEveryHash(acts: seq<Action>, i: nat, planned: seq<PlannedStep>, cached: seq<string>,
                                 inputs: seq<string>, ids: seq<StepId>, hash: string, previewHash: string, h: string)
    requires i < |acts| && acts[i].Enqueue? && NoRepeats(ids)
    requires Enqueueable(Run(EMPTY, acts[..i]), acts[i].run, acts[i].specs, acts[i].placed)
    requires IsFrozen(acts[i].specs, inputs, Needed(planned, cached), ids, hash, previewHash)
    requires var compose := ids[|Needed(planned, cached)|];
             compose in Run(EMPTY, acts).steps && Released(Run(EMPTY, acts).steps[compose].status)
    requires h in Hashes(Needed(planned, []))
    ensures h in cached || exists k :: 0 <= k < |Needed(planned, cached)| && inputs[k] == h && IsDone(Run(EMPTY, acts), ids[k])
  {
    var needed := Needed(planned, cached);
    NeededCovers(planned, []);
    NeededCovers(planned, cached);
    if h !in cached {
      var k :| 0 <= k < |needed| && needed[k].hash == h;
      EnqueuedExtends(acts, i);
      ComposeEdge(Run(EMPTY, acts[..i + 1]), Run(EMPTY, acts[..i]), acts[i].run, acts[i].specs, acts[i].placed,
                  needed, inputs, ids, hash, previewHash, k);
      EdgeStays(acts, i + 1, ids[|needed|], ids[k]);
      ReleasedOnlyAfterDependencies(acts, ids[|needed|], ids[k]);
      assert inputs[k] == h;
    }
  }

  // ---- Re-rendering after an edit ------------------------------------------

  ghost function SetOf(hashes: seq<string>): set<string> {
    set h | h in hashes
  }

  lemma {:induction false} DifferentFit(hashes: seq<string>, s: set<string>)
    requires AllDifferent(hashes) && SetOf(hashes) <= s
    ensures |hashes| <= |s|
  {
    if hashes != [] {
      var init, last := hashes[..|hashes| - 1], hashes[|hashes| - 1];
      assert last in SetOf(hashes);
      assert SetOf(init) <= s - {last};
      DifferentFit(init, s - {last});
    }
  }

  /** The hash of the body or crossfade of scene `j`, if there is one. */
  ghost function HashAt(h: Hashing, m: Manifest, kind: SegmentKind, j: int): string
    requires AllPositive(FramesOf(m))
  {
    var frames, crossfade := FramesOf(m), m.settings.CrossfadeFrames();
    if j < 0 || j >= |frames| then ""
    else if kind.Body? then SegmentHash(h, m, BodyOf(frames, crossfade, j))
    else if TransitionOf(frames, crossfade, j) == [] then ""
    else SegmentHash(h, m, TransitionOf(frames, crossfade, j)[0])
  }

  /** The hashes of the five segments at scene `i` and of the two masters. */
  ghost function EditedHashes(h: Hashing, m: Manifest, t: Timeline, lang: string, i: nat): (s: set<string>)
    requires LaidOut(m, t)
    ensures |s| <= 7
  {
    {HashAt(h, m, Body, i - 1), HashAt(h, m, Body, i), HashAt(h, m, Body, i + 1),
     HashAt(h, m, SegmentKind.Transition, i - 1), HashAt(h, m, SegmentKind.Transition, i),
     AudioHash(h, m, t), SubtitlesHash(h, m, t, lang)}
  }

  lemma HashOfSegment(h: Hashing, m: Manifest, s: Segment)
    requires AllPositive(FramesOf(m)) && Drawable(m, s) && IsSegment(s, FramesOf(m), m.settings.CrossfadeFrames())
    ensures HashAt(h, m, s.kind, s.scene) == SegmentHash(h, m, s)
  {
  }

  lemma TouchedHash(h: Hashing, m: Manifest, t: Timeline, lang: string, i: nat, s: Segment)
    requires LaidOut(m, t) && s in t.segments && Touched(s, i) && Drawable(m, s)
    ensures SegmentHash(h, m, s) in EditedHashes(h, m, t, lang, i)
  {
    SegmentsDrawable(m, t);
    HashOfSegment(h, m, s);
    TouchedIsListed(h, m, t, lang, i, s.kind, s.scene);
  }

  lemma TouchedIsListed(h: Hashing, m: Manifest, t: Timeline, lang: string, i: nat, kind: SegmentKind, j: nat)
    requires LaidOut(m, t) && (if kind.Body? then i <= j + 1 && j <= i + 1 else j == i || j + 1 == i)
    ensures HashAt(h, m, kind, j) in EditedHashes(h, m, t, lang, i)
  {
    if kind.Body? {
      assert j == i - 1 || j == i || j == i + 1;
    } else {
      assert j == i - 1 || j == i;
    }
  }

  lemma UntouchedHash(h: Hashing, m: Manifest, n: Manifest, i: nat, before: Timeline, after: Timeline, s: Segment)
    requires EditsScene(m, n, i) && LaidOut(m, before) && LaidOut(n, after)
    requires forall s :: s in before.segments ==> Drawable(m, s)
    requires s in after.segments && !Touched(s, i) && Drawable(n, s)
    ensures SegmentHash(h, n, s) in Hashes(SegmentSteps(h, m, before.segments))
  {
    var twin := EditReusesSegments(h, m, n, i, before, after, s);
    var j :| 0 <= j < |before.segments| && before.segments[j] == twin;
    assert Hashes(SegmentSteps(h, m, before.segments))[j] == SegmentHash(h, m, twin);
  }

  lemma HashesConcat(a: seq<PlannedStep>, b: seq<PlannedStep>)
    ensures Hashes(a + b) == Hashes(a) + Hashes(b)
  {
  }

  lemma EditedPlan(h: Hashing, m: Manifest, n: Manifest, i: nat, before: Timeline, after: Timeline, lang: string, x: string)
    requires EditsScene(m, n, i) && LaidOut(m, before) && LaidOut(n, after)
    requires forall s :: s in before.segments ==> Drawable(m, s)
    requires forall s :: s in after.segments ==> Drawable(n, s)
    requires x in Hashes(SegmentSteps(h, n, after.segments))
    ensures x in Hashes(SegmentSteps(h, m, before.segments)) || x in EditedHashes(h, n, after, lang, i)
  {
    var k :| 0 <= k < |after.segments| && Hashes(SegmentSteps(h, n, after.segments))[k] == x;
    var s := after.segments[k];
    if Touched(s, i) {
      TouchedHash(h, n, after, lang, i, s);
    } else {
      UntouchedHash(h, m, n, i, before, after, s);
    }
  }

  /** After an edit to one scene, when every old entry the new plan still needs is
      cached, a new render enqueues at most seven steps before compose and preview: the scene's
      body and its neighbours', its two crossfades, the narration and the
      subtitles. It is the same number for an episode of any length. */
  lemma EditRendersAtMostSeven(h: Hashing, m: Manifest, n: Manifest, i: nat, before: Timeline, after: Timeline, lang: string,
                               was: seq<PlannedStep>, planned: seq<PlannedStep>, cached: seq<string>)
    requires EditsScene(m, n, i) && LaidOut(m, before) && LaidOut(n, after)
    requires forall s :: s in before.segments ==> Drawable(m, s)
    requires forall s :: s in after.segments ==> Drawable(n, s)
    requires was == SegmentSteps(h, m, before.segments) + MasterSteps(h, m, before, lang)
    requires planned == SegmentSteps(h, n, after.segments) + MasterSteps(h, n, after, lang)
    requires forall x :: x in Hashes(was) && x in Hashes(planned) ==> x in cached
    ensures SetOf(Hashes(Needed(planned, cached))) <= EditedHashes(h, n, after, lang, i)
    ensures |Needed(planned, cached)| <= 7
  {
    NeededCovers(planned, cached);
    HashesConcat(SegmentSteps(h, m, before.segments), MasterSteps(h, m, before, lang));
    HashesConcat(SegmentSteps(h, n, after.segments), MasterSteps(h, n, after, lang));
    forall x | x in Hashes(Needed(planned, cached)) ensures x in EditedHashes(h, n, after, lang, i) {
      assert x in Hashes(planned) && x !in cached;
      if x in Hashes(SegmentSteps(h, n, after.segments)) {
        EditedPlan(h, m, n, i, before, after, lang, x);
      } else {
        assert x == AudioHash(h, n, after) || x == SubtitlesHash(h, n, after, lang);
      }
    }
    DifferentFit(Hashes(Needed(planned, cached)), EditedHashes(h, n, after, lang, i));
  }

  // ---- A whole freeze ------------------------------------------------------

  /** What the cache lookup returns for the pinned hashes: those that are stored. */
  ghost predicate LooksUp(cached: seq<string>, pins: seq<string>, stored: set<string>) {
    forall x :: x in cached <==> x in pins && x in stored
  }

  method ListCached(pins: seq<string>, stored: set<string>) returns (cached: seq<string>)
    ensures LooksUp(cached, pins, stored)
  {
    cached := [];
    for i := 0 to |pins|
      invariant forall x :: x in cached <==> x in pins[..i] && x in stored
    {
      if pins[i] in stored { cached := cached + [pins[i]]; }
    }
    assert pins[..|pins|] == pins;
  }

  /** The computation of a freeze: the plan, the hashes it pins, the cache entries
      there are for them, and the steps of the run. */
  method FreezeManifest(h: Hashing, m: Manifest, t: Timeline, lang: string, stored: set<string>, ids: seq<StepId>)
    returns (planned: seq<PlannedStep>, pins: seq<string>, cached: seq<string>,
             specs: seq<StepSpec>, inputs: seq<string>, reused: nat)
    requires LaidOut(m, t) && NoRepeats(ids) && |ids| == |t.segments| + 4
    ensures (forall s :: s in t.segments ==> Drawable(m, s))
            && planned == SegmentSteps(h, m, t.segments) + MasterSteps(h, m, t, lang)
    ensures pins == Hashes(Needed(planned, [])) && LooksUp(cached, pins, stored)
    ensures IsFrozen(specs, inputs, Needed(planned, cached), ids, ManifestHash(h, m), h.digest(PreviewKey(ManifestHash(h, m))))
    ensures reused == CachedCount(planned, cached)
  {
    SegmentsDrawable(m, t);
    planned := PlanSteps(h, m, t, lang);
    pins := PinnedHashes(planned);
    cached := ListCached(pins, stored);
    specs, inputs, reused := StepSpecs(h, planned, cached, ManifestHash(h, m), ids);
  }

  /** A freeze after an edit to one scene of an episode that was rendered, its entries
      still stored: the lookup is for the new hashes only, and at most seven steps are
      enqueued before compose and preview. */
  lemma FreezeAfterEdit(h: Hashing, m: Manifest, n: Manifest, i: nat, before: Timeline, after: Timeline, lang: string,
                        was: seq<PlannedStep>, planned: seq<PlannedStep>, cached: seq<string>, stored: set<string>)
    requires EditsScene(m, n, i) && LaidOut(m, before) && LaidOut(n, after)
    requires forall s :: s in before.segments ==> Drawable(m, s)
    requires forall s :: s in after.segments ==> Drawable(n, s)
    requires was == SegmentSteps(h, m, before.segments) + MasterSteps(h, m, before, lang)
    requires planned == SegmentSteps(h, n, after.segments) + MasterSteps(h, n, after, lang)
    requires SetOf(Hashes(was)) <= stored && LooksUp(cached, Hashes(Needed(planned, [])), stored)
    ensures |Needed(planned, cached)| <= 7
  {
    NeededCovers(planned, []);
    forall x | x in Hashes(was) && x in Hashes(planned) ensures x in cached {
      assert x in SetOf(Hashes(was));
    }
    EditRendersAtMostSeven(h, m, n, i, before, after, lang, was, planned, cached);
  }
}
