/** The frame-exact layout of an episode: scenes laid end to end on one frame grid,
    crossfades borrowed from both neighbours, one segment per body and crossfade. */
module Timeline {

  /** A scene's place on the timeline and the frames it lends to the crossfades
      before and after it. */
  datatype SceneSpan = SceneSpan(start: int, frames: int, head: int, tail: int)

  datatype SegmentKind = Body | Transition

  /** One independently encoded piece of the picture. `localStart` is the first
      frame of the scene's own motion clock it shows, `nextLocalStart` the incoming
      scene's. */
  datatype Segment = Segment(kind: SegmentKind, scene: nat, start: int, frames: int, localStart: int, nextLocalStart: int)

  datatype Timeline = Timeline(fps: int, scenes: seq<SceneSpan>, segments: seq<Segment>, total: int)

  datatype Plan = Planned(timeline: Timeline) | BadFps | NoScenes | EmptyScene(index: nat)

  // ---- Layout --------------------------------------------------------------

  function Min(a: int, b: int): int { if a < b then a else b }

  function Max(a: int, b: int): int { if a > b then a else b }

  /** At most half of a scene's frames but one, to each side. */
  function Lendable(frames: int): int
    requires frames > 0
  {
    (frames - 1) / 2
  }

  ghost predicate AllPositive(frames: seq<int>) {
    forall i :: 0 <= i < |frames| ==> frames[i] > 0
  }

  /** The frame scene `i` starts at: the frames of all scenes before it. */
  ghost function Start(frames: seq<int>, i: nat): int
    requires i <= |frames|
  {
    if i == 0 then 0 else Start(frames, i - 1) + frames[i - 1]
  }

  /** The most frames each side of the cut after scene `i` can lend. */
  function Room(frames: seq<int>, i: nat): int
    requires i + 1 < |frames| && frames[i] > 0 && frames[i + 1] > 0
  {
    Min(Lendable(frames[i]), Lendable(frames[i + 1]))
  }

  /** The tail of scene `i` and the head of scene `i + 1` given to the crossfade
      between them; below two frames it is a cut. */
  function Lent(frames: seq<int>, crossfade: int, i: nat): (int, int)
    requires i + 1 < |frames| && frames[i] > 0 && frames[i + 1] > 0
  {
    var c := Max(crossfade, 0);
    var room := Room(frames, i);
    var (tail, head) := if c / 2 > room || c - c / 2 > room then (room, room) else (c / 2, c - c / 2);
    if tail + head < 2 then (0, 0) else (tail, head)
  }

  ghost function Span(frames: seq<int>, crossfade: int, i: nat): SceneSpan
    requires i < |frames| && AllPositive(frames)
  {
    SceneSpan(Start(frames, i), frames[i],
              if i > 0 then Lent(frames, crossfade, i - 1).1 else 0,
              if i + 1 < |frames| then Lent(frames, crossfade, i).0 else 0)
  }

  ghost function BodyOf(frames: seq<int>, crossfade: int, i: nat): Segment
    requires i < |frames| && AllPositive(frames)
  {
    var s := Span(frames, crossfade, i);
    Segment(Body, i, s.start + s.head, s.frames - s.head - s.tail, s.head, 0)
  }

  /** The crossfade after scene `i`, if there is one. */
  ghost function TransitionOf(frames: seq<int>, crossfade: int, i: nat): seq<Segment>
    requires i < |frames| && AllPositive(frames)
  {
    var s := Span(frames, crossfade, i);
    if i + 1 < |frames| && s.tail > 0 then
      var next := Span(frames, crossfade, i + 1);
      [Segment(Transition, i, s.start + s.frames - s.tail, s.tail + next.head, s.frames - s.tail, -next.head)]
    else []
  }

  /** The segments of the first `n` scenes, in timeline order. */
  ghost function SegmentsOf(frames: seq<int>, crossfade: int, n: nat): seq<Segment>
    requires n <= |frames| && AllPositive(frames)
  {
    if n == 0 then []
    else SegmentsOf(frames, crossfade, n - 1)
         + [BodyOf(frames, crossfade, n - 1)] + TransitionOf(frames, crossfade, n - 1)
  }

  ghost predicate IsPlan(t: Timeline, fps: int, frames: seq<int>, crossfade: int)
    requires AllPositive(frames)
  {
    && t.fps == fps && |t.scenes| == |frames|
    && (forall i :: 0 <= i < |frames| ==> t.scenes[i] == Span(frames, crossfade, i))
    && t.segments == SegmentsOf(frames, crossfade, |frames|)
    && t.total == Start(frames, |frames|)
  }

  /** Lays scenes of the given lengths out, or says what is wrong with them. */
  method PlanTimeline(fps: int, frames: seq<int>, crossfade: int) returns (plan: Plan)
    ensures plan.BadFps? <==> fps <= 0
    ensures plan.NoScenes? <==> fps > 0 && frames == []
    ensures plan.EmptyScene? ==> fps > 0 && plan.index < |frames| && frames[plan.index] <= 0
                                 && forall j :: 0 <= j < plan.index ==> frames[j] > 0
    ensures plan.Planned? <==> fps > 0 && frames != [] && AllPositive(frames)
    ensures plan.Planned? ==> IsPlan(plan.timeline, fps, frames, crossfade)
  {
    if fps <= 0 { return BadFps; }
    if |frames| == 0 { return NoScenes; }
    var ok, bad, spans, total := LaySpans(frames);
    if !ok { return EmptyScene(bad); }
    var scenes := LendFrames(frames, spans, crossfade);
    var segments := CutSegments(frames, scenes, crossfade);
    return Planned(Timeline(fps, scenes, segments, total));
  }

  /** The first loop of the layout: scenes end to end, up to one without frames. */
  method LaySpans(frames: seq<int>) returns (ok: bool, bad: nat, spans: seq<SceneSpan>, total: int)
    ensures ok <==> AllPositive(frames)
    ensures !ok ==> bad < |frames| && frames[bad] <= 0 && forall j :: 0 <= j < bad ==> frames[j] > 0
    ensures ok ==> |spans| == |frames| && total == Start(frames, |frames|)
    ensures ok ==> forall j :: 0 <= j < |frames| ==> spans[j] == SceneSpan(Start(frames, j), frames[j], 0, 0)
  {
    ok, bad, spans, total := true, 0, [], 0;
    for i := 0 to |frames|
      invariant |spans| == i && total == Start(frames, i)
      invariant forall j :: 0 <= j < i ==> frames[j] > 0 && spans[j] == SceneSpan(Start(frames, j), frames[j], 0, 0)
    {
      if frames[i] <= 0 { return false, i, spans, total; }
      spans := spans + [SceneSpan(total, frames[i], 0, 0)];
      total := total + frames[i];
    }
  }

  /** `scenes` after the cuts before scene `i` were sized. */
  ghost predicate LentUpTo(scenes: seq<SceneSpan>, frames: seq<int>, crossfade: int, i: nat)
    requires AllPositive(frames) && |scenes| == |frames|
  {
    && (forall j :: 0 <= j < i && j < |frames| ==> scenes[j] == Span(frames, crossfade, j))
    && (i < |frames| ==> scenes[i] == Span(frames, crossfade, i).(tail := 0))
    && (forall j :: i < j < |frames| ==> scenes[j] == SceneSpan(Start(frames, j), frames[j], 0, 0))
  }

  lemma LendOneMore(scenes: seq<SceneSpan>, frames: seq<int>, crossfade: int, i: nat)
    requires AllPositive(frames) && |scenes| == |frames| && i + 1 < |frames|
    requires LentUpTo(scenes, frames, crossfade, i)
    ensures var (tail, head) := Lent(frames, crossfade, i);
            LentUpTo(scenes[i := scenes[i].(tail := tail)][i + 1 := scenes[i + 1].(head := head)], frames, crossfade, i + 1)
  {
  }

  /** The second loop of the layout: sizes the crossfade at every cut. */
  method LendFrames(frames: seq<int>, spans: seq<SceneSpan>, crossfade: int) returns (scenes: seq<SceneSpan>)
    requires AllPositive(frames) && |spans| == |frames| > 0
    requires forall j :: 0 <= j < |frames| ==> spans[j] == SceneSpan(Start(frames, j), frames[j], 0, 0)
    ensures |scenes| == |frames|
    ensures forall j :: 0 <= j < |frames| ==> scenes[j] == Span(frames, crossfade, j)
  {
    scenes := spans;
    var c := Max(crossfade, 0);
    var i := 0;
    while i + 1 < |scenes|
      invariant 0 <= i < |frames| && |scenes| == |frames|
      invariant LentUpTo(scenes, frames, crossfade, i)
    {
      var room := Min(Lendable(scenes[i].frames), Lendable(scenes[i + 1].frames));
      var tail, head := c / 2, c - c / 2;
      if tail > room || head > room {
        tail, head := room, room;
      }
      if tail + head < 2 {
        tail, head := 0, 0;
      }
      assert (tail, head) == Lent(frames, crossfade, i);
      LendOneMore(scenes, frames, crossfade, i);
      scenes := scenes[i := scenes[i].(tail := tail)][i + 1 := scenes[i + 1].(head := head)];
      i := i + 1;
    }
  }

  lemma SegmentsStep(frames: seq<int>, crossfade: int, i: nat)
    requires i < |frames| && AllPositive(frames)
    ensures SegmentsOf(frames, crossfade, i + 1)
            == SegmentsOf(frames, crossfade, i) + [BodyOf(frames, crossfade, i)] + TransitionOf(frames, crossfade, i)
  {
  }

  lemma BodyCut(frames: seq<int>, crossfade: int, i: nat, s: SceneSpan)
    requires i < |frames| && AllPositive(frames) && s == Span(frames, crossfade, i)
    ensures BodyOf(frames, crossfade, i) == Segment(Body, i, s.start + s.head, s.frames - s.head - s.tail, s.head, 0)
  {
  }

  lemma TransitionCut(frames: seq<int>, crossfade: int, i: nat, s: SceneSpan, next: SceneSpan)
    requires i + 1 < |frames| && AllPositive(frames)
    requires s == Span(frames, crossfade, i) && next == Span(frames, crossfade, i + 1)
    ensures TransitionOf(frames, crossfade, i)
            == if s.tail > 0 then
                 [Segment(Transition, i, s.start + s.frames - s.tail, s.tail + next.head, s.frames - s.tail, -next.head)]
               else []
  {
  }

  /** The third loop of the layout: a body for every scene and a transition after
      every scene that lends a tail. */
  method CutSegments(frames: seq<int>, scenes: seq<SceneSpan>, crossfade: int) returns (segments: seq<Segment>)
    requires AllPositive(frames) && |scenes| == |frames|
    requires forall j :: 0 <= j < |frames| ==> scenes[j] == Span(frames, crossfade, j)
    ensures segments == SegmentsOf(frames, crossfade, |frames|)
  {
    segments := [];
    for i := 0 to |scenes|
      invariant segments == SegmentsOf(frames, crossfade, i)
    {
      var s := scenes[i];
      SegmentsStep(frames, crossfade, i);
      BodyCut(frames, crossfade, i, s);
      if i + 1 < |scenes| { TransitionCut(frames, crossfade, i, s, scenes[i + 1]); }
      segments := segments + [Segment(Body, i, s.start + s.head, s.frames - s.head - s.tail, s.head, 0)];
      if i + 1 < |scenes| && s.tail > 0 {
        var next := scenes[i + 1];
        segments := segments
          + [Segment(Transition, i, s.start + s.frames - s.tail, s.tail + next.head, s.frames - s.tail, -next.head)];
      }
    }
  }

  // ---- Exact tiling --------------------------------------------------------

  /** What a crossfade borrows fits its neighbours, and a side lends exactly when
      the other does. */
  lemma LentFits(frames: seq<int>, crossfade: int, i: nat)
    requires i + 1 < |frames| && AllPositive(frames)
    ensures var (tail, head) := Lent(frames, crossfade, i);
            && 0 <= tail <= Lendable(frames[i]) && 0 <= head <= Lendable(frames[i + 1])
            && (tail > 0 <==> head > 0) && 0 <= head - tail <= 1
            && (head - tail == 1 <==> crossfade % 2 == 1 && 3 <= crossfade && crossfade - crossfade / 2 <= Room(frames, i))
  {
  }

  /** However much is lent to both sides, a scene keeps a frame of its own. */
  lemma BodyHasAFrame(frames: seq<int>, crossfade: int, i: nat)
    requires i < |frames| && AllPositive(frames)
    ensures BodyOf(frames, crossfade, i).frames >= 1
    ensures 0 <= Span(frames, crossfade, i).head && 0 <= Span(frames, crossfade, i).tail
  {
    if i > 0 { LentFits(frames, crossfade, i - 1); }
    if i + 1 < |frames| { LentFits(frames, crossfade, i); }
  }

  /** `segments` cover [from, to) in order, each at least a frame long, each
      starting where the one before it ends. */
  ghost predicate Tiles(segments: seq<Segment>, from: int, to: int) {
    if segments == [] then from == to
    else
      var last := segments[|segments| - 1];
      last.frames > 0 && last.start + last.frames == to && Tiles(segments[..|segments| - 1], from, last.start)
  }

  lemma TilesExtend(segments: seq<Segment>, s: Segment, from: int, to: int)
    requires Tiles(segments, from, to) && s.start == to && s.frames > 0
    ensures Tiles(segments + [s], from, to + s.frames)
  {
    assert (segments + [s])[..|segments|] == segments;
  }

  /** The frame the segments of the first `n` scenes reach: the start of scene `n`
      plus what it lends to the crossfade before it. */
  ghost function Reached(frames: seq<int>, crossfade: int, n: nat): int
    requires n <= |frames| && AllPositive(frames)
  {
    Start(frames, n) + if 0 < n < |frames| then Lent(frames, crossfade, n - 1).1 else 0
  }

  lemma TransitionTiles(segments: seq<Segment>, frames: seq<int>, crossfade: int, i: nat)
    requires i < |frames| && AllPositive(frames)
    requires var body := BodyOf(frames, crossfade, i); Tiles(segments, 0, body.start + body.frames)
    ensures Tiles(segments + TransitionOf(frames, crossfade, i), 0, Reached(frames, crossfade, i + 1))
  {
    var body, transition := BodyOf(frames, crossfade, i), TransitionOf(frames, crossfade, i);
    assert Start(frames, i + 1) == Start(frames, i) + frames[i];
    if i + 1 < |frames| { LentFits(frames, crossfade, i); }
    if transition != [] {
      TilesExtend(segments, transition[0], 0, body.start + body.frames);
      assert transition == [transition[0]];
    } else {
      assert segments + transition == segments;
    }
  }

  lemma {:induction false} SegmentsTile(frames: seq<int>, crossfade: int, n: nat)
    requires n <= |frames| && AllPositive(frames)
    ensures Tiles(SegmentsOf(frames, crossfade, n), 0, Reached(frames, crossfade, n))
  {
    if n > 0 {
      SegmentsTile(frames, crossfade, n - 1);
      var before, body := SegmentsOf(frames, crossfade, n - 1), BodyOf(frames, crossfade, n - 1);
      BodyHasAFrame(frames, crossfade, n - 1);
      TilesExtend(before, body, 0, Reached(frames, crossfade, n - 1));
      TransitionTiles(before + [body], frames, crossfade, n - 1);
    }
  }

  /** The segments of a timeline cover exactly its frames. */
  lemma TimelineTiles(t: Timeline, fps: int, frames: seq<int>, crossfade: int)
    requires AllPositive(frames) && IsPlan(t, fps, frames, crossfade)
    ensures Tiles(t.segments, 0, t.total)
  {
    SegmentsTile(frames, crossfade, |frames|);
  }

  predicate Shows(s: Segment, f: int) {
    s.start <= f < s.start + s.frames
  }

  /** A tiling shows every frame of its range in exactly one segment. */
  lemma {:induction false} FrameShownOnce(segments: seq<Segment>, from: int, to: int, f: int) returns (k: nat)
    requires Tiles(segments, from, to) && from <= f < to
    ensures k < |segments| && Shows(segments[k], f)
    ensures forall j :: 0 <= j < |segments| && Shows(segments[j], f) ==> j == k
    decreases |segments|
  {
    var init, last := segments[..|segments| - 1], segments[|segments| - 1];
    if f >= last.start {
      k := |segments| - 1;
      forall j | 0 <= j < |segments| && Shows(segments[j], f) ensures j == k {
        if j < k { TilesBelow(init, from, last.start, j); }
      }
    } else {
      k := FrameShownOnce(init, from, last.start, f);
      forall j | 0 <= j < |segments| && Shows(segments[j], f) ensures j == k {
        if j < |init| { assert segments[j] == init[j]; }
      }
    }
  }

  lemma {:induction false} TilesBelow(segments: seq<Segment>, from: int, to: int, j: nat)
    requires Tiles(segments, from, to) && j < |segments|
    ensures from <= segments[j].start && segments[j].start + segments[j].frames <= to
    decreases |segments|
  {
    var init, last := segments[..|segments| - 1], segments[|segments| - 1];
    if j < |init| { TilesBelow(init, from, last.start, j); }
    TilesForward(init, from, last.start);
  }

  lemma {:induction false} TilesForward(segments: seq<Segment>, from: int, to: int)
    requires Tiles(segments, from, to)
    ensures from <= to
    decreases |segments|
  {
    if segments != [] {
      TilesForward(segments[..|segments| - 1], from, segments[|segments| - 1].start);
    }
  }

  // ---- Which segments show a scene -----------------------------------------

  /** Every segment is the body or the crossfade of its scene. */
  ghost predicate IsSegment(s: Segment, frames: seq<int>, crossfade: int)
    requires AllPositive(frames)
  {
    && s.scene < |frames|
    && (s.kind.Body? ==> s == BodyOf(frames, crossfade, s.scene))
    && (s.kind.Transition? ==> TransitionOf(frames, crossfade, s.scene) == [s])
  }

  lemma SegmentsOfOneMore(frames: seq<int>, crossfade: int, n: nat, s: Segment)
    requires n < |frames| && AllPositive(frames)
    ensures s in SegmentsOf(frames, crossfade, n + 1)
            <==> s in SegmentsOf(frames, crossfade, n) || s == BodyOf(frames, crossfade, n) || s in TransitionOf(frames, crossfade, n)
  {
  }

  lemma SegmentOfScene(frames: seq<int>, crossfade: int, n: nat, s: Segment)
    requires n < |frames| && AllPositive(frames)
    ensures IsSegment(s, frames, crossfade) && s.scene == n
            <==> s == BodyOf(frames, crossfade, n) || s in TransitionOf(frames, crossfade, n)
  {
    var after := TransitionOf(frames, crossfade, n);
    if s in after { assert after == [s]; }
  }

  lemma {:induction false} IsOneOf(frames: seq<int>, crossfade: int, n: nat, s: Segment)
    requires n <= |frames| && AllPositive(frames)
    ensures s in SegmentsOf(frames, crossfade, n) <==> IsSegment(s, frames, crossfade) && s.scene < n
  {
    if n > 0 {
      IsOneOf(frames, crossfade, n - 1, s);
      SegmentsOfOneMore(frames, crossfade, n - 1, s);
      SegmentOfScene(frames, crossfade, n - 1, s);
    }
  }

  /** The segments are exactly the bodies and crossfades of the scenes. */
  lemma SegmentForm(frames: seq<int>, crossfade: int, n: nat)
    requires n <= |frames| && AllPositive(frames)
    ensures forall s :: s in SegmentsOf(frames, crossfade, n) <==> IsSegment(s, frames, crossfade) && s.scene < n
  {
    forall s ensures s in SegmentsOf(frames, crossfade, n) <==> IsSegment(s, frames, crossfade) && s.scene < n {
      IsOneOf(frames, crossfade, n, s);
    }
  }

  lemma {:induction false} StartMonotone(frames: seq<int>, i: nat, j: nat)
    requires i <= j <= |frames| && AllPositive(frames)
    ensures Start(frames, i) <= Start(frames, j)
    ensures i < j ==> Start(frames, i) + frames[i] <= Start(frames, j)
    decreases j - i
  {
    if i < j {
      assert Start(frames, i + 1) == Start(frames, i) + frames[i];
      StartMonotone(frames, i + 1, j);
    }
  }

  /** `s` shows some frame of scene `i`. */
  ghost predicate Overlaps(s: Segment, frames: seq<int>, i: nat)
    requires i < |frames|
  {
    s.start < Start(frames, i) + frames[i] && Start(frames, i) < s.start + s.frames
  }

  predicate Concerns(s: Segment, i: nat) {
    s.scene == i || (s.kind.Transition? && s.scene + 1 == i)
  }

  lemma ConcernsIffOverlaps(s: Segment, frames: seq<int>, crossfade: int, i: nat)
    requires AllPositive(frames) && i < |frames| && IsSegment(s, frames, crossfade)
    ensures Concerns(s, i) <==> Overlaps(s, frames, i)
  {
    var j := s.scene;
    BodyHasAFrame(frames, crossfade, j);
    assert Start(frames, j + 1) == Start(frames, j) + frames[j];
    if j + 1 < |frames| {
      LentFits(frames, crossfade, j);
      assert Start(frames, j + 2) == Start(frames, j + 1) + frames[j + 1];
      if i > j + 1 { StartMonotone(frames, j + 2, i); }
    } else {
      assert TransitionOf(frames, crossfade, j) == [];
    }
    if i < j { StartMonotone(frames, i, j); }
    if i > j { StartMonotone(frames, j + 1, i); }
  }

  /** Returns, in order, exactly the indexes of the segments that show a frame of
      scene `i`. */
  method SegmentsOfScene(t: Timeline, i: nat, ghost fps: int, ghost frames: seq<int>, ghost crossfade: int) returns (out: seq<nat>)
    requires AllPositive(frames) && IsPlan(t, fps, frames, crossfade) && i < |frames|
    ensures forall a, b :: 0 <= a < b < |out| ==> out[a] < out[b]
    ensures forall k :: k in out <==> 0 <= k < |t.segments| && Overlaps(t.segments[k], frames, i)
  {
    out := [];
    SegmentForm(frames, crossfade, |frames|);
    for k := 0 to |t.segments|
      invariant forall a, b :: 0 <= a < b < |out| ==> out[a] < out[b]
      invariant forall a :: 0 <= a < |out| ==> out[a] < k
      invariant forall j :: j in out <==> 0 <= j < k && Overlaps(t.segments[j], frames, i)
    {
      var s := t.segments[k];
      assert s in t.segments;
      ConcernsIffOverlaps(s, frames, crossfade, i);
      if s.scene == i || (s.kind == Transition && s.scene + 1 == i) {
        out := out + [k];
      }
    }
  }

  // ---- Motion clocks -------------------------------------------------------

  /** Through a crossfade the outgoing scene's clock runs on without a jump, and
      the incoming scene's ends as many frames short of where its body picks up as
      an odd, uncapped crossfade borrows more from it: one, or none. */
  lemma ClocksMeet(frames: seq<int>, crossfade: int, i: nat)
    requires AllPositive(frames) && i + 1 < |frames| && TransitionOf(frames, crossfade, i) != []
    ensures var body, fade, next := BodyOf(frames, crossfade, i), TransitionOf(frames, crossfade, i)[0], BodyOf(frames, crossfade, i + 1);
            && body.localStart + body.frames == fade.localStart
            && fade.localStart + Span(frames, crossfade, i).tail == frames[i]
            && 0 <= next.localStart - (fade.nextLocalStart + fade.frames) <= 1
            && (next.localStart - (fade.nextLocalStart + fade.frames) == 1 <==>
                  crossfade % 2 == 1 && 3 <= crossfade && crossfade - crossfade / 2 <= Room(frames, i))
  {
    LentFits(frames, crossfade, i);
  }

  // ---- Edit locality -------------------------------------------------------

  /** `g` is `f` with the length of scene `i` changed. */
  ghost predicate EditsOne(f: seq<int>, g: seq<int>, i: nat) {
    && |f| == |g| && i < |f| && AllPositive(f) && AllPositive(g)
    && forall j :: 0 <= j < |f| && j != i ==> f[j] == g[j]
  }

  lemma {:induction false} StartShifts(f: seq<int>, g: seq<int>, i: nat, j: nat)
    requires EditsOne(f, g, i) && j <= |f|
    ensures Start(g, j) == Start(f, j) + if j > i then g[i] - f[i] else 0
  {
    if j > 0 { StartShifts(f, g, i, j - 1); }
  }

  /** The bodies of the edited scene and its neighbours, and the two crossfades
      at the edited scene. */
  predicate Touched(s: Segment, i: nat) {
    match s.kind
    case Body => i <= s.scene + 1 && s.scene <= i + 1
    case Transition => s.scene == i || s.scene + 1 == i
  }

  function Shifted(s: Segment, i: nat, delta: int): Segment {
    if s.scene > i then s.(start := s.start + delta) else s
  }

  lemma SpanMoves(f: seq<int>, g: seq<int>, crossfade: int, i: nat, j: nat)
    requires EditsOne(f, g, i) && j < |f| && j != i
    ensures Span(g, crossfade, j).start == Span(f, crossfade, j).start + if j > i then g[i] - f[i] else 0
    ensures Span(g, crossfade, j).frames == Span(f, crossfade, j).frames
    ensures j != i + 1 ==> Span(g, crossfade, j).head == Span(f, crossfade, j).head
    ensures j + 1 != i ==> Span(g, crossfade, j).tail == Span(f, crossfade, j).tail
  {
    StartShifts(f, g, i, j);
  }

  lemma BodyMoves(f: seq<int>, g: seq<int>, crossfade: int, i: nat, j: nat)
    requires EditsOne(f, g, i) && j < |f| && (j + 1 < i || i + 1 < j)
    ensures BodyOf(g, crossfade, j) == Shifted(BodyOf(f, crossfade, j), i, g[i] - f[i])
  {
    SpanMoves(f, g, crossfade, i, j);
  }

  lemma TransitionMoves(f: seq<int>, g: seq<int>, crossfade: int, i: nat, j: nat)
    requires EditsOne(f, g, i) && j < |f| && j != i && j + 1 != i && TransitionOf(f, crossfade, j) != []
    ensures TransitionOf(g, crossfade, j) == [Shifted(TransitionOf(f, crossfade, j)[0], i, g[i] - f[i])]
  {
    SpanMoves(f, g, crossfade, i, j);
    SpanMoves(f, g, crossfade, i, j + 1);
  }

  lemma SegmentMoves(f: seq<int>, g: seq<int>, crossfade: int, i: nat, s: Segment)
    requires EditsOne(f, g, i) && IsSegment(s, f, crossfade) && !Touched(s, i)
    ensures IsSegment(Shifted(s, i, g[i] - f[i]), g, crossfade)
  {
    if s.kind.Body? {
      BodyMoves(f, g, crossfade, i, s.scene);
    } else {
      TransitionMoves(f, g, crossfade, i, s.scene);
    }
  }

  /** Changing the length of one scene leaves every segment but five as it was,
      except that those after it start one uniform number of frames later. */
  lemma EditIsLocal(f: seq<int>, g: seq<int>, crossfade: int, i: nat, s: Segment)
    requires EditsOne(f, g, i) && s in SegmentsOf(f, crossfade, |f|) && !Touched(s, i)
    ensures Shifted(s, i, g[i] - f[i]) in SegmentsOf(g, crossfade, |g|)
    ensures !Touched(Shifted(s, i, g[i] - f[i]), i)
  {
    SegmentForm(f, crossfade, |f|);
    SegmentForm(g, crossfade, |g|);
    SegmentMoves(f, g, crossfade, i, s);
  }

  /** The crossfade after scene `j` is not shortened by a short neighbour. */
  ghost predicate Uncapped(frames: seq<int>, crossfade: int, j: nat)
    requires AllPositive(frames)
  {
    j + 1 < |frames| ==> Max(crossfade, 0) - Max(crossfade, 0) / 2 <= Room(frames, j)
  }

  /** The neighbours' bodies keep their length and their clock too when the cap
      binds in neither layout. */
  lemma NeighboursKeepLength(f: seq<int>, g: seq<int>, crossfade: int, i: nat, j: nat)
    requires EditsOne(f, g, i) && j < |f| && (j + 1 == i || j == i + 1)
    requires Uncapped(f, crossfade, Min(i, j)) && Uncapped(g, crossfade, Min(i, j))
    ensures BodyOf(g, crossfade, j).frames == BodyOf(f, crossfade, j).frames
    ensures BodyOf(g, crossfade, j).localStart == BodyOf(f, crossfade, j).localStart
  {
  }

  /** What a cut lends, in closed form. */
  lemma LentIs(frames: seq<int>, crossfade: int, i: nat)
    requires i + 1 < |frames| && AllPositive(frames)
    ensures var c := Max(crossfade, 0);
            Lent(frames, crossfade, i) == (Min(c / 2, Room(frames, i)), if c < 2 then 0 else Min(c - c / 2, Room(frames, i)))
  {
  }

  /** The body before the edited scene keeps its length exactly when the cut between
      them lends as much as it did. */
  lemma BodyBeforeKeepsIff(f: seq<int>, g: seq<int>, crossfade: int, i: nat)
    requires EditsOne(f, g, i) && i > 0
    ensures var half := Max(crossfade, 0) / 2;
            BodyOf(g, crossfade, i - 1) == BodyOf(f, crossfade, i - 1)
            <==> Min(half, Room(f, i - 1)) == Min(half, Room(g, i - 1))
  {
    StartShifts(f, g, i, i - 1);
    LentIs(f, crossfade, i - 1);
    LentIs(g, crossfade, i - 1);
  }

  /** The body after it keeps its length and its clock exactly when the cut between
      them lends as much as it did. */
  lemma BodyAfterKeepsIff(f: seq<int>, g: seq<int>, crossfade: int, i: nat)
    requires EditsOne(f, g, i) && i + 1 < |f|
    ensures var c := Max(crossfade, 0);
            BodyOf(g, crossfade, i + 1) == Shifted(BodyOf(f, crossfade, i + 1), i, g[i] - f[i])
            <==> c < 2 || Min(c - c / 2, Room(f, i)) == Min(c - c / 2, Room(g, i))
  {
    StartShifts(f, g, i, i + 1);
    LentIs(f, crossfade, i);
    LentIs(g, crossfade, i);
  }

  /** So an edit can touch a neighbour's body as well: shortening a scene below
      twice the crossfade gives frames back to the scene before it. */
  lemma EditCanTouchNeighbour(f: seq<int>, g: seq<int>, crossfade: int)
    requires f == [50, 50] && g == [50, 5] && crossfade == 20
    ensures EditsOne(f, g, 1)
    ensures BodyOf(f, crossfade, 0).frames == 40 && BodyOf(g, crossfade, 0).frames == 48
  {
    LentIs(f, crossfade, 0);
    LentIs(g, crossfade, 0);
    assert Room(f, 0) == 24 && Room(g, 0) == 2;
  }
}
