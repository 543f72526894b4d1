/** Render manifests and the cache keys of what a render produces. Hashing itself
    is a parameter: the keys say what each hash covers. */
module Manifests {
  import opened Bytes
  import opened Timeline
  import opened Clock

  datatype SubtitleStyle = SubtitleStyle(font: string, sizePx: int, position: string, shadowPx: int)

  datatype Settings = Settings(
    width: int, height: int, fps: int, encoder: string, subtitles: string, style: SubtitleStyle,
    defaultMotion: string, crossfadeMs: int, loudness: int, truePeak: int)
  {
    predicate Burn() { subtitles == "burn" || subtitles == "both" }

    function CrossfadeFrames(): int { FramesForMs(crossfadeMs, fps) }
  }

  /** One scene as frozen into a manifest: the takes the render will use. */
  datatype ManifestScene = ManifestScene(
    sceneId: string, idx: int, imageAsset: string, imageSha: string, voiceAsset: string, voiceSha: string,
    alignAsset: string, motion: string, frames: int)

  datatype Manifest = Manifest(settings: Settings, scenes: seq<ManifestScene>)

  // ---- Cache keys ----------------------------------------------------------

  datatype VideoKey = VideoKey(width: int, height: int, fps: int, encoder: string, style: Option<SubtitleStyle>)

  datatype SceneKey = SceneKey(image: string, motion: string, seed: nat, frames: int, align: string)

  datatype Placed = Placed(take: string, start: int, frames: int)

  /** Everything that is hashed. */
  datatype Key =
    | SegmentKey(kind: SegmentKind, video: VideoKey, scenes: seq<SceneKey>, local: (int, int), length: int)
    | AudioKey(fps: int, loudness: int, truePeak: int, voices: seq<Placed>)
    | SubtitlesKey(lang: string, fps: int, aligns: seq<Placed>)
    | ManifestKey(manifest: Manifest)
    | PreviewKey(manifestHash: string)

  /** The content hash, and the motion seed drawn from a scene id. */
  datatype Hashing = Hashing(digest: Key -> string, seed: string -> nat)

  function ContentKey(sha: string, asset: string): string {
    if sha != "" then "sha256:" + sha else if asset != "" then "asset:" + asset else "none"
  }

  function VideoKeyOf(s: Settings): VideoKey {
    VideoKey(s.width, s.height, s.fps, s.encoder, if s.Burn() then Some(s.style) else None)
  }

  function SceneKeyOf(h: Hashing, s: Settings, c: ManifestScene): SceneKey {
    SceneKey(ContentKey(c.imageSha, c.imageAsset), c.motion, h.seed(c.sceneId), c.frames,
             if s.Burn() then ContentKey("", c.alignAsset) else "")
  }

  /** The scenes `s` shows exist. */
  predicate Drawable(m: Manifest, s: Segment) {
    s.scene < |m.scenes| && (s.kind.Transition? ==> s.scene + 1 < |m.scenes|)
  }

  /** What a segment's cache key covers; where the segment starts is not part of it. */
  function SegmentKeyOf(h: Hashing, m: Manifest, s: Segment): Key
    requires Drawable(m, s)
  {
    SegmentKey(s.kind, VideoKeyOf(m.settings),
               [SceneKeyOf(h, m.settings, m.scenes[s.scene])]
               + (if s.kind.Transition? then [SceneKeyOf(h, m.settings, m.scenes[s.scene + 1])] else []),
               (s.localStart, s.nextLocalStart), s.frames)
  }

  function SegmentHash(h: Hashing, m: Manifest, s: Segment): string
    requires Drawable(m, s)
  {
    h.digest(SegmentKeyOf(h, m, s))
  }

  function AudioHash(h: Hashing, m: Manifest, t: Timeline): string
    requires |t.scenes| == |m.scenes|
  {
    h.digest(AudioKey(m.settings.fps, m.settings.loudness, m.settings.truePeak,
                      seq(|m.scenes|, i requires 0 <= i < |m.scenes| =>
                          Placed(ContentKey(m.scenes[i].voiceSha, m.scenes[i].voiceAsset), t.scenes[i].start, t.scenes[i].frames))))
  }

  function SubtitlesHash(h: Hashing, m: Manifest, t: Timeline, lang: string): string
    requires |t.scenes| == |m.scenes|
  {
    h.digest(SubtitlesKey(lang, m.settings.fps,
                          seq(|m.scenes|, i requires 0 <= i < |m.scenes| =>
                              Placed(ContentKey("", m.scenes[i].alignAsset), t.scenes[i].start, t.scenes[i].frames))))
  }

  function ManifestHash(h: Hashing, m: Manifest): string {
    h.digest(ManifestKey(m))
  }

  // ---- Layout --------------------------------------------------------------

  function FramesOf(m: Manifest): seq<int> {
    seq(|m.scenes|, i requires 0 <= i < |m.scenes| => m.scenes[i].frames)
  }

  /** `t` is the timeline of `m`. */
  ghost predicate LaidOut(m: Manifest, t: Timeline) {
    AllPositive(FramesOf(m)) && IsPlan(t, m.settings.fps, FramesOf(m), m.settings.CrossfadeFrames())
  }

  /** Lays a manifest's scenes out. */
  method Layout(m: Manifest) returns (plan: Plan)
    ensures plan.Planned? <==> m.settings.fps > 0 && m.scenes != [] && AllPositive(FramesOf(m))
    ensures plan.Planned? ==> LaidOut(m, plan.timeline)
  {
    var frames := [];
    for i := 0 to |m.scenes|
      invariant |frames| == i && forall j :: 0 <= j < i ==> frames[j] == m.scenes[j].frames
    {
      frames := frames + [m.scenes[i].frames];
    }
    assert frames == FramesOf(m);
    plan := PlanTimeline(m.settings.fps, frames, m.settings.CrossfadeFrames());
  }

  /** A timeline's segments show only scenes of its manifest. */
  lemma SegmentsDrawable(m: Manifest, t: Timeline)
    requires LaidOut(m, t)
    ensures forall s :: s in t.segments <==> IsSegment(s, FramesOf(m), m.settings.CrossfadeFrames())
    ensures forall s :: s in t.segments ==> Drawable(m, s)
  {
    var frames := FramesOf(m);
    SegmentForm(frames, m.settings.CrossfadeFrames(), |frames|);
  }

  lemma IsDrawable(m: Manifest, t: Timeline, s: Segment)
    requires LaidOut(m, t) && s in t.segments
    ensures Drawable(m, s)
  {
    SegmentsDrawable(m, t);
  }

  lemma SegmentsAre(m: Manifest, t: Timeline)
    requires LaidOut(m, t)
    ensures t.segments == SegmentsOf(FramesOf(m), m.settings.CrossfadeFrames(), |FramesOf(m)|)
  {
  }

  // ---- Edits ---------------------------------------------------------------

  /** `n` is `m` with anything about scene `i` changed: its length, its image, its
      voice, its subtitles, its motion. */
  ghost predicate EditsScene(m: Manifest, n: Manifest, i: nat) {
    && m.settings == n.settings && |m.scenes| == |n.scenes| && i < |m.scenes|
    && (forall j :: 0 <= j < |m.scenes| && j != i ==> m.scenes[j] == n.scenes[j])
    && AllPositive(FramesOf(m)) && AllPositive(FramesOf(n))
  }

  /** The cache key of a segment away from the edit is the key of the segment it
      was shifted from. */
  lemma EditKeepsKey(h: Hashing, m: Manifest, n: Manifest, i: nat, s: Segment, delta: int)
    requires EditsScene(m, n, i) && Drawable(m, s) && !Touched(s, i)
    ensures Drawable(n, Shifted(s, i, delta))
    ensures SegmentHash(h, n, Shifted(s, i, delta)) == SegmentHash(h, m, s)
  {
    assert SegmentKeyOf(h, n, Shifted(s, i, delta)) == SegmentKeyOf(h, m, s);
  }

  lemma EditsFrames(m: Manifest, n: Manifest, i: nat)
    requires EditsScene(m, n, i)
    ensures EditsOne(FramesOf(n), FramesOf(m), i)
  {
  }

  /** A segment away from the edit was in the episode before, perhaps elsewhere. */
  lemma EditMovesBack(m: Manifest, n: Manifest, i: nat, before: Timeline, after: Timeline, s: Segment) returns (delta: int)
    requires EditsScene(m, n, i) && LaidOut(m, before) && LaidOut(n, after)
    requires s in after.segments && !Touched(s, i)
    ensures Drawable(n, s) && Shifted(s, i, delta) in before.segments
  {
    var f, g := FramesOf(m), FramesOf(n);
    IsDrawable(n, after, s);
    SegmentsAre(m, before);
    SegmentsAre(n, after);
    EditsFrames(m, n, i);
    EditIsLocal(g, f, m.settings.CrossfadeFrames(), i, s);
    delta := f[i] - g[i];
  }

  /** Every segment of the edited episode but the five at the edit has the hash of
      a segment of the episode before. */
  lemma EditReusesSegments(h: Hashing, m: Manifest, n: Manifest, i: nat, before: Timeline, after: Timeline, s: Segment)
    returns (twin: Segment)
    requires EditsScene(m, n, i) && LaidOut(m, before) && LaidOut(n, after)
    requires s in after.segments && !Touched(s, i)
    ensures twin in before.segments && Drawable(m, twin) && Drawable(n, s)
    ensures SegmentHash(h, m, twin) == SegmentHash(h, n, s)
  {
    var delta := EditMovesBack(m, n, i, before, after, s);
    twin := Shifted(s, i, delta);
    EditKeepsKey(h, n, m, i, s, delta);
  }
}
