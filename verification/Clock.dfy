/** Frames, milliseconds and samples: narration is timed on the same frame grid as
    the picture, so rounding never adds up. */
module Clock {
  import opened Timeline

  /** Integer division that drops the fraction, whatever the signs. */
  function TruncDiv(a: int, b: int): int
    requires b > 0
  {
    if a >= 0 then a / b else -((-a) / b)
  }

  /** A duration as the nearest whole number of frames. */
  function FramesForMs(ms: int, fps: int): int {
    if ms <= 0 || fps <= 0 then 0 else TruncDiv(ms * fps + 500, 1000)
  }

  /** The time of frame `f` in milliseconds, rounded. */
  function FrameMs(f: int, fps: int): int {
    if fps <= 0 then 0 else TruncDiv(f * 1000 + fps / 2, fps)
  }

  const AUDIO_SAMPLE_RATE := 48000

  function SamplesForFrames(frames: int, fps: int): int
    requires fps > 0
  {
    frames * (AUDIO_SAMPLE_RATE / fps)
  }

  // ---- Rounding ------------------------------------------------------------

  lemma DivBounds(a: int, b: int)
    requires b > 0
    ensures (a / b) * b <= a < (a / b) * b + b
  {
  }

  /** A frame's time in milliseconds is within half a millisecond of exact. */
  lemma FrameMsIsNearest(f: nat, fps: int)
    requires fps > 0
    ensures -fps <= 2 * (FrameMs(f, fps) * fps - f * 1000) <= fps
  {
    DivBounds(f * 1000 + fps / 2, fps);
  }

  lemma TimesMonotone(x: int, y: int, c: int)
    requires x <= y && c >= 0
    ensures x * c <= y * c
  {
  }

  lemma QuotientUnique(a: int, q: int)
    requires q * 1000 <= a < q * 1000 + 1000
    ensures a / 1000 == q
  {
  }

  /** What makes a time round to frame `f`. */
  lemma RoundsTo(ms: int, fps: int, f: nat)
    requires fps > 0 && f * 1000 <= ms * fps + 500 < f * 1000 + 1000 && (f > 0 || ms == 0)
    ensures FramesForMs(ms, fps) == f
  {
    if f > 0 {
      if ms <= 0 {
        TimesMonotone(ms, 0, fps);
        assert false;
      }
      QuotientUnique(ms * fps + 500, f);
    }
  }

  lemma MillisecondFrames(f: nat)
    ensures FrameMs(f, 1000) == f
  {
    QuotientUnique(f * 1000 + 500, f);
  }

  lemma FrameZero(fps: int)
    requires fps > 0
    ensures FrameMs(0, fps) == 0
  {
  }

  /** Up to 1000 frames a second, going to milliseconds and back gives the frame. */
  lemma FrameRoundTrip(f: nat, fps: int)
    requires 1 <= fps <= 1000
    ensures FramesForMs(FrameMs(f, fps), fps) == f
  {
    FrameMsIsNearest(f, fps);
    if fps == 1000 { MillisecondFrames(f); }
    if f == 0 { FrameZero(fps); }
    RoundsTo(FrameMs(f, fps), fps, f);
  }

  lemma DivMonotone(a: int, b: int, c: int)
    requires a <= b && c > 0
    ensures a / c <= b / c
  {
    DivBounds(a, c);
    DivBounds(b, c);
    if a / c > b / c {
      TimesMonotone(b / c + 1, a / c, c);
      assert false;
    }
  }

  /** Frame `f` comes back from its time in milliseconds. */
  predicate ComesBack(f: nat, fps: int) {
    FramesForMs(FrameMs(f, fps), fps) == f
  }

  lemma NextFrameLater(f: nat, fps: int)
    requires fps > 0 && f > 0 && ComesBack(f - 1, fps) && ComesBack(f, fps)
    ensures FrameMs(f - 1, fps) < FrameMs(f, fps)
  {
    DivMonotone((f - 1) * 1000 + fps / 2, f * 1000 + fps / 2, fps);
  }

  ghost predicate Climbs(times: nat -> int, n: nat) {
    times(0) >= 0 && forall k: nat :: 0 < k <= n ==> times(k - 1) < times(k)
  }

  lemma {:induction false} ClimbsByOne(times: nat -> int, n: nat)
    requires Climbs(times, n)
    ensures times(n) >= n
  {
    if n > 0 { ClimbsByOne(times, n - 1); }
  }

  /** If every frame up to `n` comes back, their times are all different, so the
      time of frame `n` is at least `n` milliseconds. */
  lemma RoundTripSpreads(n: nat, fps: int)
    requires fps > 0 && forall k: nat :: k <= n ==> ComesBack(k, fps)
    ensures FrameMs(n, fps) >= n
  {
    var times: nat -> int := k => FrameMs(k, fps);
    assert Climbs(times, n) by {
      FrameZero(fps);
      forall k: nat | 0 < k <= n ensures times(k - 1) < times(k) {
        NextFrameLater(k, fps);
      }
    }
    ClimbsByOne(times, n);
  }

  /** One second has fewer milliseconds than frames above 1000 frames a second. */
  lemma SecondInMs(fps: int)
    requires fps > 1000
    ensures FrameMs(fps, fps) <= 1000
  {
    DivBounds(fps * 1000 + fps / 2, fps);
    if FrameMs(fps, fps) > 1000 {
      TimesMonotone(1001, FrameMs(fps, fps), fps);
      assert false;
    }
  }

  /** Millisecond times identify frames exactly up to 1000 frames a second. */
  lemma RoundTripIff(fps: int)
    requires fps > 0
    ensures (forall f: nat :: ComesBack(f, fps)) <==> fps <= 1000
  {
    if fps <= 1000 {
      forall f: nat ensures ComesBack(f, fps) {
        FrameRoundTrip(f, fps);
      }
    } else if forall f: nat :: ComesBack(f, fps) {
      RoundTripSpreads(fps, fps);
      SecondInMs(fps);
      assert false;
    }
  }

  // ---- Narration -----------------------------------------------------------

  /** Where scene `i` starts, in milliseconds. */
  function SceneStartMs(t: Timeline, i: nat): int
    requires i < |t.scenes|
  {
    FrameMs(t.scenes[i].start, t.fps)
  }

  /** Every scene starts within half a millisecond of its exact time, however many
      scenes come before it: rounding is never added up. */
  lemma SceneStartsOnTime(t: Timeline, fps: int, frames: seq<int>, crossfade: int, i: nat)
    requires fps > 0 && AllPositive(frames) && IsPlan(t, fps, frames, crossfade) && i < |frames|
    ensures -fps <= 2 * (SceneStartMs(t, i) * fps - Start(frames, i) * 1000) <= fps
    ensures fps <= 1000 ==> FramesForMs(SceneStartMs(t, i), fps) == Start(frames, i)
  {
    StartMonotone(frames, 0, i);
    FrameMsIsNearest(Start(frames, i), fps);
    if fps <= 1000 { FrameRoundTrip(Start(frames, i), fps); }
  }

  /** The narration samples laid down before scene `i`: each voice padded or cut to
      its own scene. */
  ghost function SamplesBefore(frames: seq<int>, fps: int, i: nat): int
    requires fps > 0 && i <= |frames|
  {
    if i == 0 then 0 else SamplesBefore(frames, fps, i - 1) + SamplesForFrames(frames[i - 1], fps)
  }

  /** The voice of scene `i` starts at the sample of the scene's first frame: the
      audio graph's per-scene lengths add up to no drift. */
  lemma {:induction false} VoiceStartsWithScene(frames: seq<int>, fps: int, i: nat)
    requires fps > 0 && i <= |frames|
    ensures SamplesBefore(frames, fps, i) == SamplesForFrames(Start(frames, i), fps)
  {
    if i > 0 {
      VoiceStartsWithScene(frames, fps, i - 1);
      var n := AUDIO_SAMPLE_RATE / fps;
      assert (Start(frames, i - 1) + frames[i - 1]) * n == Start(frames, i - 1) * n + frames[i - 1] * n;
    }
  }

  /** That sample is at the frame's exact time for every frame exactly when the
      frame rate divides the sample rate. */
  lemma SamplesExactIff(fps: int)
    requires fps > 0
    ensures (forall f: nat :: SamplesForFrames(f, fps) * fps == f * AUDIO_SAMPLE_RATE) <==> AUDIO_SAMPLE_RATE % fps == 0
  {
    var n := AUDIO_SAMPLE_RATE / fps;
    assert AUDIO_SAMPLE_RATE == n * fps + AUDIO_SAMPLE_RATE % fps;
    if AUDIO_SAMPLE_RATE % fps == 0 {
      forall f: nat ensures SamplesForFrames(f, fps) * fps == f * AUDIO_SAMPLE_RATE {
        assert (f * n) * fps == f * (n * fps);
      }
    } else {
      assert SamplesForFrames(1, fps) * fps == n * fps;
    }
  }

  /** The audio graph's loop: the length of every voice, in scene order. */
  method VoiceLengths(t: Timeline, ghost fps: int, ghost frames: seq<int>, ghost crossfade: int) returns (lengths: seq<int>)
    requires fps > 0 && AllPositive(frames) && IsPlan(t, fps, frames, crossfade)
    ensures |lengths| == |frames|
    ensures forall i :: 0 <= i < |frames| ==> lengths[i] == SamplesForFrames(frames[i], fps)
    ensures forall i :: 0 <= i < |frames| ==>
                          SamplesBefore(frames, fps, i) == SamplesForFrames(t.scenes[i].start, fps)
  {
    lengths := [];
    for i := 0 to |t.scenes|
      invariant |lengths| == i
      invariant forall j :: 0 <= j < i ==> lengths[j] == SamplesForFrames(frames[j], fps)
    {
      lengths := lengths + [SamplesForFrames(t.scenes[i].frames, t.fps)];
    }
    forall i | 0 <= i < |frames|
      ensures SamplesBefore(frames, fps, i) == SamplesForFrames(t.scenes[i].start, fps)
    {
      VoiceStartsWithScene(frames, fps, i);
    }
  }
}
