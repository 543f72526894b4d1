/** Splitting a manuscript into chapters at the places a heading pattern matches.
    Where a pattern matches, and which runes are Han, are inputs. */
module Chapters {
  import opened Bytes
  import opened Utf8

  type Han = int -> bool

  // ---- Words ---------------------------------------------------------------

  predicate IsSpace(r: int) {
    || 9 <= r <= 13 || r == 0x20 || r == 0x85 || r == 0xA0 || r == 0x1680 || 0x2000 <= r <= 0x200A
    || r == 0x2028 || r == 0x2029 || r == 0x202F || r == 0x205F || r == 0x3000
  }

  /** The words of `runes` so far, and whether the last rune is inside one. */
  function Scan(han: Han, runes: seq<int>): (nat, bool) {
    if runes == [] then (0, false)
    else
      var (count, inWord) := Scan(han, runes[..|runes| - 1]);
      var r := runes[|runes| - 1];
      if han(r) then (count + 1, false)
      else if IsSpace(r) then (count, false)
      else if !inWord then (count + 1, true)
      else (count, true)
  }

  function Words(han: Han, t: Text): nat {
    Scan(han, Runes(t)).0
  }

  lemma ScanOne(han: Han, runes: seq<int>, r: int)
    ensures var (count, inWord) := Scan(han, runes);
            Scan(han, runes + [r]) == if han(r) then (count + 1, false) else if IsSpace(r) then (count, false)
                                      else (if inWord then count else count + 1, true)
  {
    assert (runes + [r])[..|runes|] == runes;
  }

  /** Counting can restart wherever no word is open. */
  lemma {:induction false} ScanConcat(han: Han, a: seq<int>, b: seq<int>)
    requires !Scan(han, a).1
    ensures Scan(han, a + b) == (Scan(han, a).0 + Scan(han, b).0, Scan(han, b).1)
  {
    if b == [] {
      assert a + b == a;
    } else {
      var init, last := b[..|b| - 1], b[|b| - 1];
      ScanConcat(han, a, init);
      assert a + b == (a + init) + [last] && b == init + [last];
      ScanOne(han, a + init, last);
      ScanOne(han, init, last);
    }
  }

  /** One turn of a loop over a string: its first rune and what follows. */
  method DecodeRune(t: Text) returns (r: int, rest: Text)
    requires t != []
    ensures |rest| < |t| && Runes(t) == [r] + Runes(rest)
  {
    r, rest := First(t), t[Width(t)..];
  }

  lemma ReadRune(all: seq<int>, done: seq<int>, r: int, rest: seq<int>)
    requires all == done + ([r] + rest)
    ensures all == (done + [r]) + rest
  {
  }

  /** The counting loop. */
  method WordCount(t: Text, han: Han) returns (count: nat)
    ensures count == Words(han, t)
  {
    var inWord, rest := false, t;
    ghost var all, done, left := Runes(t), [], Runes(t);
    count := 0;
    while rest != []
      invariant all == done + left && left == Runes(rest)
      invariant (count, inWord) == Scan(han, done)
      decreases |rest|
    {
      var r;
      r, rest := DecodeRune(rest);
      left := left[1..];
      ScanOne(han, done, r);
      ReadRune(all, done, r, left);
      done := done + [r];
      if han(r) {
        count, inWord := count + 1, false;
      } else if IsSpace(r) {
        inWord := false;
      } else if !inWord {
        count, inWord := count + 1, true;
      }
    }
    assert left == [] && done + [] == done;
  }

  /** Nothing but white space. */
  predicate Blank(t: Text) {
    forall k :: 0 <= k < RuneCount(t) ==> IsSpace(Runes(t)[k])
  }

  lemma {:induction false} SpacesHaveNoWords(han: Han, runes: seq<int>)
    requires forall k :: 0 <= k < |runes| ==> IsSpace(runes[k]) && !han(runes[k])
    ensures Scan(han, runes) == (0, false)
  {
    if runes != [] { SpacesHaveNoWords(han, runes[..|runes| - 1]); }
  }

  // ---- Where a manuscript is cut -------------------------------------------

  const NEWLINE: byte := 10

  /** `p` is the start of a line of `t`. */
  predicate LineStart(t: Text, p: nat) {
    p <= |t| && (p == 0 || t[p - 1] == NEWLINE)
  }

  lemma CutAtLine(t: Text, p: nat)
    requires LineStart(t, p)
    ensures Runes(t) == Runes(t[..p]) + Runes(t[p..])
  {
    assert t == t[..p] + t[p..];
    if p > 0 { assert t[..p][p - 1] == NEWLINE; }
    RunesConcat(t[..p], t[p..]);
  }

  lemma NoWordOpenAtLine(han: Han, t: Text, p: nat)
    requires LineStart(t, p) && !han(NEWLINE)
    ensures !Scan(han, Runes(t[..p])).1
  {
    if p > 0 {
      assert t[..p] == t[..p - 1] + [NEWLINE];
      RunesEndInAscii(t[..p - 1], NEWLINE);
      ScanOne(han, Runes(t[..p - 1]), NEWLINE as int);
    }
  }

  /** Words are counted line by line. */
  lemma WordsCutAtLine(han: Han, t: Text, p: nat)
    requires LineStart(t, p) && !han(NEWLINE)
    ensures Words(han, t) == Words(han, t[..p]) + Words(han, t[p..])
  {
    CutAtLine(t, p);
    NoWordOpenAtLine(han, t, p);
    ScanConcat(han, Runes(t[..p]), Runes(t[p..]));
  }

  // ---- Splitting -----------------------------------------------------------

  /** A match of the heading pattern: byte offsets into the text. */
  datatype Match = Match(start: nat, end: nat)

  /** A chapter's title: the preface's fixed one, none, or the trimmed text of a
      match. */
  datatype Title = Preface | Untitled | Heading(m: Match)

  datatype Span = Span(start: nat, end: nat, title: Title)

  datatype Chapter = Chapter(index: nat, title: Title, charStart: nat, charEnd: nat, wordCount: nat)

  /** Matches as a search returns them: in order, not overlapping, inside the text. */
  predicate InOrder(t: Text, locs: seq<Match>) {
    && (forall i :: 0 <= i < |locs| ==> locs[i].start <= locs[i].end <= |t|)
    && (forall i :: 0 <= i < |locs| - 1 ==> locs[i].end <= locs[i + 1].start)
  }

  /** Every match starts a line, as the patterns anchor them. */
  predicate Anchored(t: Text, locs: seq<Match>) {
    forall i :: 0 <= i < |locs| ==> LineStart(t, locs[i].start)
  }

  /** From a heading up to the next one. */
  function HeadingSpan(t: Text, locs: seq<Match>, i: nat): Span
    requires i < |locs|
  {
    Span(locs[i].start, if i + 1 < |locs| then locs[i + 1].start else |t|, Heading(locs[i]))
  }

  /** One span per heading, each ending where the next begins, after a preface if
      there is text before the first. */
  predicate IsSpans(t: Text, locs: seq<Match>, spans: seq<Span>)
    requires InOrder(t, locs) && locs != []
  {
    var p := if Blank(t[..locs[0].start]) then 0 else 1;
    && |spans| == |locs| + p
    && (p == 1 ==> spans[0] == Span(0, locs[0].start, Preface))
    && forall k :: p <= k < |spans| ==> spans[k] == HeadingSpan(t, locs, k - p)
  }

  /** The spans themselves. */
  function SpansOf(t: Text, locs: seq<Match>): (spans: seq<Span>)
    requires InOrder(t, locs) && locs != []
    ensures IsSpans(t, locs, spans)
  {
    (if Blank(t[..locs[0].start]) then [] else [Span(0, locs[0].start, Preface)])
    + seq(|locs|, i requires 0 <= i < |locs| => HeadingSpan(t, locs, i))
  }

  lemma SpansAreUnique(t: Text, locs: seq<Match>, a: seq<Span>, b: seq<Span>)
    requires InOrder(t, locs) && locs != [] && IsSpans(t, locs, a) && IsSpans(t, locs, b)
    ensures a == b
  {
  }

  /** `spans` follow each other up to the end of the text. */
  predicate Chained(t: Text, spans: seq<Span>) {
    && (forall k :: 0 <= k < |spans| ==> spans[k].start <= spans[k].end <= |t|)
    && (forall k :: 0 <= k < |spans| - 1 ==> spans[k].end == spans[k + 1].start)
    && (spans != [] ==> spans[|spans| - 1].end == |t|)
  }

  function Slice(t: Text, s: Span): Text
    requires s.start <= s.end <= |t|
  {
    t[s.start..s.end]
  }

  /** The running rune counter before span `k`. */
  ghost function RunePos(t: Text, spans: seq<Span>, k: nat): nat
    requires Chained(t, spans) && spans != [] && k <= |spans|
  {
    if k == 0 then RuneCount(t[..spans[0].start]) else RunePos(t, spans, k - 1) + RuneCount(Slice(t, spans[k - 1]))
  }

  /** The chapter of span `k`. */
  ghost function ChapterOf(t: Text, han: Han, spans: seq<Span>, k: nat): Chapter
    requires Chained(t, spans) && k < |spans|
  {
    Chapter(k + 1, spans[k].title, RunePos(t, spans, k), RunePos(t, spans, k + 1), Words(han, Slice(t, spans[k])))
  }

  lemma SpansAreChained(t: Text, locs: seq<Match>, spans: seq<Span>)
    requires InOrder(t, locs) && locs != [] && IsSpans(t, locs, spans)
    ensures Chained(t, spans) && spans != []
    ensures spans[0].start == 0 || Blank(t[..spans[0].start])
    ensures Anchored(t, locs) ==> forall k :: 0 <= k < |spans| ==> LineStart(t, spans[k].start)
  {
  }

  /** The first loop: where the chapters are. */
  method FindSpans(t: Text, locs: seq<Match>) returns (spans: seq<Span>)
    requires InOrder(t, locs) && locs != []
    ensures IsSpans(t, locs, spans)
  {
    spans := [];
    if !Blank(t[..locs[0].start]) {
      spans := [Span(0, locs[0].start, Preface)];
    }
    ghost var p := |spans|;
    for i := 0 to |locs|
      invariant |spans| == p + i && (p == 1 ==> spans[0] == Span(0, locs[0].start, Preface))
      invariant forall k :: p <= k < |spans| ==> spans[k] == HeadingSpan(t, locs, k - p)
    {
      var end := |t|;
      if i + 1 < |locs| { end := locs[i + 1].start; }
      spans := spans + [Span(locs[i].start, end, Heading(locs[i]))];
    }
  }

  /** What a split gives: a chapter per span. */
  ghost predicate IsSplit(t: Text, locs: seq<Match>, han: Han, spans: seq<Span>, chapters: seq<Chapter>)
    requires InOrder(t, locs) && locs != []
  {
    && IsSpans(t, locs, spans) && Chained(t, spans) && |chapters| == |spans|
    && forall k :: 0 <= k < |spans| ==> chapters[k] == ChapterOf(t, han, spans, k)
  }

  /** The second loop: a running rune counter turns byte offsets into rune offsets. */
  method CountSpans(t: Text, spans: seq<Span>, han: Han) returns (chapters: seq<Chapter>)
    requires Chained(t, spans) && spans != []
    ensures |chapters| == |spans| && forall k :: 0 <= k < |spans| ==> chapters[k] == ChapterOf(t, han, spans, k)
  {
    chapters := [];
    var runePos := RuneCount(t[..spans[0].start]);
    for i := 0 to |spans|
      invariant |chapters| == i && runePos == RunePos(t, spans, i)
      invariant forall k :: 0 <= k < i ==> chapters[k] == ChapterOf(t, han, spans, k)
    {
      var chapterText := Slice(t, spans[i]);
      var startRune := runePos;
      runePos := runePos + RuneCount(chapterText);
      var words := WordCount(chapterText, han);
      chapters := chapters + [Chapter(i + 1, spans[i].title, startRune, runePos, words)];
    }
  }

  /** Splits `t` at the matches. */
  method SplitWithPattern(t: Text, locs: seq<Match>, han: Han) returns (chapters: seq<Chapter>)
    requires InOrder(t, locs)
    ensures locs == [] ==> chapters == []
    ensures locs != [] ==> IsSplit(t, locs, han, SpansOf(t, locs), chapters)
  {
    if |locs| == 0 { return []; }
    var spans := FindSpans(t, locs);
    SpansAreUnique(t, locs, spans, SpansOf(t, locs));
    SpansAreChained(t, locs, spans);
    chapters := CountSpans(t, spans, han);
  }

  // ---- Nothing is lost and nothing counted twice ---------------------------

  ghost predicate LineSpans(t: Text, spans: seq<Span>) {
    && Chained(t, spans) && spans != []
    && forall k :: 0 <= k < |spans| ==> LineStart(t, spans[k].start)
  }

  /** The end of span `k - 1`, or where the first span starts. */
  ghost function Cut(spans: seq<Span>, k: nat): nat
    requires spans != [] && k <= |spans|
  {
    if k == 0 then spans[0].start else spans[k - 1].end
  }

  /** The text up to a span's end is the text up to its start and the span, in
      runes and in words. */
  lemma ExtendPrefix(t: Text, spans: seq<Span>, han: Han, k: nat)
    requires LineSpans(t, spans) && k < |spans| && !han(NEWLINE)
    ensures Cut(spans, k) == spans[k].start && Cut(spans, k + 1) == spans[k].end
    ensures Runes(t[..Cut(spans, k + 1)]) == Runes(t[..Cut(spans, k)]) + Runes(Slice(t, spans[k]))
    ensures Words(han, t[..Cut(spans, k + 1)]) == Words(han, t[..Cut(spans, k)]) + Words(han, Slice(t, spans[k]))
  {
    var p := t[..spans[k].end];
    assert p[..spans[k].start] == t[..spans[k].start] && p[spans[k].start..] == Slice(t, spans[k]);
    CutAtLine(p, spans[k].start);
    WordsCutAtLine(han, p, spans[k].start);
  }

  /** The rune counter is the rune offset of the byte offset it stands for. */
  lemma {:induction false} RunePosIsOffset(t: Text, spans: seq<Span>, k: nat)
    requires LineSpans(t, spans) && k <= |spans|
    ensures RunePos(t, spans, k) == RuneCount(t[..Cut(spans, k)])
  {
    if k > 0 {
      RunePosIsOffset(t, spans, k - 1);
      ExtendPrefix(t, spans, r => false, k - 1);
    }
  }

  lemma CutIsStart(spans: seq<Span>, t: Text, k: nat)
    requires Chained(t, spans) && k < |spans|
    ensures Cut(spans, k) == spans[k].start
  {
    if k > 0 { assert spans[k - 1].end == spans[k - 1 + 1].start; }
  }

  /** The runes before a cut are the first runes of the text. */
  lemma PrefixRunes(t: Text, spans: seq<Span>, k: nat)
    requires LineSpans(t, spans) && k <= |spans|
    ensures RuneCount(t[..Cut(spans, k)]) <= RuneCount(t)
    ensures Runes(t)[..RuneCount(t[..Cut(spans, k)])] == Runes(t[..Cut(spans, k)])
  {
    if k == |spans| {
      assert t[..|t|] == t;
    } else {
      CutIsStart(spans, t, k);
      CutAtLine(t, Cut(spans, k));
    }
  }

  /** A chapter's own slice of the source runes, which is empty when its range does
      not fit them. */
  function ChapterText(c: Chapter, source: seq<int>): Text {
    if c.charEnd > |source| || c.charStart > c.charEnd then [] else EncodeRunes(source[c.charStart..c.charEnd])
  }

  /** The rune ranges of the chapters follow each other without a gap, end at the
      end of the text, and cut out of it exactly the runes of their spans; only
      white space is before the first. */
  lemma {:induction false} RangesAreContiguous(t: Text, locs: seq<Match>, han: Han, spans: seq<Span>, chapters: seq<Chapter>, k: nat)
    requires InOrder(t, locs) && locs != [] && Anchored(t, locs) && IsSplit(t, locs, han, spans, chapters) && k < |chapters|
    ensures chapters[k].charStart <= chapters[k].charEnd <= RuneCount(t)
    ensures Runes(t)[chapters[k].charStart..chapters[k].charEnd] == Runes(Slice(t, spans[k]))
    ensures chapters[k].charEnd == if k + 1 < |chapters| then chapters[k + 1].charStart else RuneCount(t)
    ensures chapters[0].charStart <= RuneCount(t) && forall r :: r in Runes(t)[..chapters[0].charStart] ==> IsSpace(r)
  {
    SpansAreChained(t, locs, spans);
    RunePosIsOffset(t, spans, k);
    RunePosIsOffset(t, spans, k + 1);
    ExtendPrefix(t, spans, r => false, k);
    PrefixRunes(t, spans, k);
    PrefixRunes(t, spans, k + 1);
    PrefixRunes(t, spans, 0);
    assert t[..|t|] == t;
    var before, piece := Runes(t[..Cut(spans, k)]), Runes(Slice(t, spans[k]));
    assert (before + piece)[|before|..] == piece;
  }

  /** The chapters' texts one after another. */
  ghost function Joined(chapters: seq<Chapter>, source: seq<int>, n: nat): Text
    requires n <= |chapters|
  {
    if n == 0 then [] else Joined(chapters, source, n - 1) + ChapterText(chapters[n - 1], source)
  }

  /** The texts are the spans of the manuscript, decoded and encoded again. */
  ghost predicate TextsAreSpans(t: Text, spans: seq<Span>, chapters: seq<Chapter>, source: seq<int>)
    requires Chained(t, spans) && |chapters| == |spans|
  {
    forall k :: 0 <= k < |chapters| ==> ChapterText(chapters[k], source) == EncodeRunes(Runes(Slice(t, spans[k])))
  }

  lemma {:induction false} AllTextsAreSpans(t: Text, locs: seq<Match>, han: Han, spans: seq<Span>, chapters: seq<Chapter>)
    requires InOrder(t, locs) && locs != [] && Anchored(t, locs) && IsSplit(t, locs, han, spans, chapters)
    ensures TextsAreSpans(t, spans, chapters, Runes(t))
  {
    forall k: nat | k < |chapters| ensures ChapterText(chapters[k], Runes(t)) == EncodeRunes(Runes(Slice(t, spans[k]))) {
      RangesAreContiguous(t, locs, han, spans, chapters, k);
    }
  }

  lemma SpanExtends(t: Text, a: nat, b: nat, c: nat)
    requires a <= b <= c <= |t| && LineStart(t, b)
    ensures EncodeRunes(Runes(t[a..c])) == EncodeRunes(Runes(t[a..b])) + EncodeRunes(Runes(t[b..c]))
  {
    assert t[a..c] == t[a..b] + t[b..c];
    if a < b { assert t[a..b][b - a - 1] == NEWLINE; }
    RunesConcat(t[a..b], t[b..c]);
    EncodeConcat(Runes(t[a..b]), Runes(t[b..c]));
  }

  lemma {:induction false} JoinedIsPrefix(t: Text, spans: seq<Span>, chapters: seq<Chapter>, source: seq<int>, n: nat)
    requires LineSpans(t, spans) && |chapters| == |spans| && n <= |chapters| && TextsAreSpans(t, spans, chapters, source)
    ensures spans[0].start <= Cut(spans, n) <= |t|
    ensures Joined(chapters, source, n) == EncodeRunes(Runes(t[spans[0].start..Cut(spans, n)]))
  {
    if n > 0 {
      JoinedIsPrefix(t, spans, chapters, source, n - 1);
      CutIsStart(spans, t, n - 1);
      SpanExtends(t, spans[0].start, Cut(spans, n - 1), Cut(spans, n));
    } else {
      assert t[spans[0].start..spans[0].start] == [];
    }
  }

  lemma AllSpans(t: Text, spans: seq<Span>, tail: Text)
    requires Chained(t, spans) && spans != [] && tail == t[spans[0].start..]
    ensures Cut(spans, |spans|) == |t| && tail == t[spans[0].start..Cut(spans, |spans|)]
  {
  }

  lemma {:induction false} JoinedIsText(t: Text, spans: seq<Span>, chapters: seq<Chapter>, source: seq<int>, tail: Text)
    requires LineSpans(t, spans) && |chapters| == |spans| && TextsAreSpans(t, spans, chapters, source)
    requires tail == t[spans[0].start..]
    ensures Joined(chapters, source, |chapters|) == EncodeRunes(Runes(tail))
  {
    AllSpans(t, spans, tail);
    JoinedIsPrefix(t, spans, chapters, source, |chapters|);
  }

  lemma BlankBeforeFirst(t: Text, locs: seq<Match>, spans: seq<Span>)
    requires InOrder(t, locs) && locs != [] && IsSpans(t, locs, spans)
    ensures spans != [] && spans[0].start <= |t| && Blank(t[..spans[0].start])
  {
    SpansAreChained(t, locs, spans);
    if spans[0].start == 0 { assert t[..0] == []; }
  }

  /** Only white space is left out in front of the first chapter, and the texts of
      the chapters are all the rest, byte for byte, exactly when that is valid UTF-8. */
  lemma {:induction false} ChaptersAreTheText(t: Text, locs: seq<Match>, han: Han, spans: seq<Span>, chapters: seq<Chapter>)
    requires InOrder(t, locs) && locs != [] && Anchored(t, locs) && IsSplit(t, locs, han, spans, chapters)
    ensures spans != [] && spans[0].start <= |t| && Blank(t[..spans[0].start])
    ensures Joined(chapters, Runes(t), |chapters|) == t[spans[0].start..] <==> Valid(t[spans[0].start..])
  {
    SpansAreChained(t, locs, spans);
    BlankBeforeFirst(t, locs, spans);
    AllTextsAreSpans(t, locs, han, spans, chapters);
    JoinedIsText(t, spans, chapters, Runes(t), t[spans[0].start..]);
    RoundTripIff(t[spans[0].start..]);
  }

  /** The word counts of the first `n` chapters. */
  ghost function WordsOf(chapters: seq<Chapter>, n: nat): nat
    requires n <= |chapters|
  {
    if n == 0 then 0 else WordsOf(chapters, n - 1) + chapters[n - 1].wordCount
  }

  lemma {:induction false} WordsAddUp(t: Text, locs: seq<Match>, han: Han, spans: seq<Span>, chapters: seq<Chapter>, n: nat)
    requires InOrder(t, locs) && locs != [] && Anchored(t, locs) && IsSplit(t, locs, han, spans, chapters)
    requires !han(NEWLINE) && n <= |chapters| && LineSpans(t, spans)
    ensures Words(han, t[..Cut(spans, n)]) == Words(han, t[..Cut(spans, 0)]) + WordsOf(chapters, n)
  {
    if n > 0 {
      WordsAddUp(t, locs, han, spans, chapters, n - 1);
      ExtendPrefix(t, spans, han, n - 1);
    }
  }

  /** The chapters' word counts add up to the manuscript's. */
  lemma {:induction false} ChapterWordsAddUp(t: Text, locs: seq<Match>, han: Han, spans: seq<Span>, chapters: seq<Chapter>)
    requires InOrder(t, locs) && locs != [] && Anchored(t, locs) && IsSplit(t, locs, han, spans, chapters)
    requires forall r :: han(r) ==> !IsSpace(r)
    ensures WordsOf(chapters, |chapters|) == Words(han, t)
  {
    SpansAreChained(t, locs, spans);
    WordsAddUp(t, locs, han, spans, chapters, |chapters|);
    assert t[..|t|] == t;
    BlankBeforeFirst(t, locs, spans);
    SpacesHaveNoWords(han, Runes(t[..spans[0].start]));
  }

  // ---- Choosing a pattern --------------------------------------------------

  /** The presets of the importer; `Other` stands for any name without a pattern. */
  datatype Preset = Chinese | English | Viet | Auto | Other(name: string)

  /** Where each preset's pattern matches. */
  datatype Matches = Matches(zh: seq<Match>, en: seq<Match>, vi: seq<Match>)

  function MatchesOf(m: Matches, p: Preset): seq<Match> {
    match p
    case Chinese => m.zh
    case English => m.en
    case Viet => m.vi
    case _ => []
  }

  function WholeText(t: Text, han: Han): seq<Chapter> {
    [Chapter(1, Untitled, 0, RuneCount(t), Words(han, t))]
  }

  const PRESETS: seq<Preset> := [Chinese, English, Viet]

  /** `p` matches most often, and before it in the list none as often. */
  ghost predicate Best(m: Matches, p: Preset) {
    exists k :: 0 <= k < 3 && PRESETS[k] == p && MatchesOf(m, p) != []
                && forall j :: 0 <= j < 3 ==>
                     |MatchesOf(m, PRESETS[j])| <= |MatchesOf(m, p)| && (j < k ==> |MatchesOf(m, PRESETS[j])| < |MatchesOf(m, p)|)
  }

  /** Splits with the preset asked for, or with the one that matches most; a text
      without a match is one chapter. */
  method Split(t: Text, preset: Preset, m: Matches, han: Han)
    returns (chapters: seq<Chapter>, used: Preset)
    requires InOrder(t, m.zh) && InOrder(t, m.en) && InOrder(t, m.vi)
    ensures chapters != []
    ensures MatchesOf(m, used) == [] ==> chapters == WholeText(t, han)
    ensures MatchesOf(m, used) != [] ==> IsSplit(t, MatchesOf(m, used), han, SpansOf(t, MatchesOf(m, used)), chapters)
    ensures !preset.Auto? ==> used == preset
    ensures preset.Auto? ==> Best(m, used) || (used.Auto? && m == Matches([], [], []))
  {
    used := preset;
    if preset.Auto? {
      var bestCount := 0;
      for i := 0 to 3
        invariant forall j :: 0 <= j < i ==> |MatchesOf(m, PRESETS[j])| <= bestCount
        invariant if bestCount == 0 then used == Auto
                  else exists k :: 0 <= k < i && PRESETS[k] == used && |MatchesOf(m, used)| == bestCount
                                   && forall j :: 0 <= j < k ==> |MatchesOf(m, PRESETS[j])| < bestCount
      {
        var n := |MatchesOf(m, PRESETS[i])|;
        if n > bestCount {
          bestCount := n;
          used := PRESETS[i];
        }
      }
      assert used.Auto? ==> |MatchesOf(m, PRESETS[0])| == 0 && |MatchesOf(m, PRESETS[1])| == 0 && |MatchesOf(m, PRESETS[2])| == 0;
    }
    chapters := SplitWithPattern(t, MatchesOf(m, used), han);
    if |chapters| == 0 {
      var words := WordCount(t, han);
      chapters := [Chapter(1, Untitled, 0, RuneCount(t), words)];
    }
  }
}
