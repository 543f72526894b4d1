/** 16-bit mono PCM audio in RIFF/WAVE files, as in Multimedia Programming Interface
    and Data Specifications 1.0, section "Waveform Audio File Format (WAVE)". */
module Wav {
  import opened Bytes

  type Data = seq<byte>

  datatype WAV = WAV(sampleRate: int, pcm: Data)

  datatype Parsed =
    | Ok(wav: WAV)
    | NotRiff
    | Truncated(id: Data)
    | ShortFmt
    | WrongFormat(format: int, channels: int, bits: int)
    | DataBeforeFmt
    | NoData

  const TWO_32 := 0x1_0000_0000

  const RIFF: Data := [82, 73, 70, 70]
  const WAVE: Data := [87, 65, 86, 69]
  const FMT: Data := [102, 109, 116, 32]
  const DATA: Data := [100, 97, 116, 97]

  // ---- Little-endian numbers -----------------------------------------------

  /** The number at `at`. */
  function Le16(b: Data, at: nat): int
    requires at + 2 <= |b|
  {
    b[at] as int + b[at + 1] as int * 0x100
  }

  function Le32(b: Data, at: nat): int
    requires at + 4 <= |b|
  {
    b[at] as int + b[at + 1] as int * 0x100 + b[at + 2] as int * 0x1_0000 + b[at + 3] as int * 0x100_0000
  }

  /** The low 16 bits of `v`, least significant byte first. */
  function Put16(v: int): (b: Data)
    ensures |b| == 2
  {
    [v % 0x100, v / 0x100 % 0x100]
  }

  function Put32(v: int): (b: Data)
    ensures |b| == 4
  {
    [v % 0x100, v / 0x100 % 0x100, v / 0x1_0000 % 0x100, v / 0x100_0000 % 0x100]
  }

  lemma Split256(v: int)
    ensures v == v / 0x100 * 0x100 + v % 0x100
  {
  }

  lemma DivDiv(v: int)
    ensures v / 0x100 / 0x100 == v / 0x1_0000 && v / 0x1_0000 / 0x100 == v / 0x100_0000 && v / 0x100_0000 / 0x100 == v / TWO_32
  {
  }

  /** Reading back what was put gives the number modulo 2^32. */
  lemma Le32Put32(v: int)
    ensures Le32(Put32(v), 0) == v % TWO_32
  {
    Split256(v);
    Split256(v / 0x100);
    Split256(v / 0x1_0000);
    Split256(v / 0x100_0000);
    DivDiv(v);
    assert v == v / TWO_32 * TWO_32 + Le32(Put32(v), 0);
  }

  // ---- Parsing -------------------------------------------------------------

  datatype Step = Next(off: nat, rate: Option<int>) | Stop(result: Parsed)

  /** Reads the chunk at `off`; `rate` is the sample rate once a format chunk was
      seen. */
  function ReadChunk(data: Data, off: nat, rate: Option<int>): (s: Step)
    requires off + 8 <= |data|
    ensures s.Next? ==> s.off > off
  {
    var id, size, body := data[off..off + 4], Le32(data, off + 4), off + 8;
    if body + size > |data| then Stop(Truncated(id))
    else if id == FMT then
      if size < 16 then Stop(ShortFmt)
      else
        var format, channels, bits := Le16(data, body), Le16(data, body + 2), Le16(data, body + 14);
        if format != 1 || channels != 1 || bits != 16 then Stop(WrongFormat(format, channels, bits))
        else Next(body + size + size % 2, Some(Le32(data, body + 4)))
    else if id == DATA then
      Stop(if rate.None? then DataBeforeFmt else Ok(WAV(rate.value, data[body..body + size])))
    else Next(body + size + size % 2, rate)
  }

  type Reader = (nat, Option<int>) -> Step

  /** Reads one chunk of `data`, if there is one. */
  function Reads(data: Data): Reader {
    (off: nat, rate: Option<int>) => if off + 8 > |data| then Stop(NoData) else ReadChunk(data, off, rate)
  }

  ghost predicate Advances(read: Reader, len: nat) {
    forall off: nat, rate: Option<int> :: read(off, rate).Next? ==> off < len && off < read(off, rate).off
  }

  lemma ReadsAdvances(data: Data)
    ensures Advances(Reads(data), |data|)
  {
  }

  /** Reads chunks from `off` on until one of them settles the result. */
  function ParseFrom(read: Reader, ghost len: nat, off: nat, rate: Option<int>): Parsed
    requires Advances(read, len)
    decreases if off < len then len - off else 0
  {
    match read(off, rate)
    case Next(next, r) => ParseFrom(read, len, next, r)
    case Stop(result) => result
  }

  function Parse(data: Data): Parsed {
    ReadsAdvances(data);
    if |data| < 12 || data[0..4] != RIFF || data[8..12] != WAVE then NotRiff else ParseFrom(Reads(data), |data|, 12, None)
  }

  /** A place to look at: what a reader does there is recalled only where it is
      asked for. */
  predicate Look(off: nat, rate: Option<int>) { true }

  /** `read` reads the chunks of `data`. */
  ghost predicate ReadsFrom(read: Reader, data: Data) {
    forall off: nat, rate: Option<int> {:trigger Look(off, rate)} ::
      Look(off, rate) ==> read(off, rate) == if off + 8 > |data| then Stop(NoData) else ReadChunk(data, off, rate)
  }

  /** Past its header, a file is parsed by a reader of its chunks. */
  lemma ParserOf(data: Data) returns (read: Reader)
    requires |data| >= 12 && data[0..4] == RIFF && data[8..12] == WAVE
    ensures ReadsFrom(read, data) && Advances(read, |data|)
    ensures Parse(data) == ParseFrom(read, |data|, 12, None)
  {
    read := Reads(data);
    ReadsAdvances(data);
  }

  /** The body of the read loop: one chunk. */
  method ReadOne(data: Data, off: nat, rate: Option<int>) returns (s: Step)
    requires off + 8 <= |data|
    ensures s == ReadChunk(data, off, rate)
  {
    var sampleRate := rate;
    var id := data[off..off + 4];
    var size := Le32(data, off + 4);
    var body := off + 8;
    if body + size > |data| { return Stop(Truncated(id)); }
    if id == FMT {
      if size < 16 { return Stop(ShortFmt); }
      var format, channels, bits := Le16(data, body), Le16(data, body + 2), Le16(data, body + 14);
      if format != 1 || channels != 1 || bits != 16 { return Stop(WrongFormat(format, channels, bits)); }
      sampleRate := Some(Le32(data, body + 4));
    } else if id == DATA {
      if rate.None? { return Stop(DataBeforeFmt); }
      return Stop(Ok(WAV(rate.value, data[body..body + size])));
    }
    return Next(body + size + size % 2, sampleRate);
  }

  /** Reads a file, never past its end. */
  method ParseWAV(data: Data) returns (r: Parsed)
    ensures r == Parse(data)
  {
    if |data| < 12 || data[0..4] != RIFF || data[8..12] != WAVE { return NotRiff; }
    var off, rate := 12, None;
    ReadsAdvances(data);
    while off + 8 <= |data|
      invariant Parse(data) == ParseFrom(Reads(data), |data|, off, rate)
      decreases |data| - off
    {
      var s := ReadOne(data, off, rate);
      if s.Stop? { return s.result; }
      off, rate := s.off, s.rate;
    }
    return NoData;
  }

  // ---- Printing ------------------------------------------------------------

  /** A chunk: its id, the length of its body, its body, and a byte of any value
      when the length is odd. */
  datatype Chunk = Chunk(id: Data, body: Data, pad: byte)

  function ChunkBytes(c: Chunk): (b: Data)
    ensures |b| == |c.id| + 4 + |c.body| + |c.body| % 2
  {
    c.id + Put32(|c.body|) + c.body + if |c.body| % 2 == 1 then [c.pad] else []
  }

  function FmtBody(rate: int): (b: Data)
    ensures |b| == 16
  {
    Put16(1) + Put16(1) + Put32(rate) + Put32(rate * 2) + Put16(2) + Put16(16)
  }

  /** The 44 bytes before the samples. */
  function Header(w: WAV): (b: Data)
    ensures |b| == 44
  {
    RIFF + Put32(36 + |w.pcm|) + WAVE + ChunkBytes(Chunk(FMT, FmtBody(w.sampleRate), 0)) + DATA + Put32(|w.pcm|)
  }

  function Encode(w: WAV): Data {
    Header(w) + w.pcm
  }

  /** Copies `b` into the buffer at `at`. */
  method CopyAt(out: array<byte>, at: nat, b: Data)
    requires at + |b| <= out.Length
    modifies out
    ensures out[..] == old(out[..at]) + b + old(out[at + |b|..])
  {
    for i := 0 to |b|
      invariant forall k :: 0 <= k < at || at + i <= k < out.Length ==> out[k] == old(out[k])
      invariant forall k :: 0 <= k < i ==> out[at + k] == b[k]
    {
      out[at + i] := b[i];
    }
  }

  /** Fills the next bytes of a header of which `done` is filled. */
  method Append(out: array<byte>, ghost done: Data, at: nat, b: Data) returns (ghost more: Data)
    requires at == |done| && at + |b| <= out.Length && out[..at] == done
    modifies out
    ensures more == done + b && out[..at + |b|] == more
  {
    CopyAt(out, at, b);
    more := done + b;
  }

  /** Encodes `w` with a header filled in place. */
  method ToBytes(w: WAV) returns (bytes: Data)
    ensures bytes == Encode(w)
  {
    var n := |w.pcm|;
    var out := new byte[44](_ => 0);
    ghost var done := Append(out, [], 0, RIFF);
    done := Append(out, done, 4, Put32(36 + n));
    done := Append(out, done, 8, WAVE + FMT);
    done := Append(out, done, 16, Put32(16));
    done := Append(out, done, 20, Put16(1));
    done := Append(out, done, 22, Put16(1));
    done := Append(out, done, 24, Put32(w.sampleRate));
    done := Append(out, done, 28, Put32(w.sampleRate * 2));
    done := Append(out, done, 32, Put16(2));
    done := Append(out, done, 34, Put16(16));
    done := Append(out, done, 36, DATA);
    done := Append(out, done, 40, Put32(n));
    HeaderParts(RIFF, Put32(36 + n), WAVE, FMT, Put32(16), Put16(1), Put32(w.sampleRate), Put32(w.sampleRate * 2), Put16(2),
                Put16(16), DATA, Put32(n));
    assert out[..] == Header(w);
    bytes := out[..] + w.pcm;
  }

  lemma HeaderParts(a: Data, b: Data, c: Data, d: Data, e: Data, f: Data, g: Data, h: Data, i: Data, j: Data, k: Data, l: Data)
    ensures [] + a + b + (c + d) + e + f + f + g + h + i + j + k + l
            == a + b + c + (d + e + (f + f + g + h + i + j) + []) + k + l
  {
  }

  // ---- Round trip ----------------------------------------------------------

  ghost predicate At(data: Data, off: nat, b: Data) {
    off + |b| <= |data| && forall k :: 0 <= k < |b| ==> b[k] == data[off + k]
  }

  lemma AtSplits(data: Data, off: nat, a: Data, b: Data)
    requires At(data, off, a + b)
    ensures At(data, off, a) && At(data, off + |a|, b)
  {
    assert forall k :: 0 <= k < |a| ==> a[k] == (a + b)[k];
    assert forall k :: 0 <= k < |b| ==> b[k] == (a + b)[|a| + k];
  }

  lemma ThreeParts(data: Data, off: nat, a: Data, b: Data, c: Data, d: Data)
    requires At(data, off, a + b + c + d)
    ensures At(data, off, a) && At(data, off + |a|, b) && At(data, off + |a| + |b|, c)
    ensures off + |a| + |b| + |c| + |d| <= |data|
  {
    AtSplits(data, off, a + b + c, d);
    AtSplits(data, off, a + b, c);
    AtSplits(data, off, a, b);
  }

  lemma Le32At(data: Data, off: nat, v: int)
    requires At(data, off, Put32(v))
    ensures Le32(data, off) == v % TWO_32
  {
    var b := Put32(v);
    assert b[0] == data[off] && b[1] == data[off + 1] && b[2] == data[off + 2] && b[3] == data[off + 3];
    Le32Put32(v);
  }

  lemma Le16At(data: Data, off: nat, v: int)
    requires At(data, off, Put16(v)) && 0 <= v < 0x100
    ensures Le16(data, off) == v
  {
    var b := Put16(v);
    assert b[0] == data[off] && b[1] == data[off + 1];
  }

  ghost predicate Known(id: Data) {
    id == FMT || id == DATA
  }

  /** A chunk any file may carry besides its format and samples. */
  ghost predicate Extra(c: Chunk) {
    |c.id| == 4 && !Known(c.id) && |c.body| < TWO_32
  }

  function ChunkSize(c: Chunk): nat { 8 + |c.body| + |c.body| % 2 }

  /** The chunk at `off` reads as `c`. */
  ghost predicate Holds(data: Data, off: nat, c: Chunk) {
    && off + ChunkSize(c) <= |data|
    && data[off..off + 4] == c.id && Le32(data, off + 4) == |c.body| && At(data, off + 8, c.body)
  }

  lemma SliceOf(data: Data, off: nat, pcm: Data, size: nat)
    requires At(data, off, pcm) && size <= |pcm|
    ensures off + size <= |data| && data[off..off + size] == pcm[..size]
  {
  }

  lemma PartsHold(data: Data, off: nat, c: Chunk)
    requires |c.id| == 4 && off + ChunkSize(c) <= |data| && At(data, off, c.id) && At(data, off + 8, c.body)
    requires Le32(data, off + 4) == |c.body|
    ensures Holds(data, off, c)
  {
    SliceOf(data, off, c.id, 4);
  }

  lemma ChunkHolds(data: Data, off: nat, c: Chunk)
    requires At(data, off, ChunkBytes(c)) && |c.id| == 4 && |c.body| < TWO_32
    ensures Holds(data, off, c) && |ChunkBytes(c)| == ChunkSize(c)
  {
    var len, pad := Put32(|c.body|), if |c.body| % 2 == 1 then [c.pad] else [];
    ThreeParts(data, off, c.id, len, c.body, pad);
    Le32At(data, off + 4, |c.body|);
    PartsHold(data, off, c);
  }

  function AllBytes(cs: seq<Chunk>): Data {
    if cs == [] then [] else ChunkBytes(cs[0]) + AllBytes(cs[1..])
  }

  function AllSize(cs: seq<Chunk>): nat {
    if cs == [] then 0 else ChunkSize(cs[0]) + AllSize(cs[1..])
  }

  ghost predicate HoldsAll(data: Data, off: nat, cs: seq<Chunk>)
    decreases |cs|
  {
    cs != [] ==> Holds(data, off, cs[0]) && HoldsAll(data, off + ChunkSize(cs[0]), cs[1..])
  }

  ghost predicate AllExtra(cs: seq<Chunk>) {
    forall c :: c in cs ==> Extra(c)
  }

  lemma {:induction false} ChunksHold(data: Data, off: nat, cs: seq<Chunk>)
    requires At(data, off, AllBytes(cs)) && AllExtra(cs)
    ensures HoldsAll(data, off, cs) && |AllBytes(cs)| == AllSize(cs)
    decreases |cs|
  {
    if cs != [] {
      var first, rest := ChunkBytes(cs[0]), AllBytes(cs[1..]);
      AtSplits(data, off, first, rest);
      assert cs[0] in cs;
      ChunkHolds(data, off, cs[0]);
      ChunksHold(data, off + |first|, cs[1..]);
    }
  }

  lemma ReadExtra(data: Data, read: Reader, off: nat, c: Chunk, rate: Option<int>)
    requires ReadsFrom(read, data) && Holds(data, off, c) && Extra(c)
    ensures read(off, rate) == Next(off + ChunkSize(c), rate)
  {
    assert Look(off, rate);
  }

  /** The reader passes over every chunk of `cs`. */
  ghost predicate PassesOver(read: Reader, off: nat, cs: seq<Chunk>, rate: Option<int>)
    decreases |cs|
  {
    cs != [] ==>
      && read(off, rate) == Next(off + ChunkSize(cs[0]), rate)
      && PassesOver(read, off + ChunkSize(cs[0]), cs[1..], rate)
  }

  lemma {:induction false} ExtrasPass(data: Data, read: Reader, off: nat, cs: seq<Chunk>, rate: Option<int>)
    requires ReadsFrom(read, data) && HoldsAll(data, off, cs) && AllExtra(cs)
    ensures PassesOver(read, off, cs, rate)
    decreases |cs|
  {
    if cs != [] {
      assert cs[0] in cs;
      ReadExtra(data, read, off, cs[0], rate);
      ExtrasPass(data, read, off + ChunkSize(cs[0]), cs[1..], rate);
    }
  }

  /** Chunks that are passed over do not matter. */
  lemma {:induction false} SkipAll(read: Reader, len: nat, off: nat, cs: seq<Chunk>, rate: Option<int>)
    requires Advances(read, len) && PassesOver(read, off, cs, rate)
    ensures ParseFrom(read, len, off, rate) == ParseFrom(read, len, off + AllSize(cs), rate)
    decreases |cs|
  {
    if cs != [] { SkipAll(read, len, off + ChunkSize(cs[0]), cs[1..], rate); }
  }

  lemma FmtFields(data: Data, off: nat, rate: int)
    requires At(data, off, FmtBody(rate))
    ensures Le16(data, off) == 1 && Le16(data, off + 2) == 1 && Le16(data, off + 14) == 16
    ensures Le32(data, off + 4) == rate % TWO_32
  {
    AtSplits(data, off, Put16(1) + Put16(1) + Put32(rate) + Put32(rate * 2) + Put16(2), Put16(16));
    AtSplits(data, off, Put16(1) + Put16(1) + Put32(rate) + Put32(rate * 2), Put16(2));
    AtSplits(data, off, Put16(1) + Put16(1) + Put32(rate), Put32(rate * 2));
    AtSplits(data, off, Put16(1) + Put16(1), Put32(rate));
    AtSplits(data, off, Put16(1), Put16(1));
    Le16At(data, off, 1);
    Le16At(data, off + 2, 1);
    Le32At(data, off + 4, rate);
    Le16At(data, off + 14, 16);
  }

  lemma ReadFmt(data: Data, read: Reader, off: nat, rate: int, was: Option<int>)
    requires ReadsFrom(read, data) && Holds(data, off, Chunk(FMT, FmtBody(rate), 0))
    ensures read(off, was) == Next(off + 24, Some(rate % TWO_32))
  {
    FmtFields(data, off + 8, rate);
    assert Look(off, was);
  }

  /** A whole data chunk settles the result. */
  lemma ReadBody(data: Data, read: Reader, off: nat, size: nat, rate: int)
    requires ReadsFrom(read, data) && off + 8 + size <= |data| && data[off..off + 4] == DATA && Le32(data, off + 4) == size
    ensures read(off, Some(rate)) == Stop(Ok(WAV(rate, data[off + 8..off + 8 + size])))
  {
    assert Look(off, Some(rate));
  }

  /** What is read of the samples: as many as the 32-bit length says. */
  lemma ReadData(data: Data, read: Reader, off: nat, pcm: Data, rate: int, size: nat)
    requires ReadsFrom(read, data) && At(data, off, DATA + Put32(|pcm|) + pcm) && size == |pcm| % TWO_32 <= |pcm|
    ensures read(off, Some(rate)) == Stop(Ok(WAV(rate, pcm[..size])))
  {
    AtSplits(data, off, DATA + Put32(|pcm|), pcm);
    AtSplits(data, off, DATA, Put32(|pcm|));
    SliceOf(data, off, DATA, 4);
    Le32At(data, off + 4, |pcm|);
    SliceOf(data, off + 8, pcm, size);
    ReadBody(data, read, off, size, rate);
  }

  lemma FourParts(data: Data, off: nat, a: Data, b: Data, c: Data, d: Data, e: Data)
    requires At(data, off, a + (b + (c + (d + e))))
    ensures At(data, off, a) && At(data, off + |a|, b) && At(data, off + |a| + |b|, c) && At(data, off + |a| + |b| + |c|, d)
  {
    AtSplits(data, off, a, b + (c + (d + e)));
    AtSplits(data, off + |a|, b, c + (d + e));
    AtSplits(data, off + |a| + |b|, c, d + e);
    AtSplits(data, off + |a| + |b| + |c|, d, e);
  }

  lemma StartsAsRiff(a: Data, b: Data, c: Data, rest: Data)
    requires |a| == |b| == |c| == 4
    ensures var data := a + b + c + rest; data[0..4] == a && data[8..12] == c && At(data, 12, rest)
  {
  }

  function FmtChunk(w: WAV): (b: Data)
    ensures |b| == 24
  {
    ChunkBytes(Chunk(FMT, FmtBody(w.sampleRate), 0))
  }

  function DataChunk(w: WAV): Data { DATA + Put32(|w.pcm|) + w.pcm }

  /** A well-formed file: any length field, extra chunks before and after the
      format chunk, the samples, and anything behind them. */
  function File(w: WAV, riffSize: Data, before: seq<Chunk>, between: seq<Chunk>, behind: Data): Data {
    RIFF + riffSize + WAVE + (AllBytes(before) + (FmtChunk(w) + (AllBytes(between) + (DataChunk(w) + behind))))
  }

  /** The audio as far as 32-bit fields can say. */
  function Fitted(w: WAV): WAV {
    WAV(w.sampleRate % TWO_32, w.pcm[..|w.pcm| % TWO_32])
  }

  lemma PassExtras(data: Data, read: Reader, off: nat, cs: seq<Chunk>, rate: Option<int>)
    requires ReadsFrom(read, data) && AllExtra(cs) && At(data, off, AllBytes(cs))
    ensures PassesOver(read, off, cs, rate) && |AllBytes(cs)| == AllSize(cs)
  {
    ChunksHold(data, off, cs);
    ExtrasPass(data, read, off, cs, rate);
  }

  lemma PassFmt(data: Data, read: Reader, off: nat, w: WAV)
    requires ReadsFrom(read, data) && At(data, off, FmtChunk(w))
    ensures read(off, None) == Next(off + 24, Some(w.sampleRate % TWO_32))
  {
    ChunkHolds(data, off, Chunk(FMT, FmtBody(w.sampleRate), 0));
    ReadFmt(data, read, off, w.sampleRate, None);
  }

  lemma StopAtData(data: Data, read: Reader, off: nat, w: WAV)
    requires ReadsFrom(read, data) && At(data, off, DataChunk(w))
    ensures read(off, Some(w.sampleRate % TWO_32)) == Stop(Ok(Fitted(w)))
  {
    ReadData(data, read, off, w.pcm, w.sampleRate % TWO_32, |w.pcm| % TWO_32);
  }

  /** Extra chunks and then a chunk that settles the result, or leads on to it. */
  lemma SkipTo(read: Reader, len: nat, off: nat, cs: seq<Chunk>, rate: Option<int>, last: nat, result: Parsed)
    requires Advances(read, len) && PassesOver(read, off, cs, rate) && last == off + AllSize(cs)
    requires var s := read(last, rate); if s.Stop? then s.result == result else ParseFrom(read, len, s.off, s.rate) == result
    ensures ParseFrom(read, len, off, rate) == result
  {
    SkipAll(read, len, off, cs, rate);
  }

  lemma ReadsFormat(data: Data, read: Reader, w: WAV, before: seq<Chunk>, first: Data, fmt: Data, rate: Option<int>)
    requires ReadsFrom(read, data) && AllExtra(before) && first == AllBytes(before) && fmt == FmtChunk(w)
    requires At(data, 12, first) && At(data, 12 + |first|, fmt) && rate == Some(w.sampleRate % TWO_32)
    ensures PassesOver(read, 12, before, None) && |first| == AllSize(before)
    ensures read(12 + |first|, None) == Next(36 + |first|, rate)
  {
    PassExtras(data, read, 12, before, None);
    PassFmt(data, read, 12 + |first|, w);
  }

  lemma ReadsSamples(data: Data, read: Reader, off: nat, w: WAV, between: seq<Chunk>, second: Data, samples: Data,
                     rate: Option<int>, result: Parsed)
    requires ReadsFrom(read, data) && AllExtra(between) && second == AllBytes(between) && samples == DataChunk(w)
    requires At(data, off, second) && At(data, off + |second|, samples)
    requires rate == Some(w.sampleRate % TWO_32) && result == Ok(Fitted(w))
    ensures PassesOver(read, off, between, rate) && |second| == AllSize(between)
    ensures read(off + |second|, rate) == Stop(result)
  {
    PassExtras(data, read, off, between, rate);
    StopAtData(data, read, off + |second|, w);
  }

  /** Some reader parses `data` and passes over its first chunks. */
  lemma ReaderOf(data: Data, w: WAV, before: seq<Chunk>, between: seq<Chunk>, first: Data, fmt: Data, second: Data, samples: Data,
                 rate: Option<int>, result: Parsed)
    returns (read: Reader)
    requires |data| >= 12 && data[0..4] == RIFF && data[8..12] == WAVE && AllExtra(before) && AllExtra(between)
    requires first == AllBytes(before) && fmt == FmtChunk(w) && second == AllBytes(between) && samples == DataChunk(w)
    requires At(data, 12, first) && At(data, 12 + |first|, fmt)
    requires At(data, 36 + |first|, second) && At(data, 36 + |first| + |second|, samples)
    requires rate == Some(w.sampleRate % TWO_32) && result == Ok(Fitted(w))
    ensures Advances(read, |data|) && Parse(data) == ParseFrom(read, |data|, 12, None)
    ensures PassesOver(read, 12, before, None) && |first| == AllSize(before)
    ensures read(12 + |first|, None) == Next(36 + |first|, rate)
    ensures PassesOver(read, 36 + |first|, between, rate) && |second| == AllSize(between)
    ensures read(36 + |first| + |second|, rate) == Stop(result)
  {
    read := ParserOf(data);
    ReadsFormat(data, read, w, before, first, fmt, rate);
    ReadsSamples(data, read, 36 + |first|, w, between, second, samples, rate, result);
  }

  lemma ParseShape(read: Reader, len: nat, before: seq<Chunk>, between: seq<Chunk>, a: nat, b: nat, c: nat,
                   rate: Option<int>, result: Parsed)
    requires Advances(read, len) && PassesOver(read, 12, before, None) && a == 12 + AllSize(before)
    requires read(a, None) == Next(b, rate) && PassesOver(read, b, between, rate) && c == b + AllSize(between)
    requires read(c, rate) == Stop(result)
    ensures ParseFrom(read, len, 12, None) == result
  {
    SkipTo(read, len, b, between, rate, c, result);
    SkipTo(read, len, 12, before, None, a, result);
  }

  lemma ParseWhole(data: Data, w: WAV, before: seq<Chunk>, between: seq<Chunk>, first: Data, fmt: Data, second: Data, samples: Data)
    requires |data| >= 12 && data[0..4] == RIFF && data[8..12] == WAVE && AllExtra(before) && AllExtra(between)
    requires first == AllBytes(before) && fmt == FmtChunk(w) && second == AllBytes(between) && samples == DataChunk(w)
    requires At(data, 12, first) && At(data, 12 + |first|, fmt)
    requires At(data, 36 + |first|, second) && At(data, 36 + |first| + |second|, samples)
    ensures Parse(data) == Ok(Fitted(w))
  {
    var rate, result := Some(w.sampleRate % TWO_32), Ok(Fitted(w));
    var read := ReaderOf(data, w, before, between, first, fmt, second, samples, rate, result);
    ParseShape(read, |data|, before, between, 12 + |first|, 36 + |first|, 36 + |first| + |second|, rate, result);
  }

  /** Parsing a file gives the audio back, its rate and length reduced to 32 bits,
      whatever other chunks the file carries. */
  lemma ParseFile(w: WAV, riffSize: Data, before: seq<Chunk>, between: seq<Chunk>, behind: Data)
    requires |riffSize| == 4 && AllExtra(before) && AllExtra(between)
    ensures Parse(File(w, riffSize, before, between, behind)) == Ok(Fitted(w))
  {
    var rest := AllBytes(before) + (FmtChunk(w) + (AllBytes(between) + (DataChunk(w) + behind)));
    var data := RIFF + riffSize + WAVE + rest;
    StartsAsRiff(RIFF, riffSize, WAVE, rest);
    FourParts(data, 12, AllBytes(before), FmtChunk(w), AllBytes(between), DataChunk(w), behind);
    ParseWhole(data, w, before, between, AllBytes(before), FmtChunk(w), AllBytes(between), DataChunk(w));
  }

  lemma ParseEncode(w: WAV)
    ensures Parse(Encode(w)) == Ok(Fitted(w))
  {
    assert Encode(w) == File(w, Put32(36 + |w.pcm|), [], [], []) by {
      Regroup(RIFF, Put32(36 + |w.pcm|), WAVE, FmtChunk(w), DATA, Put32(|w.pcm|), w.pcm);
    }
    ParseFile(w, Put32(36 + |w.pcm|), [], [], []);
  }

  lemma Regroup(a: Data, b: Data, c: Data, d: Data, e: Data, f: Data, g: Data)
    ensures a + b + c + d + e + f + g == a + b + c + ([] + (d + ([] + ((e + f + g) + []))))
  {
  }

  lemma FittedIff(w: WAV)
    ensures Fitted(w) == w <==> 0 <= w.sampleRate < TWO_32 && |w.pcm| < TWO_32
  {
    var n := |w.pcm| % TWO_32;
    assert n <= |w.pcm|;
    if |w.pcm| < TWO_32 { assert n == |w.pcm| && w.pcm[..n] == w.pcm; }
  }

  /** Audio survives being written and read exactly when its rate and its length
      fit in 32 bits. */
  lemma RoundTripIff(w: WAV)
    ensures Parse(Encode(w)) == Ok(w) <==> 0 <= w.sampleRate < TWO_32 && |w.pcm| < TWO_32
  {
    ParseEncode(w);
    FittedIff(w);
  }

  // ---- What a parsed file holds --------------------------------------------

  /** A whole chunk stands at `off`. */
  predicate ChunkFits(data: Data, off: nat) {
    off + 8 <= |data| && off + 8 + Le32(data, off + 4) <= |data|
  }

  function IdAt(data: Data, off: nat): Data {
    if off + 4 <= |data| then data[off..off + 4] else []
  }

  function BodyAt(data: Data, off: nat): Data
    requires ChunkFits(data, off)
  {
    data[off + 8..off + 8 + Le32(data, off + 4)]
  }

  /** Where the chunk after the one at `off` starts. */
  function After(data: Data, off: nat): nat
    requires ChunkFits(data, off)
  {
    off + 8 + Le32(data, off + 4) + Le32(data, off + 4) % 2
  }

  /** The chunk at `off` says 16-bit PCM mono. */
  predicate PcmMono16(data: Data, off: nat)
    requires ChunkFits(data, off)
  {
    Le32(data, off + 4) >= 16 && Le16(data, off + 8) == 1 && Le16(data, off + 10) == 1 && Le16(data, off + 22) == 16
  }

  function RateAt(data: Data, off: nat): int {
    if off + 16 <= |data| then Le32(data, off + 12) else 0
  }

  /** A chunk the parser reads on after. */
  predicate Passable(data: Data, off: nat) {
    ChunkFits(data, off) && IdAt(data, off) != DATA && (IdAt(data, off) == FMT ==> PcmMono16(data, off))
  }

  /** The chunks at `offs` follow each other from the header up to `off`. */
  ghost predicate Chain(data: Data, offs: seq<nat>, off: nat) {
    && (forall k :: 0 <= k < |offs| ==> Passable(data, offs[k]))
    && (forall k :: 0 <= k < |offs| - 1 ==> After(data, offs[k]) == offs[k + 1])
    && (if offs == [] then off == 12 else offs[0] == 12 && off == After(data, offs[|offs| - 1]))
  }

  ghost function FmtAt(data: Data): nat -> bool {
    (off: nat) => IdAt(data, off) == FMT
  }

  /** `offs[f]` is the last of `offs` with `p`. */
  ghost predicate LastWith(p: nat -> bool, offs: seq<nat>, f: nat) {
    f < |offs| && p(offs[f]) && forall k :: f < k < |offs| ==> !p(offs[k])
  }

  ghost function LastOf(p: nat -> bool, offs: seq<nat>): Option<nat> {
    if offs == [] then None
    else if p(offs[|offs| - 1]) then Some(offs[|offs| - 1])
    else LastOf(p, offs[..|offs| - 1])
  }

  lemma {:induction false} LastOfIs(p: nat -> bool, offs: seq<nat>)
    ensures forall f: nat :: LastWith(p, offs, f) ==> LastOf(p, offs) == Some(offs[f])
    ensures LastOf(p, offs).Some? ==> exists f: nat :: LastWith(p, offs, f)
  {
    if offs != [] {
      var init, last := offs[..|offs| - 1], |offs| - 1;
      LastOfIs(p, init);
      if p(offs[last]) {
        assert LastWith(p, offs, last);
      } else {
        forall f: nat ensures LastWith(p, offs, f) <==> LastWith(p, init, f) {
          if LastWith(p, init, f) {
            forall k | f < k < |offs| ensures !p(offs[k]) {
              if k < last { assert init[k] == offs[k]; }
            }
          }
          if LastWith(p, offs, f) {
            forall k | f < k < |init| ensures !p(init[k]) {
              assert init[k] == offs[k];
            }
          }
        }
      }
    }
  }

  /** The sample rate the format chunks of `offs` leave. */
  ghost function LastRate(data: Data, offs: seq<nat>): Option<int> {
    match LastOf(FmtAt(data), offs)
    case None => None
    case Some(off) => Some(RateAt(data, off))
  }

  /** The rate in force after the chunk at `off`. */
  function RateAfter(data: Data, off: nat, rate: Option<int>): Option<int> {
    if IdAt(data, off) == FMT then Some(RateAt(data, off)) else rate
  }

  lemma ReadPassable(data: Data, read: Reader, off: nat, rate: Option<int>)
    requires ReadsFrom(read, data) && Passable(data, off)
    ensures read(off, rate) == Next(After(data, off), RateAfter(data, off, rate))
  {
    assert Look(off, rate);
  }

  lemma ReadStops(data: Data, read: Reader, off: nat, rate: Option<int>, w: WAV)
    requires ReadsFrom(read, data)
    ensures read(off, rate) == Stop(Ok(w)) <==>
            ChunkFits(data, off) && IdAt(data, off) == DATA && rate.Some? && w == WAV(rate.value, BodyAt(data, off))
  {
    assert Look(off, rate);
  }

  lemma ReadGoesOn(data: Data, read: Reader, off: nat, rate: Option<int>)
    requires ReadsFrom(read, data) && read(off, rate).Next?
    ensures Passable(data, off)
  {
    assert Look(off, rate);
  }

  lemma ChainGrows(data: Data, offs: seq<nat>, off: nat)
    requires Chain(data, offs, off) && Passable(data, off)
    ensures Chain(data, offs + [off], After(data, off))
  {
  }

  lemma LastRateGrows(data: Data, offs: seq<nat>, off: nat)
    ensures LastRate(data, offs + [off]) == RateAfter(data, off, LastRate(data, offs))
  {
    assert (offs + [off])[..|offs|] == offs;
    assert FmtAt(data)(off) == (IdAt(data, off) == FMT);
  }

  /** Every chain of passable chunks is what the parser has read. */
  lemma {:induction false} ChainIsRead(data: Data, read: Reader, offs: seq<nat>, off: nat)
    requires ReadsFrom(read, data) && Advances(read, |data|) && Chain(data, offs, off)
    ensures ParseFrom(read, |data|, 12, None) == ParseFrom(read, |data|, off, LastRate(data, offs))
    decreases |offs|
  {
    if offs != [] {
      var init, last := offs[..|offs| - 1], offs[|offs| - 1];
      assert Chain(data, init, last);
      ChainIsRead(data, read, init, last);
      ReadPassable(data, read, last, LastRate(data, init));
      LastRateGrows(data, init, last);
      assert init + [last] == offs;
    }
  }

  /** What the parser has read up to an Ok is a chain of passable chunks. */
  lemma {:induction false} ReadIsChain(data: Data, read: Reader, offs: seq<nat>, off: nat, w: WAV) returns (all: seq<nat>, end: nat)
    requires ReadsFrom(read, data) && Advances(read, |data|) && Chain(data, offs, off)
    requires ParseFrom(read, |data|, off, LastRate(data, offs)) == Ok(w)
    ensures Chain(data, all, end) && ChunkFits(data, end) && IdAt(data, end) == DATA
    ensures LastRate(data, all) == Some(w.sampleRate) && w.pcm == BodyAt(data, end)
    decreases if off < |data| then |data| - off else 0
  {
    var rate := LastRate(data, offs);
    if read(off, rate).Stop? {
      ReadStops(data, read, off, rate, w);
      all, end := offs, off;
    } else {
      ReadGoesOn(data, read, off, rate);
      ReadPassable(data, read, off, rate);
      ChainGrows(data, offs, off);
      LastRateGrows(data, offs, off);
      all, end := ReadIsChain(data, read, offs + [off], After(data, off), w);
    }
  }

  /** `data` is a RIFF/WAVE file whose chunks up to `end` are well-formed, with format
      chunks of 16-bit PCM mono only; the last of them, at `offs[f]`, gives the rate,
      and the data chunk at `end` the samples. */
  ghost predicate IsWave(data: Data, w: WAV, offs: seq<nat>, f: nat, end: nat) {
    && |data| >= 12 && data[0..4] == RIFF && data[8..12] == WAVE
    && Chain(data, offs, end) && LastWith(FmtAt(data), offs, f) && w.sampleRate == RateAt(data, offs[f])
    && ChunkFits(data, end) && IdAt(data, end) == DATA && w.pcm == BodyAt(data, end)
  }

  /** The parser accepts exactly such files, with that rate and those samples. */
  lemma ParseOkIff(data: Data, w: WAV)
    ensures Parse(data) == Ok(w) <==> exists offs, f: nat, end: nat :: IsWave(data, w, offs, f, end)
  {
    if |data| >= 12 && data[0..4] == RIFF && data[8..12] == WAVE {
      var read := ParserOf(data);
      if Parse(data) == Ok(w) {
        var offs, end := ReadIsChain(data, read, [], 12, w);
        LastOfIs(FmtAt(data), offs);
        var f: nat :| LastWith(FmtAt(data), offs, f);
        assert IsWave(data, w, offs, f, end);
      }
      if offs: seq<nat>, f: nat, end: nat :| IsWave(data, w, offs, f, end) {
        ChainIsRead(data, read, offs, end);
        LastOfIs(FmtAt(data), offs);
        ReadStops(data, read, end, LastRate(data, offs), w);
      }
    }
  }

  // ---- Concatenation -------------------------------------------------------

  /** Zero bytes: silence. */
  function Silence(n: nat): (s: Data)
    ensures |s| == n && forall k :: 0 <= k < n ==> s[k] == 0
  {
    seq(n, _ => 0)
  }

  function Seconds(w: WAV): real {
    if w.sampleRate == 0 then 0.0 else (|w.pcm| / 2) as real / w.sampleRate as real
  }

  /** The first `n` clips, `gap` bytes of silence between them. */
  ghost function Joined(clips: seq<WAV>, gap: nat, n: nat): Data
    requires n <= |clips|
  {
    if n == 0 then []
    else Joined(clips, gap, n - 1) + Silence(if n > 1 then gap else 0) + clips[n - 1].pcm
  }

  /** Where clip `i` begins in the joined bytes. */
  ghost function Offset(clips: seq<WAV>, gap: nat, i: nat): nat
    requires i < |clips|
  {
    |Joined(clips, gap, i)| + if i > 0 then gap else 0
  }

  datatype Concat = Concatenated(wav: WAV, starts: seq<real>) | NoClips | WrongRate(clip: nat)

  /** Joins clips of one rate with a gap of `gapSamples` samples and reports where
      each starts, in seconds. */
  method ConcatWAV(clips: seq<WAV>, gapSamples: nat) returns (r: Concat)
    ensures r.NoClips? <==> clips == []
    ensures r.WrongRate? ==> r.clip < |clips| && clips[r.clip].sampleRate != clips[0].sampleRate
    ensures r.Concatenated? <==> clips != [] && forall c :: c in clips ==> c.sampleRate == clips[0].sampleRate
    ensures r.Concatenated? ==>
              && r.wav == WAV(clips[0].sampleRate, Joined(clips, 2 * gapSamples, |clips|))
              && |r.starts| == |clips|
              && forall i :: 0 <= i < |clips| ==>
                   Offset(clips, 2 * gapSamples, i) <= |r.wav.pcm| &&
                   r.starts[i] == Seconds(WAV(clips[0].sampleRate, r.wav.pcm[..Offset(clips, 2 * gapSamples, i)]))
  {
    if |clips| == 0 { return NoClips; }
    var rate := clips[0].sampleRate;
    var gap := Silence(2 * gapSamples);
    var out := WAV(rate, []);
    var starts: seq<real> := [];
    for i := 0 to |clips|
      invariant forall j :: 0 <= j < i ==> clips[j].sampleRate == rate
      invariant out == WAV(rate, Joined(clips, |gap|, i)) && |starts| == i
      invariant forall j :: 0 <= j < i ==> Offset(clips, |gap|, j) <= |out.pcm|
      invariant forall j :: 0 <= j < i ==> starts[j] == Seconds(WAV(rate, out.pcm[..Offset(clips, |gap|, j)]))
    {
      var c := clips[i];
      if c.sampleRate != rate { return WrongRate(i); }
      ghost var was := out.pcm;
      if i > 0 {
        out := out.(pcm := out.pcm + gap);
      } else {
        assert out.pcm + Silence(0) == out.pcm;
      }
      starts := starts + [Seconds(out)];
      out := out.(pcm := out.pcm + c.pcm);
      assert forall j :: 0 <= j < i ==> out.pcm[..Offset(clips, |gap|, j)] == was[..Offset(clips, |gap|, j)];
      assert out.pcm[..Offset(clips, |gap|, i)] + c.pcm == out.pcm;
    }
    assert forall c :: c in clips ==> c.sampleRate == rate;
    return Concatenated(out, starts);
  }

  lemma {:induction false} JoinedExtends(clips: seq<WAV>, gap: nat, i: nat, n: nat)
    requires i <= n <= |clips|
    ensures |Joined(clips, gap, i)| <= |Joined(clips, gap, n)|
    ensures Joined(clips, gap, n)[..|Joined(clips, gap, i)|] == Joined(clips, gap, i)
  {
    if i < n { JoinedExtends(clips, gap, i, n - 1); }
  }

  /** The last of three parts, in anything that begins with them, and the middle
      one. */
  lemma PartsOfPrefix(all: Data, a: Data, b: Data, c: Data)
    requires a + b + c <= all
    ensures At(all, |a|, b) && At(all, |a| + |b|, c)
  {
    var here := a + b + c;
    assert forall k :: 0 <= k < |b| ==> b[k] == here[|a| + k] == all[|a| + k];
    assert forall k :: 0 <= k < |c| ==> c[k] == here[|a| + |b| + k] == all[|a| + |b| + k];
  }

  lemma JoinedStep(clips: seq<WAV>, gap: nat, i: nat)
    requires i < |clips|
    ensures Joined(clips, gap, i + 1) == Joined(clips, gap, i) + Silence(if i > 0 then gap else 0) + clips[i].pcm
    ensures |Joined(clips, gap, i + 1)| == Offset(clips, gap, i) + |clips[i].pcm|
  {
  }

  /** Every clip is found whole at its offset, after its gap of silence. */
  lemma ClipSitsAtItsOffset(clips: seq<WAV>, gap: nat, i: nat)
    requires i < |clips|
    ensures At(Joined(clips, gap, |clips|), Offset(clips, gap, i), clips[i].pcm)
    ensures i > 0 ==> At(Joined(clips, gap, |clips|), Offset(clips, gap, i) - gap, Silence(gap))
    ensures i > 0 ==> Offset(clips, gap, i) == Offset(clips, gap, i - 1) + |clips[i - 1].pcm| + gap
  {
    JoinedStep(clips, gap, i);
    JoinedExtends(clips, gap, i + 1, |clips|);
    PartsOfPrefix(Joined(clips, gap, |clips|), Joined(clips, gap, i), Silence(if i > 0 then gap else 0), clips[i].pcm);
    if i > 0 { JoinedStep(clips, gap, i - 1); }
  }

  /** A reported start is the exact place of its clip exactly when a whole number of
      samples comes before it. */
  lemma StartIsExactIff(rate: int, before: Data)
    requires rate > 0
    ensures Seconds(WAV(rate, before)) * rate as real * 2.0 == |before| as real <==> |before| % 2 == 0
  {
    var samples := |before| / 2;
    assert samples as real / rate as real * rate as real == samples as real;
    assert |before| == 2 * samples + |before| % 2;
  }

  /** The clips up to the `i`th all start on a whole sample exactly when the clips
      before it hold whole samples. */
  lemma {:induction false} OffsetsEvenIff(clips: seq<WAV>, gapSamples: nat, i: nat)
    requires i < |clips|
    ensures (forall k :: 0 <= k <= i ==> Offset(clips, 2 * gapSamples, k) % 2 == 0)
            <==> forall j :: 0 <= j < i ==> |clips[j].pcm| % 2 == 0
  {
    if i > 0 {
      OffsetsEvenIff(clips, gapSamples, i - 1);
      ClipSitsAtItsOffset(clips, 2 * gapSamples, i);
      EvenSum(Offset(clips, 2 * gapSamples, i - 1), |clips[i - 1].pcm|, gapSamples);
    }
  }

  lemma EvenSum(a: nat, b: nat, half: nat)
    ensures a % 2 == 0 ==> ((a + b + 2 * half) % 2 == 0 <==> b % 2 == 0)
  {
  }

  /** The seconds before byte `off` of `all`, taken back to bytes, are `off`. */
  ghost predicate StartExact(all: Data, rate: int, off: nat) {
    off <= |all| && Seconds(WAV(rate, all[..off])) * rate as real * 2.0 == off as real
  }

  lemma StartExactIff(all: Data, rate: int, off: nat)
    requires rate > 0 && off <= |all|
    ensures StartExact(all, rate, off) <==> off % 2 == 0
  {
    StartIsExactIff(rate, all[..off]);
  }

  lemma OffsetInside(clips: seq<WAV>, gap: nat, all: Data, k: nat)
    requires k < |clips| && all == Joined(clips, gap, |clips|)
    ensures Offset(clips, gap, k) <= |all|
  {
    ClipSitsAtItsOffset(clips, gap, k);
  }

  /** The reported starts of the clips up to the `i`th are all exact exactly when the
      clips before it hold whole samples. */
  lemma {:induction false} StartsExactIff(clips: seq<WAV>, gapSamples: nat, all: Data, i: nat, rate: int)
    requires i < |clips| && rate > 0 && all == Joined(clips, 2 * gapSamples, |clips|)
    ensures (forall k :: 0 <= k <= i ==> StartExact(all, rate, Offset(clips, 2 * gapSamples, k)))
            <==> forall j :: 0 <= j < i ==> |clips[j].pcm| % 2 == 0
  {
    OffsetsEvenIff(clips, gapSamples, i);
    forall k | 0 <= k <= i
      ensures StartExact(all, rate, Offset(clips, 2 * gapSamples, k)) <==> Offset(clips, 2 * gapSamples, k) % 2 == 0
    {
      OffsetInside(clips, 2 * gapSamples, all, k);
      StartExactIff(all, rate, Offset(clips, 2 * gapSamples, k));
    }
  }
}
