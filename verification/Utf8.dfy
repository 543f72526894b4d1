/** Reading and writing UTF-8 the way Go's strings do: a byte that starts no valid
    sequence decodes as U+FFFD and is one byte wide. */
module Utf8 {
  import opened Bytes

  type Text = seq<byte>

  const REPLACEMENT := 0xFFFD

  predicate Continuation(b: byte) { 0x80 <= b < 0xC0 }

  /** How many bytes a sequence starting with `b` has; 0 when none starts with it. */
  function Need(b: byte): nat {
    if b < 0x80 then 1 else if 0xC2 <= b < 0xE0 then 2 else if 0xE0 <= b < 0xF0 then 3 else if 0xF0 <= b < 0xF5 then 4 else 0
  }

  /** Which second bytes may follow `b`: no overlong forms, no surrogates, nothing
      above U+10FFFF. */
  predicate SecondOk(b: byte, second: byte) {
    && Continuation(second)
    && (b == 0xE0 ==> second >= 0xA0) && (b == 0xED ==> second < 0xA0)
    && (b == 0xF0 ==> second >= 0x90) && (b == 0xF4 ==> second < 0x90)
  }

  /** A valid sequence stands at the start of `t`. */
  predicate ValidFirst(t: Text)
    requires t != []
  {
    var n := Need(t[0]);
    && 0 < n <= |t|
    && (n >= 2 ==> SecondOk(t[0], t[1]))
    && (n >= 3 ==> Continuation(t[2]))
    && (n >= 4 ==> Continuation(t[3]))
  }

  function Width(t: Text): (w: nat)
    requires t != []
    ensures 0 < w <= |t|
  {
    if ValidFirst(t) then Need(t[0]) else 1
  }

  function First(t: Text): int
    requires t != []
  {
    if !ValidFirst(t) then REPLACEMENT
    else if Need(t[0]) == 1 then t[0]
    else if Need(t[0]) == 2 then (t[0] as int - 0xC0) * 0x40 + (t[1] as int - 0x80)
    else if Need(t[0]) == 3 then (t[0] as int - 0xE0) * 0x1000 + (t[1] as int - 0x80) * 0x40 + (t[2] as int - 0x80)
    else (t[0] as int - 0xF0) * 0x4_0000 + (t[1] as int - 0x80) * 0x1000 + (t[2] as int - 0x80) * 0x40 + (t[3] as int - 0x80)
  }

  /** The runes a loop over `t` sees. */
  function Runes(t: Text): seq<int> {
    if t == [] then [] else [First(t)] + Runes(t[Width(t)..])
  }

  function RuneCount(t: Text): nat { |Runes(t)| }

  ghost predicate Valid(t: Text) {
    t != [] ==> ValidFirst(t) && Valid(t[Width(t)..])
  }

  // ---- Where text can be cut -----------------------------------------------

  /** No sequence can run across the cut between `a` and `b`. */
  predicate CleanCut(a: Text, b: Text) {
    a == [] || b == [] || a[|a| - 1] < 0x80 || !Continuation(b[0])
  }

  lemma FirstBeforeCut(a: Text, b: Text)
    requires a != [] && CleanCut(a, b)
    ensures ValidFirst(a + b) == ValidFirst(a)
    ensures First(a + b) == First(a) && Width(a + b) == Width(a)
  {
    var t := a + b;
    var n := Need(a[0]);
    if b != [] && n > |a| {
      assert t[|a|] == b[0] && t[|a| - 1] == a[|a| - 1];
    }
  }

  /** Text is decoded piece by piece at a clean cut. */
  lemma {:induction false} RunesConcat(a: Text, b: Text)
    requires CleanCut(a, b)
    ensures Runes(a + b) == Runes(a) + Runes(b)
    decreases |a|
  {
    if a == [] {
      assert a + b == b;
    } else {
      FirstBeforeCut(a, b);
      var w := Width(a);
      assert (a + b)[w..] == a[w..] + b;
      RunesConcat(a[w..], b);
    }
  }

  /** A byte of ASCII is a rune of its own. */
  lemma RunesOfAscii(x: byte)
    requires x < 0x80
    ensures Runes([x]) == [x as int]
  {
    var t := [x];
    assert Need(t[0]) == 1 && Width(t) == 1 && First(t) == x as int;
    assert t[1..] == [];
  }

  lemma RunesEndInAscii(init: Text, last: byte)
    requires last < 0x80
    ensures Runes(init + [last]) == Runes(init) + [last as int]
  {
    RunesConcat(init, [last]);
    RunesOfAscii(last);
  }

  // ---- Encoding ------------------------------------------------------------

  function EncodeRune(r: int): Text {
    if r < 0 || 0xD800 <= r < 0xE000 || r > 0x10FFFF then [0xEF, 0xBF, 0xBD]
    else if r < 0x80 then [r]
    else if r < 0x800 then [0xC0 + r / 0x40, 0x80 + r % 0x40]
    else if r < 0x1_0000 then [0xE0 + r / 0x1000, 0x80 + r / 0x40 % 0x40, 0x80 + r % 0x40]
    else [0xF0 + r / 0x4_0000, 0x80 + r / 0x1000 % 0x40, 0x80 + r / 0x40 % 0x40, 0x80 + r % 0x40]
  }

  function EncodeRunes(runes: seq<int>): Text {
    if runes == [] then [] else EncodeRune(runes[0]) + EncodeRunes(runes[1..])
  }

  lemma {:induction false} EncodeConcat(a: seq<int>, b: seq<int>)
    ensures EncodeRunes(a + b) == EncodeRunes(a) + EncodeRunes(b)
  {
    if a == [] {
      assert a + b == b;
    } else {
      assert (a + b)[1..] == a[1..] + b;
      EncodeConcat(a[1..], b);
    }
  }

  lemma Digits(a: int, b: int)
    requires 0 <= b < 0x40
    ensures (a * 0x40 + b) / 0x40 == a && (a * 0x40 + b) % 0x40 == b
  {
  }

  lemma Shift(r: int)
    ensures r / 0x1000 == r / 0x40 / 0x40 && r / 0x4_0000 == r / 0x1000 / 0x40
  {
  }

  lemma EncodeTwo(b: int, c: int)
    requires 0x02 <= b < 0x20 && 0 <= c < 0x40
    ensures EncodeRune(b * 0x40 + c) == [0xC0 + b, 0x80 + c]
  {
    Digits(b, c);
  }

  lemma EncodeThree(b: int, c: int, d: int)
    requires 0 <= b < 0x10 && 0 <= c < 0x40 && 0 <= d < 0x40
    requires (b == 0 ==> c >= 0x20) && (b == 0xD ==> c < 0x20)
    ensures EncodeRune(b * 0x1000 + c * 0x40 + d) == [0xE0 + b, 0x80 + c, 0x80 + d]
  {
    var r := b * 0x1000 + c * 0x40 + d;
    Digits(b * 0x40 + c, d);
    Digits(b, c);
    Shift(r);
  }

  lemma EncodeFour(b: int, c: int, d: int, e: int)
    requires 0 <= b < 5 && 0 <= c < 0x40 && 0 <= d < 0x40 && 0 <= e < 0x40
    requires (b == 0 ==> c >= 0x10) && (b == 4 ==> c < 0x10)
    ensures EncodeRune(b * 0x4_0000 + c * 0x1000 + d * 0x40 + e) == [0xF0 + b, 0x80 + c, 0x80 + d, 0x80 + e]
  {
    var r := b * 0x4_0000 + c * 0x1000 + d * 0x40 + e;
    Digits(b * 0x1000 + c * 0x40 + d, e);
    Digits(b * 0x40 + c, d);
    Digits(b, c);
    Shift(r);
  }

  lemma EncodeFirst(t: Text)
    requires t != []
    ensures ValidFirst(t) ==> EncodeRune(First(t)) == t[..Width(t)]
    ensures !ValidFirst(t) ==> |EncodeRune(First(t))| == Width(t) + 2
  {
    if ValidFirst(t) {
      if Need(t[0]) == 2 { EncodeTwo(t[0] - 0xC0, t[1] - 0x80); }
      if Need(t[0]) == 3 { EncodeThree(t[0] - 0xE0, t[1] - 0x80, t[2] - 0x80); }
      if Need(t[0]) == 4 { EncodeFour(t[0] - 0xF0, t[1] - 0x80, t[2] - 0x80, t[3] - 0x80); }
    }
  }

  lemma EncodeStep(t: Text)
    requires t != []
    ensures EncodeRunes(Runes(t)) == EncodeRune(First(t)) + EncodeRunes(Runes(t[Width(t)..]))
  {
    assert Runes(t)[1..] == Runes(t[Width(t)..]);
  }

  lemma ValidStep(t: Text) returns (w: nat)
    requires t != [] && Valid(t)
    ensures 0 < w <= |t| && Valid(t[w..])
    ensures EncodeRunes(Runes(t)) == t[..w] + EncodeRunes(Runes(t[w..]))
  {
    w := Width(t);
    EncodeStep(t);
    EncodeFirst(t);
  }

  /** `g` keeps some first piece of `t`, and the rest of it is ok. */
  ghost predicate KeepsAPiece(g: Text -> Text, ok: Text -> bool, t: Text) {
    exists w: nat :: 0 < w <= |t| && ok(t[w..]) && g(t) == t[..w] + g(t[w..])
  }

  lemma {:induction false} KeptInPieces(g: Text -> Text, ok: Text -> bool, t: Text)
    requires ok(t) && g([]) == []
    requires forall t {:trigger KeepsAPiece(g, ok, t)} :: t != [] && ok(t) ==> KeepsAPiece(g, ok, t)
    ensures g(t) == t
    decreases |t|
  {
    if t != [] {
      assert KeepsAPiece(g, ok, t);
      var w: nat :| 0 < w <= |t| && ok(t[w..]) && g(t) == t[..w] + g(t[w..]);
      KeptInPieces(g, ok, t[w..]);
      assert t == t[..w] + t[w..];
    }
  }

  lemma EncodeValid(t: Text)
    requires Valid(t)
    ensures EncodeRunes(Runes(t)) == t
  {
    var g: Text -> Text := (t: Text) => EncodeRunes(Runes(t));
    ghost var ok: Text -> bool := (t: Text) => Valid(t);
    forall t: Text | t != [] && ok(t) ensures KeepsAPiece(g, ok, t) {
      var w := ValidStep(t);
      assert ok(t[w..]) && g(t) == t[..w] + g(t[w..]);
    }
    KeptInPieces(g, ok, t);
  }

  /** Every byte that starts no sequence makes the text two bytes longer. */
  lemma {:induction false} EncodeGrows(t: Text)
    ensures |EncodeRunes(Runes(t))| >= |t| + if Valid(t) then 0 else 2
  {
    if t != [] {
      EncodeStep(t);
      EncodeFirst(t);
      EncodeGrows(t[Width(t)..]);
    }
  }

  /** Converting text to runes and back gives it unchanged exactly when it is valid
      UTF-8. */
  lemma RoundTripIff(t: Text)
    ensures EncodeRunes(Runes(t)) == t <==> Valid(t)
  {
    EncodeGrows(t);
    if Valid(t) { EncodeValid(t); }
  }
}
