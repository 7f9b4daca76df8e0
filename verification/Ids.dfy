/** Record ids: a monotone generator and its fixed-width Crockford base32 text. */
module Ids {
  import opened Model
  import opened TextOrder

  /** The runs of the Crockford alphabet, split where I, L, O and U are left out. */
  const ALPHABET: string := "0123456789" + "ABCDEFGH" + "JK" + "MN" + "PQRST" + "VWXYZ"
  const ID_CHARS: nat := 26
  const TWO_48: nat := 0x1_0000_0000_0000
  const TWO_80: nat := 0x1_0000_0000_0000_0000_0000
  const TWO_128: nat := 0x1_0000_0000_0000_0000_0000_0000_0000_0000

  // ---------------------------------------------------------------- digits

  /** Arithmetic form of the alphabet, which skips I, L, O and U. */
  function DigitChar(d: nat): char
    requires d < 32
  {
    if d < 10 then '0' + d as char
    else if d < 18 then 'A' + (d - 10) as char
    else if d < 20 then 'J' + (d - 18) as char
    else if d < 22 then 'M' + (d - 20) as char
    else if d < 27 then 'P' + (d - 22) as char
    else 'V' + (d - 27) as char
  }

  lemma AlphabetIsDigitChar(d: nat)
    requires d < 32
    ensures |ALPHABET| == 32 && ALPHABET[d] == DigitChar(d)
  {
    if d < 10 {
      DigitsRun(d);
    } else if d < 18 {
      LettersRun(d - 10);
    }
  }

  lemma DigitsRun(d: nat)
    requires d < 10
    ensures "0123456789"[d] == '0' + d as char
  {
  }

  lemma LettersRun(d: nat)
    requires d < 8
    ensures "ABCDEFGH"[d] == 'A' + d as char
  {
  }

  /** First position of a character in the alphabet from `i` on. */
  function PositionFrom(c: char, i: nat): (r: Option<nat>)
    requires i <= |ALPHABET|
    ensures r.Some? ==> i <= r.value < |ALPHABET| && ALPHABET[r.value] == c
    ensures r.None? ==> forall j :: i <= j < |ALPHABET| ==> ALPHABET[j] != c
    decreases |ALPHABET| - i
  {
    if i == |ALPHABET| then None else if ALPHABET[i] == c then Some(i) else PositionFrom(c, i + 1)
  }

  function Position(c: char): Option<nat> { PositionFrom(c, 0) }

  lemma PositionOfDigit(d: nat)
    requires d < 32
    ensures |ALPHABET| == 32 && Position(ALPHABET[d]) == Some(d)
  {
    AlphabetIsDigitChar(d);
    var r := Position(ALPHABET[d]);
    assert r.Some?;
    AlphabetIsDigitChar(r.value);
  }

  // ---------------------------------------------------------------- encoding

  function Pow32(n: nat): nat { if n == 0 then 1 else 32 * Pow32(n - 1) }

  /** The last `n` base-32 digits of `v`, most significant first. */
  function EncodeDigits(v: nat, n: nat): (s: string)
    ensures |s| == n
  {
    if n == 0 then [] else
      AlphabetIsDigitChar(v % 32);
      EncodeDigits(v / 32, n - 1) + [ALPHABET[v % 32]]
  }

  function Encode(v: nat): string { EncodeDigits(v, ID_CHARS) }

  /** The digits of a text folded into 128 bits: shifting left drops what leaves the top. */
  function DecodeDigits(s: string): Option<nat> {
    if s == [] then Some(0)
    else
      var init, d := DecodeDigits(s[..|s| - 1]), Position(s[|s| - 1]);
      if init.Some? && d.Some? then Some(init.value * 32 % TWO_128 + d.value) else None
  }

  predicate IsIdText(s: string) { |s| == ID_CHARS && forall i :: 0 <= i < |s| ==> s[i] in ALPHABET }

  lemma HigherDigits(v: nat, n: nat)
    requires n > 0 && v < Pow32(n)
    ensures v / 32 < Pow32(n - 1)
  {
  }

  /** The text of a number: its higher digits, then its last one. */
  lemma LastDigit(v: nat, n: nat)
    requires n > 0
    ensures EncodeDigits(v, n) == EncodeDigits(v / 32, n - 1) + [DigitChar(v % 32)]
  {
    AlphabetIsDigitChar(v % 32);
  }

  lemma {:induction false} DecodeEncodeDigits(v: nat, n: nat)
    requires v < Pow32(n) && v < TWO_128
    ensures DecodeDigits(EncodeDigits(v, n)) == Some(v)
  {
    if n > 0 {
      var head, last := EncodeDigits(v / 32, n - 1), DigitChar(v % 32);
      HigherDigits(v, n);
      DecodeEncodeDigits(v / 32, n - 1);
      LastDigit(v, n);
      PositionOfDigit(v % 32);
      AlphabetIsDigitChar(v % 32);
      assert (head + [last])[..n - 1] == head && (head + [last])[n - 1] == last;
      assert v / 32 * 32 % TWO_128 == v / 32 * 32;
    }
  }

  lemma DigitsInOrder(x: nat, y: nat)
    requires x < 32 && y < 32
    ensures DigitChar(x) < DigitChar(y) <==> x < y
    ensures DigitChar(x) == DigitChar(y) <==> x == y
  {
  }

  lemma Pow32OfWidth()
    ensures Pow32(ID_CHARS) == 4 * TWO_128
  {
    assert Pow32(4) == 0x10_0000;
    assert Pow32(8) == 0x100_0000_0000;
    assert Pow32(12) == 0x1000_0000_0000_0000;
    assert Pow32(16) == TWO_80;
    assert Pow32(20) == 0x10_0000_0000_0000_0000_0000_0000;
    assert Pow32(24) == 0x100_0000_0000_0000_0000_0000_0000_0000;
  }

  /** Every 128-bit value survives the round trip through its text. */
  lemma DecodeEncode(v: nat)
    requires v < TWO_128
    ensures DecodeDigits(Encode(v)) == Some(v) && IsIdText(Encode(v))
  {
    Pow32OfWidth();
    DecodeEncodeDigits(v, ID_CHARS);
    EncodeUsesAlphabet(v, ID_CHARS);
  }

  lemma {:induction false} EncodeUsesAlphabet(v: nat, n: nat)
    ensures forall i :: 0 <= i < n ==> EncodeDigits(v, n)[i] in ALPHABET
  {
    if n > 0 {
      AlphabetIsDigitChar(v % 32);
      EncodeUsesAlphabet(v / 32, n - 1);
    }
  }

  /** Text order is numeric order, which is what lets `MAX(id)` and the keyset pages compare text. */
  lemma {:induction false} EncodeOrderDigits(a: nat, b: nat, n: nat)
    requires a < Pow32(n) && b < Pow32(n)
    ensures LexLess(EncodeDigits(a, n), EncodeDigits(b, n)) <==> a < b
    ensures EncodeDigits(a, n) == EncodeDigits(b, n) <==> a == b
  {
    if n > 0 {
      HigherDigits(a, n);
      HigherDigits(b, n);
      EncodeOrderDigits(a / 32, b / 32, n - 1);
      var s, t := EncodeDigits(a / 32, n - 1), EncodeDigits(b / 32, n - 1);
      var x, y := DigitChar(a % 32), DigitChar(b % 32);
      LastDigit(a, n);
      LastDigit(b, n);
      DigitsInOrder(a % 32, b % 32);
      LexSnoc(s, x, t, y);
      assert (s + [x])[..n - 1] == s && (t + [y])[..n - 1] == t;
      assert (s + [x])[n - 1] == x && (t + [y])[n - 1] == y;
    }
  }

  lemma EncodeOrder(a: nat, b: nat)
    requires a < TWO_128 && b < TWO_128
    ensures LexLess(Encode(a), Encode(b)) <==> a < b
    ensures Encode(a) == Encode(b) <==> a == b
  {
    Pow32OfWidth();
    EncodeOrderDigits(a, b, ID_CHARS);
  }

  // ---------------------------------------------------------------- the loops of the source

  method EncodeText(value: nat) returns (text: string)
    requires value < TWO_128
    ensures text == Encode(value)
  {
    var buffer := new char[ID_CHARS](_ => '0');
    var remaining, i := value, ID_CHARS;
    while i > 0
      invariant 0 <= i <= ID_CHARS
      invariant Encode(value) == EncodeDigits(remaining, i) + buffer[i..]
    {
      AlphabetIsDigitChar(remaining % 32);
      ghost var tail := buffer[i..];
      i := i - 1;
      buffer[i] := ALPHABET[remaining % 32];
      assert buffer[i..] == [ALPHABET[remaining % 32]] + tail;
      remaining := remaining / 32;
    }
    assert buffer[0..] == buffer[..];
    text := buffer[..];
  }

  method DecodeText(text: string) returns (value: Option<nat>)
    ensures value == DecodeDigits(text)
  {
    var v, i := 0, 0;
    while i < |text|
      invariant 0 <= i <= |text|
      invariant DecodeDigits(text[..i]) == Some(v)
    {
      assert text[..i + 1][..i] == text[..i];
      var d := Position(text[i]);
      if d.None? {
        DecodeStops(text, i + 1);
        return None;
      }
      v := v * 32 % TWO_128 + d.value;
      i := i + 1;
    }
    assert text[..i] == text;
    value := Some(v);
  }

  lemma {:induction false} DecodeStops(text: string, i: nat)
    requires i <= |text| && DecodeDigits(text[..i]).None?
    ensures DecodeDigits(text).None?
    decreases |text| - i
  {
    if i == |text| {
      assert text[..i] == text;
    } else {
      assert text[..i + 1][..i] == text[..i];
      DecodeStops(text, i + 1);
    }
  }

  // ---------------------------------------------------------------- the generator

  datatype Gen = Gen(lastMs: nat, sequence: nat)

  predicate ValidGen(g: Gen) { g.lastMs < TWO_48 && g.sequence < TWO_80 }

  /** The 128-bit id a generator state stands for. */
  function GenValue(g: Gen): nat { g.lastMs * TWO_80 + g.sequence }

  /** The timestamp the next id carries: never before the last one, kept to 48 bits. */
  function NextStamp(g: Gen, nowMs: nat): nat { (if nowMs >= g.lastMs then nowMs else g.lastMs) % TWO_48 }

  function Next(g: Gen, nowMs: nat): Gen {
    var stamp := NextStamp(g, nowMs);
    if stamp == g.lastMs then g.(sequence := (g.sequence + 1) % TWO_80) else Gen(stamp, 0)
  }

  function ResumeAfter(g: Gen, value: nat): Gen {
    var stamp, sequence := value / TWO_80, value % TWO_80;
    if stamp > g.lastMs || (stamp == g.lastMs && sequence >= g.sequence) then Gen(stamp, sequence) else g
  }

  /** The id grows exactly when the clock does not overflow its 48 bits onto an earlier stamp and
      the 80-bit sequence is not exhausted. */
  lemma NextIncreasesExactly(g: Gen, nowMs: nat)
    requires ValidGen(g)
    ensures ValidGen(Next(g, nowMs))
    ensures GenValue(Next(g, nowMs)) > GenValue(g) <==>
            !(nowMs >= TWO_48 && nowMs % TWO_48 < g.lastMs)
            && !(NextStamp(g, nowMs) == g.lastMs && g.sequence == TWO_80 - 1)
  {
    var stamp := NextStamp(g, nowMs);
    if nowMs < TWO_48 {
      assert stamp >= g.lastMs;
    } else {
      assert stamp == nowMs % TWO_48;
    }
  }

  /** An id carries the time it was taken, or the latest time before it if the clock went back, in
      its upper 48 bits, and counts within that millisecond in its lower 80. */
  lemma IdCarriesTime(g: Gen, nowMs: nat)
    requires ValidGen(g)
    ensures var id, latest := GenValue(Next(g, nowMs)), if nowMs < g.lastMs then g.lastMs else nowMs;
            && id / 0x1_0000_0000_0000_0000_0000 == latest % 0x1_0000_0000_0000
            && id % 0x1_0000_0000_0000_0000_0000
               == if latest % 0x1_0000_0000_0000 == g.lastMs then (g.sequence + 1) % 0x1_0000_0000_0000_0000_0000 else 0
  {
    var h := Next(g, nowMs);
    assert GenValue(h) == h.lastMs * TWO_80 + h.sequence && h.sequence < TWO_80;
  }

  /** Resuming lands on the larger of the two ids. */
  lemma ResumeIsMax(g: Gen, value: nat)
    requires ValidGen(g) && value < TWO_128
    ensures ValidGen(ResumeAfter(g, value))
    ensures GenValue(ResumeAfter(g, value)) == if value >= GenValue(g) then value else GenValue(g)
  {
    var stamp, sequence := value / TWO_80, value % TWO_80;
    assert value == stamp * TWO_80 + sequence;
    assert stamp < TWO_48;
  }

  lemma NextValid(g: Gen, nowMs: nat)
    requires ValidGen(g)
    ensures ValidGen(Next(g, nowMs))
  {
  }

  lemma ValueFits(g: Gen)
    requires ValidGen(g)
    ensures GenValue(g) < TWO_128
  {
  }

  class RecordIdGenerator {
    var lastMs: nat
    var sequence: nat

    ghost function Abs(): Gen
      reads this
    {
      Gen(lastMs, sequence)
    }

    constructor ()
      ensures Abs() == Gen(0, 0)
    {
      lastMs, sequence := 0, 0;
    }

    method NextId(nowMs: nat) returns (id: string)
      requires ValidGen(Abs())
      modifies this
      ensures Abs() == Next(old(Abs()), nowMs) && ValidGen(Abs())
      ensures id == Encode(GenValue(Abs()))
    {
      NextValid(Abs(), nowMs);
      var stamp := (if nowMs >= lastMs then nowMs else lastMs) % TWO_48;
      if stamp == lastMs {
        sequence := (sequence + 1) % TWO_80;
      } else {
        lastMs := stamp;
        sequence := 0;
      }
      ValueFits(Abs());
      id := EncodeText(stamp * TWO_80 + sequence);
    }

    method Resume(id: string)
      modifies this
      ensures Abs() == if DecodeDigits(id).Some? then ResumeAfter(old(Abs()), DecodeDigits(id).value) else old(Abs())
    {
      var value := DecodeText(id);
      if value.Some? {
        var stamp, seq_ := value.value / TWO_80, value.value % TWO_80;
        if stamp > lastMs || (stamp == lastMs && seq_ >= sequence) {
          lastMs, sequence := stamp, seq_;
        }
      }
    }
  }
}
