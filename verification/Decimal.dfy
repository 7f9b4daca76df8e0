/** Decimal text of 64-bit integers. */
module Decimal {
  import opened Model

  predicate IsDigit(c: char) { '0' <= c <= '9' }

  function DigitOf(d: nat): char
    requires d < 10
  {
    '0' + d as char
  }

  function Digits(n: nat): string { if n < 10 then [DigitOf(n)] else Digits(n / 10) + [DigitOf(n % 10)] }

  function Show(v: int): string { if v < 0 then ['-'] + Digits(-v) else Digits(v) }

  /** The value of a run of digits, or nothing if another character is among them. */
  function Value(s: string): Option<nat> {
    if s == [] then Some(0)
    else
      var init, c := Value(s[..|s| - 1]), s[|s| - 1];
      if init.Some? && IsDigit(c) then Some(10 * init.value + (c - '0') as nat) else None
  }

  /** `str::parse::<i64>`: an optional sign, at least one digit, nothing else, and in range. */
  function ParseI64(s: string): Option<int> {
    var signed := s != [] && (s[0] == '-' || s[0] == '+');
    var body := if signed then s[1..] else s;
    var magnitude := Value(body);
    if body == [] || magnitude.None? then None
    else
      var v := (if signed && s[0] == '-' then -1 else 1) * magnitude.value;
      if I64_MIN <= v <= I64_MAX then Some(v) else None
  }

  lemma {:induction false} DigitsValue(n: nat)
    ensures Digits(n) != [] && Value(Digits(n)) == Some(n)
    ensures forall i :: 0 <= i < |Digits(n)| ==> IsDigit(Digits(n)[i])
  {
    if n >= 10 {
      DigitsValue(n / 10);
      assert Digits(n)[..|Digits(n)| - 1] == Digits(n / 10);
    } else {
      assert Digits(n)[..0] == [];
    }
  }

  /** Printing and parsing: every 64-bit integer survives, and nothing else does. */
  lemma ParseShow(v: int)
    ensures ParseI64(Show(v)) == if I64_MIN <= v <= I64_MAX then Some(v) else None
  {
    DigitsValue(if v < 0 then -v else v);
    if v < 0 {
      assert Show(v)[1..] == Digits(-v);
    } else {
      assert IsDigit(Show(v)[0]);
    }
  }

  lemma ShowCharacters(v: int, i: nat)
    requires i < |Show(v)|
    ensures Show(v)[i] == '-' || IsDigit(Show(v)[i])
  {
    DigitsValue(if v < 0 then -v else v);
  }
}
