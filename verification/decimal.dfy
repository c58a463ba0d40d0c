/** Decimal printing and parsing of 64-bit integers, as strconv.FormatInt, ParseInt(·, 10, 64) and
    Atoi do it: an optional sign, at least one digit, and an error outside the 64-bit range. */
module Decimal {
  import opened Options

  const MAX64 := 0x7FFF_FFFF_FFFF_FFFF
  const MIN64 := -0x8000_0000_0000_0000

  predicate Fits64(n: int) { MIN64 <= n <= MAX64 }

  /** Adding one to a 64-bit int: the maximum wraps around to the minimum. */
  function Successor(n: int): int { if n == MAX64 then MIN64 else n + 1 }

  function DigitChar(d: nat): char
    requires d < 10
  {
    '0' + d as char
  }

  function Digits(n: nat): (s: string)
    ensures s != []
  {
    if n < 10 then [DigitChar(n)] else Digits(n / 10) + [DigitChar(n % 10)]
  }

  function Format(n: int): string {
    if n < 0 then "-" + Digits(-n) else Digits(n)
  }

  predicate AllDigits(s: string) { forall i | 0 <= i < |s| :: '0' <= s[i] <= '9' }

  function Value(s: string): nat
    requires AllDigits(s)
  {
    if s == [] then 0 else Value(s[..|s| - 1]) * 10 + (s[|s| - 1] - '0') as nat
  }

  function Parse(s: string): Option<int> {
    var signed := s != [] && (s[0] == '-' || s[0] == '+');
    var body := if signed then s[1..] else s;
    if body == [] || !AllDigits(body) then None else
      var magnitude: int := Value(body);
      var n := if signed && s[0] == '-' then -magnitude else magnitude;
      if Fits64(n) then Some(n) else None
  }

  lemma {:induction false} DigitsRoundTrip(n: nat)
    ensures AllDigits(Digits(n)) && Value(Digits(n)) == n
  {
    if n < 10 {
      assert Digits(n)[..0] == [];
    } else {
      DigitsRoundTrip(n / 10);
      var front := Digits(n / 10);
      assert Digits(n)[..|Digits(n)| - 1] == front;
    }
  }

  lemma DigitsHaveNoSign(n: nat)
    ensures Digits(n)[0] != '-' && Digits(n)[0] != '+'
  {
    DigitsRoundTrip(n);
    assert '0' <= Digits(n)[0] <= '9';
  }

  /** Printing then parsing gives the number back, for every 64-bit integer. */
  lemma ParseFormat(n: int)
    requires Fits64(n)
    ensures Parse(Format(n)) == Some(n)
  {
    var size: nat := if n < 0 then -n else n;
    var digits := Digits(size);
    DigitsRoundTrip(size);
    DigitsHaveNoSign(size);
    assert ("-" + digits)[1..] == digits;
  }

  lemma FormatInjective(m: int, n: int)
    requires Fits64(m) && Fits64(n) && Format(m) == Format(n)
    ensures m == n
  {
    ParseFormat(m);
    ParseFormat(n);
  }

  /** Only an optional sign and at least one digit parse, and only within 64 bits. */
  lemma ParseAccepts(s: string)
    ensures Parse(s).Some? ==> Fits64(Parse(s).value) && s != "" && s !in ["+", "-"]
    ensures forall i | 0 <= i < |s| && Parse(s).Some? :: '0' <= s[i] <= '9' || (i == 0 && s[0] in "+-")
  {
  }

  /** A further digit makes ten times the number and the digit. */
  lemma FormatTenfold(n: int, d: nat)
    requires 1 <= n && d < 10
    ensures Format(10 * n + d) == Format(n) + ["0123456789"[d]]
  {
    assert (10 * n + d) / 10 == n && (10 * n + d) % 10 == d;
  }

  lemma FormatDigit(d: int)
    requires 0 <= d < 10
    ensures Format(d) == ["0123456789"[d]] && (d > 0 ==> Format(-d) == "-" + Format(d))
  {
  }
}
