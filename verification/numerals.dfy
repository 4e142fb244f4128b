/** Decimal text of integers: how the database renders an integer column as text,
    and how the JVM's `Integer.parseInt` reads such text back into a 32-bit `int`. */
module Numerals {
  import opened Options

  /** Bounds of Java's 32-bit `int`. */
  const IntMin: int := -0x8000_0000
  const IntMax: int := 0x7fff_ffff
  const Modulus: int := 0x1_0000_0000

  predicate InInt(x: int) {
    IntMin <= x <= IntMax
  }

  /** Java `int` arithmetic: the mathematical result wrapped into 32-bit two's complement. */
  function Wrap(x: int): (r: int)
    ensures InInt(r)
    ensures (r - x) % Modulus == 0
    ensures InInt(x) ==> r == x
  {
    (x - IntMin) % Modulus + IntMin
  }

  predicate IsDigit(c: char) {
    '0' <= c <= '9'
  }

  predicate AllDigits(s: string) {
    forall i | 0 <= i < |s| :: IsDigit(s[i])
  }

  /** The value of a string of decimal digits, most significant first. */
  function DigitsValue(s: string): nat
    requires AllDigits(s)
  {
    if s == [] then 0 else DigitsValue(s[..|s| - 1]) * 10 + (s[|s| - 1] as int - '0' as int)
  }

  /** `Integer.parseInt(s)`: an optional '+' or '-', then at least one digit, and the value
      must fit in an `int`; anything else throws, which is `None` here. */
  function ParseInt(s: string): (r: Option<int>)
    ensures r.Some? ==> InInt(r.value) && |s| > 0
  {
    if |s| == 0 then None
    else
      var signed := s[0] == '-' || s[0] == '+';
      var digits := if signed then s[1..] else s;
      if |digits| == 0 || !AllDigits(digits) then None
      else
        var v: int := if s[0] == '-' then 0 - DigitsValue(digits) as int else DigitsValue(digits);
        if InInt(v) then Some(v) else None
  }

  /** Only an optional sign followed by digits parses: a line with any other character,
      or with nothing after the sign, throws. */
  lemma ParseIntNeedsDigits(s: string)
    ensures ParseInt(s).Some? ==>
              && |s| > 0
              && (IsDigit(s[0]) || s[0] == '-' || s[0] == '+')
              && (forall i | 1 <= i < |s| :: IsDigit(s[i]))
              && (!IsDigit(s[0]) ==> |s| > 1)
  {
    if ParseInt(s).Some? {
      var signed := s[0] == '-' || s[0] == '+';
      var digits := if signed then s[1..] else s;
      assert AllDigits(digits);
      if signed {
        assert forall i | 1 <= i < |s| :: s[i] == digits[i - 1];
      } else {
        assert IsDigit(digits[0]);
      }
    }
  }

  /** Conversely, unsigned digits parse, leading zeros included, to their value when it
      fits in an `int`. */
  lemma DigitsParse(ds: string)
    requires |ds| > 0 && AllDigits(ds)
    ensures ParseInt(ds) == if DigitsValue(ds) <= IntMax then Some(DigitsValue(ds) as int) else None
  {
    assert IsDigit(ds[0]);
  }

  /** A leading '+' changes nothing. */
  lemma PlusDigitsParse(ds: string)
    requires |ds| > 0 && AllDigits(ds)
    ensures ParseInt("+" + ds) == if DigitsValue(ds) <= IntMax then Some(DigitsValue(ds) as int) else None
  {
    var s := "+" + ds;
    assert s[0] == '+' && s[1..] == ds;
  }

  /** A leading '-' negates, "-0" included; the most negative `int` has no positive twin. */
  lemma MinusDigitsParse(ds: string)
    requires |ds| > 0 && AllDigits(ds)
    ensures ParseInt("-" + ds) ==
              var v: int := 0 - DigitsValue(ds) as int; if IntMin <= v then Some(v) else None
  {
    var s := "-" + ds;
    assert s[0] == '-' && s[1..] == ds;
  }

  /** Decimal digits of a natural number, without leading zeros. */
  function ShowNat(n: nat): (s: string)
    ensures |s| >= 1 && AllDigits(s) && DigitsValue(s) == n
    ensures s[0] == '0' ==> n == 0
  {
    var last := [(n % 10 + '0' as int) as char];
    if n < 10 then last
    else
      var front := ShowNat(n / 10);
      assert (front + last)[..|front|] == front;
      front + last
  }

  /** Decimal text of an integer, with a leading '-' when it is negative. */
  function ShowInt(n: int): string {
    if n < 0 then "-" + ShowNat(-n) else ShowNat(n)
  }

  /** Reading back the text of an integer gives the integer when it fits in an `int`,
      and a parse failure when it does not. */
  lemma ParseShowRoundTrip(n: int)
    ensures ParseInt(ShowInt(n)) == if InInt(n) then Some(n) else None
  {
    var s := ShowInt(n);
    if n < 0 {
      assert s[1..] == ShowNat(-n);
    } else {
      assert IsDigit(s[0]);
    }
  }
}
