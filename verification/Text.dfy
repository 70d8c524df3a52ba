/** Decimal numerals, shared by every component that builds identifiers or prints integers. */
module Text {

  predicate IsDigit(c: char) {
    '0' <= c <= '9'
  }

  predicate AllDigits(s: string) {
    forall i :: 0 <= i < |s| ==> IsDigit(s[i])
  }

  function DigitChar(d: nat): (c: char)
    requires d < 10
    ensures IsDigit(c)
  {
    '0' + d as char
  }

  /** The shortest decimal spelling of a natural number. */
  function Decimal(n: nat): (s: string)
    ensures |s| > 0 && AllDigits(s)
  {
    if n < 10 then [DigitChar(n)] else Decimal(n / 10) + [DigitChar(n % 10)]
  }

  /** The number a string of digits denotes; leading zeros are allowed. */
  function DecimalValue(s: string): nat
    requires AllDigits(s)
  {
    if s == [] then 0 else 10 * DecimalValue(s[..|s| - 1]) + (s[|s| - 1] - '0') as int
  }

  lemma {:induction false} DecimalRoundTrip(n: nat)
    ensures DecimalValue(Decimal(n)) == n
  {
    if n < 10 {
      assert DecimalValue(Decimal(n)[..0]) == 0;
    } else {
      DecimalRoundTrip(n / 10);
      var s := Decimal(n);
      assert s[..|s| - 1] == Decimal(n / 10);
    }
  }

  lemma DecimalInjective(m: nat, n: nat)
    requires Decimal(m) == Decimal(n)
    ensures m == n
  {
    DecimalRoundTrip(m);
    DecimalRoundTrip(n);
  }

  /** Identifiers of the form `<letter><decimal>`: t0, p1, l2, ... */
  function Name(letter: char, n: nat): (s: string)
    ensures |s| > 1 && s[0] == letter
  {
    [letter] + Decimal(n)
  }

  lemma NameInjective(a: char, m: nat, b: char, n: nat)
    ensures Name(a, m) == Name(b, n) <==> a == b && m == n
  {
    if Name(a, m) == Name(b, n) {
      assert Name(a, m)[1..] == Decimal(m);
      assert Name(b, n)[1..] == Decimal(n);
      DecimalInjective(m, n);
    }
  }
}
