/** Natural numbers as decimal text, as template strings print them and `Number` reads them back. */
module Decimal {
  predicate IsDigit(c: char) { '0' <= c <= '9' }

  function Digit(d: nat): char
    requires d < 10
  {
    ('0' as int + d) as char
  }

  predicate AllDigits(s: string) {
    forall i :: 0 <= i < |s| ==> IsDigit(s[i])
  }

  function Print(n: nat): string {
    if n < 10 then [Digit(n)] else Print(n / 10) + [Digit(n % 10)]
  }

  /** The number a digit string denotes. */
  function Value(s: string): nat
    requires AllDigits(s)
  {
    if s == [] then 0 else 10 * Value(s[..|s| - 1]) + (s[|s| - 1] as int - '0' as int)
  }

  lemma TwoDigits(n: nat)
    requires 10 <= n < 100
    ensures Print(n) == [Digit(n / 10), Digit(n % 10)]
  {
    assert Print(n / 10) == [Digit(n / 10)];
  }

  /** The most significant digit comes first. */
  lemma FourDigits()
    ensures Print(1205) == "1205"
  {
    assert Print(1205) == Print(120) + "5";
    assert Print(120) == Print(12) + "0";
  }

  /** Printing and reading are inverse. */
  lemma {:induction false} RoundTrip(n: nat)
    ensures Print(n) != [] && AllDigits(Print(n)) && Value(Print(n)) == n
  {
    if n >= 10 {
      RoundTrip(n / 10);
      var s := Print(n);
      assert s[..|s| - 1] == Print(n / 10);
    }
  }
}
