/** Positional numerals in any base, over any alphabet of digits. */
module Numerals {

  function Numeral<T>(n: nat, base: nat, digit: nat -> T): (r: seq<T>)
    requires base >= 2
    ensures r != []
    decreases n
  {
    if n < base then [digit(n)] else QuotientSmaller(n, base); Numeral(n / base, base, digit) + [digit(n % base)]
  }

  function Value<T>(s: seq<T>, base: nat, value: T -> nat): nat {
    if s == [] then 0 else base * Value(s[..|s| - 1], base, value) + value(s[|s| - 1])
  }

  lemma QuotientSmaller(n: nat, base: nat)
    requires 2 <= base <= n
    ensures n / base < n && n == base * (n / base) + n % base
  {
  }

  lemma ValueAppend<T>(s: seq<T>, d: T, base: nat, value: T -> nat)
    ensures Value(s + [d], base, value) == base * Value(s, base, value) + value(d)
  {
    assert (s + [d])[..|s|] == s;
  }

  /** A numeral denotes the number it was printed from. */
  lemma {:induction false} NumeralRoundTrip<T>(n: nat, base: nat, digit: nat -> T, value: T -> nat)
    requires base >= 2 && forall d: nat :: d < base ==> value(digit(d)) == d
    ensures Value(Numeral(n, base, digit), base, value) == n
    decreases n
  {
    if n < base {
      ValueAppend([], digit(n), base, value);
      assert [] + [digit(n)] == [digit(n)];
    } else {
      QuotientSmaller(n, base);
      NumeralRoundTrip(n / base, base, digit, value);
      ValueAppend(Numeral(n / base, base, digit), digit(n % base), base, value);
    }
  }

  /** Every place of a numeral holds a digit. */
  lemma {:induction false} NumeralDigits<T>(n: nat, base: nat, digit: nat -> T, ok: T -> bool)
    requires base >= 2 && forall d: nat :: d < base ==> ok(digit(d))
    ensures forall i :: 0 <= i < |Numeral(n, base, digit)| ==> ok(Numeral(n, base, digit)[i])
    decreases n
  {
    if n >= base {
      QuotientSmaller(n, base);
      NumeralDigits(n / base, base, digit, ok);
    }
  }
}
