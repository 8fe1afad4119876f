/** Decimal integers as text, and splitting text at a separator that does not occur in its parts. */
module Decimal {
  import opened Numerals

  function Digit(d: nat): char { if d < 10 then "0123456789"[d] else '?' }

  predicate IsDigit(c: char) { '0' <= c <= '9' }

  function DigitValue(c: char): nat { if IsDigit(c) then c as int - '0' as int else 0 }

  function NatText(n: nat): string { Numeral(n, 10, Digit) }

  function IntText(n: int): string { if n < 0 then "-" + NatText(-n) else NatText(n) }

  lemma NatTextMeaning(n: nat)
    ensures NatText(n) != [] && forall i :: 0 <= i < |NatText(n)| ==> IsDigit(NatText(n)[i])
    ensures Value(NatText(n), 10, DigitValue) == n
  {
    NumeralDigits(n, 10, Digit, IsDigit);
    NumeralRoundTrip(n, 10, Digit, DigitValue);
  }

  lemma IntTextChars(n: int)
    ensures IntText(n) != []
    ensures forall i :: 0 <= i < |IntText(n)| ==> IntText(n)[i] == '-' || IsDigit(IntText(n)[i])
    ensures IntText(n)[0] == '-' <==> n < 0
  {
    NatTextMeaning(if n < 0 then -n else n);
  }

  lemma IntTextInjective(m: int, n: int)
    ensures IntText(m) == IntText(n) <==> m == n
  {
    if IntText(m) == IntText(n) {
      IntTextChars(m);
      IntTextChars(n);
      NatTextMeaning(if m < 0 then -m else m);
      NatTextMeaning(if n < 0 then -n else n);
      if m < 0 {
        assert IntText(m)[1..] == NatText(-m) && IntText(n)[1..] == NatText(-n);
      }
    }
  }

  /** A separator found in neither first part splits a text in one way only. */
  lemma {:induction false} SplitAt(sep: char, a: string, b: string, c: string, d: string)
    requires sep !in a && sep !in c
    requires a + [sep] + b == c + [sep] + d
    ensures a == c && b == d
  {
    var s := a + [sep] + b;
    assert s[|a|] == sep && s[|c|] == sep;
    assert forall i :: 0 <= i < |a| ==> s[i] == a[i];
    assert forall i :: 0 <= i < |c| ==> s[i] == c[i];
    assert |a| == |c|;
    assert a == s[..|a|] && c == s[..|c|];
    assert b == s[|a| + 1..] && d == s[|c| + 1..];
  }

  /** So does one found in neither last part. */
  lemma {:induction false} SplitAtLast(sep: char, a: string, b: string, c: string, d: string)
    requires sep !in b && sep !in d
    requires a + [sep] + b == c + [sep] + d
    ensures a == c && b == d
  {
    var s := a + [sep] + b;
    assert s[|a|] == sep && s[|c|] == sep;
    assert forall i :: |a| < i < |s| ==> s[i] == b[i - |a| - 1];
    assert forall i :: |c| < i < |s| ==> s[i] == d[i - |c| - 1];
    assert |a| == |c|;
    assert a == s[..|a|] && c == s[..|c|];
    assert b == s[|a| + 1..] && d == s[|c| + 1..];
  }
}
