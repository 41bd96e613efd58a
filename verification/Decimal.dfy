/** Decimal text of natural numbers, as std::to_string writes it. */
module Decimal {

  function Digit(d: nat): (c: char)
    requires d < 10
    ensures '0' <= c <= '9'
  {
    '0' + d as char
  }

  predicate IsDigit(c: char) {
    '0' <= c <= '9'
  }

  function DigitValue(c: char): (d: nat)
    requires IsDigit(c)
    ensures d < 10
    ensures Digit(d) == c
  {
    (c - '0') as nat
  }

  function Text(n: nat): (s: string)
    ensures s != []
    ensures forall c <- s :: IsDigit(c)
    ensures s[0] == '0' ==> n == 0 && s == "0"
  {
    if n < 10 then [Digit(n)] else Text(n / 10) + [Digit(n % 10)]
  }

  /** The number a run of digits denotes. */
  function Value(s: string): nat
    requires forall c <- s :: IsDigit(c)
  {
    if s == [] then 0 else 10 * Value(s[..|s| - 1]) + DigitValue(s[|s| - 1])
  }

  lemma {:induction false} ValueOfText(n: nat)
    ensures Value(Text(n)) == n
  {
    if n >= 10 {
      var s := Text(n);
      assert s[..|s| - 1] == Text(n / 10);
      ValueOfText(n / 10);
    }
  }

  lemma TextInjective(m: nat, n: nat)
    requires Text(m) == Text(n)
    ensures m == n
  {
    ValueOfText(m);
    ValueOfText(n);
  }

  /** A separator that occurs in neither first part tells the two parts apart. */
  lemma SplitInjective(a: string, b: string, c: string, d: string, sep: char)
    requires sep !in a && sep !in c
    requires a + [sep] + b == c + [sep] + d
    ensures a == c && b == d
  {
    var s, t := a + [sep] + b, c + [sep] + d;
    assert s[|a|] == sep && t[|c|] == sep;
    assert forall k :: 0 <= k < |a| ==> s[k] == a[k];
    assert forall k :: 0 <= k < |c| ==> t[k] == c[k];
    assert |a| == |c|;
    assert a == s[..|a|] && c == t[..|c|];
    assert b == s[|a| + 1..] && d == t[|c| + 1..];
  }
}
