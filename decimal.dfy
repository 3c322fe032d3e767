/** How the source turns integers into text: template literals (`${n}`) and
    string `+` render a JavaScript number holding an integer of magnitude below
    10^21 in decimal, with a leading minus sign when it is negative (larger
    magnitudes switch to exponent notation, which the model does not cover). Ids and URLs are built this way, so
    their uniqueness rests on this rendering being injective. */
module Decimal {

  predicate IsDigit(c: char) {
    '0' <= c <= '9'
  }

  /** Characters a rendered integer can contain. */
  predicate IsNumeral(c: char) {
    IsDigit(c) || c == '-'
  }

  predicate AllDigits(s: string) {
    forall i :: 0 <= i < |s| ==> IsDigit(s[i])
  }

  predicate AllNumeral(s: string) {
    forall i :: 0 <= i < |s| ==> IsNumeral(s[i])
  }

  function Digit(d: nat): (c: char)
    requires d < 10
    ensures IsDigit(c)
  {
    (48 + d) as char
  }

  /** Decimal rendering of a non-negative integer, without leading zeros. */
  function NatToString(n: nat): (s: string)
    ensures |s| >= 1 && AllDigits(s)
    ensures |s| == 1 <==> n < 10
    decreases n
  {
    if n < 10 then [Digit(n)] else NatToString(n / 10) + [Digit(n % 10)]
  }

  /** Decimal rendering of any integer; only negative numbers start with '-'. */
  function IntToString(n: int): (s: string)
    ensures |s| >= 1 && AllNumeral(s)
    ensures s[0] == '-' <==> n < 0
    ensures n < 0 ==> |s| >= 2
    ensures AllDigits(s[1..])
  {
    if n < 0 then "-" + NatToString(-n) else NatToString(n)
  }

  /** Distinct numbers render as distinct strings. */
  lemma {:induction false} NatToStringInjective(a: nat, b: nat)
    requires NatToString(a) == NatToString(b)
    ensures a == b
    decreases a
  {
    if a >= 10 && b >= 10 {
      var sa, sb := NatToString(a), NatToString(b);
      assert sa[..|sa| - 1] == NatToString(a / 10);
      assert sb[..|sb| - 1] == NatToString(b / 10);
      NatToStringInjective(a / 10, b / 10);
      assert sa[|sa| - 1] == Digit(a % 10);
      assert sb[|sb| - 1] == Digit(b % 10);
    } else if a < 10 && b < 10 {
      assert NatToString(a)[0] == Digit(a);
      assert NatToString(b)[0] == Digit(b);
    }
  }

  lemma IntToStringInjective(a: int, b: int)
    requires IntToString(a) == IntToString(b)
    ensures a == b
  {
    if a < 0 && b < 0 {
      assert NatToString(-a) == IntToString(a)[1..];
      assert NatToString(-b) == IntToString(b)[1..];
      NatToStringInjective(-a, -b);
    } else if a >= 0 && b >= 0 {
      NatToStringInjective(a, b);
    }
  }

  /** Length of the longest prefix of `s` that could belong to a rendered number. */
  function NumeralRun(s: string): (n: nat)
    ensures n <= |s|
  {
    if s == [] || !IsNumeral(s[0]) then 0 else 1 + NumeralRun(s[1..])
  }

  lemma {:induction false} NumeralRunOfPrefix(a: string, t: string)
    requires AllNumeral(a)
    requires |t| > 0 && !IsNumeral(t[0])
    ensures NumeralRun(a + t) == |a|
    decreases |a|
  {
    if a == [] {
      assert a + t == t;
    } else {
      assert (a + t)[0] == a[0];
      assert (a + t)[1..] == a[1..] + t;
      NumeralRunOfPrefix(a[1..], t);
    }
  }

  /** A rendered number followed by a character that cannot be part of a number
      splits back into that number and what follows it. */
  lemma NumeralPrefix(a: string, t: string, b: string, u: string)
    requires AllNumeral(a) && AllNumeral(b)
    requires |t| > 0 && |u| > 0 && !IsNumeral(t[0]) && !IsNumeral(u[0])
    requires a + t == b + u
    ensures a == b && t == u
  {
    NumeralRunOfPrefix(a, t);
    NumeralRunOfPrefix(b, u);
    assert a == (a + t)[..|a|];
    assert b == (b + u)[..|b|];
    assert t == (a + t)[|a|..];
    assert u == (b + u)[|b|..];
  }
}
