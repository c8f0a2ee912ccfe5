/** Decimal rendering of naturals, as Python's str() and %d produce it. */
module Decimal {

  predicate IsDigit(c: char) {
    '0' <= c <= '9'
  }

  predicate AllDigits(s: string) {
    forall i :: 0 <= i < |s| ==> IsDigit(s[i])
  }

  function Digit(d: nat): (c: char)
    requires d < 10
    ensures IsDigit(c) && DigitValue(c) == d
  {
    ('0' as int + d) as char
  }

  function DigitValue(c: char): nat
    requires IsDigit(c)
  {
    c as int - '0' as int
  }

  function Render(n: nat): (s: string)
    ensures s != "" && AllDigits(s)
  {
    if n < 10 then [Digit(n)] else Render(n / 10) + [Digit(n % 10)]
  }

  function Parse(s: string): nat
    requires AllDigits(s)
  {
    if s == "" then 0 else Parse(s[..|s| - 1]) * 10 + DigitValue(s[|s| - 1])
  }

  lemma {:induction false} ParseRender(n: nat)
    ensures Parse(Render(n)) == n
  {
    if n < 10 {
      assert Render(n)[..0] == "";
    } else {
      ParseRender(n / 10);
      assert Render(n)[..|Render(n)| - 1] == Render(n / 10);
    }
  }

  /** Two numbers never share a rendering. */
  lemma RenderInjective(m: nat, n: nat)
    requires Render(m) == Render(n)
    ensures m == n
  {
    ParseRender(m);
    ParseRender(n);
  }
}
