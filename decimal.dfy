/**
 * Decimal rendering of non-negative integers, as Python's `str(b)` gives it
 * for an integer, and the reading of such a rendering back into a number.
 */
module Decimal {

  predicate IsDigit(c: char) {
    '0' <= c <= '9'
  }

  predicate AllDigits(s: string) {
    forall i :: 0 <= i < |s| ==> IsDigit(s[i])
  }

  /** A rendering `str` can produce: at least one digit, and no leading zero unless it is "0". */
  predicate Canonical(s: string) {
    |s| >= 1 && AllDigits(s) && (s[0] == '0' ==> |s| == 1)
  }

  function DigitChar(d: nat): (c: char)
    requires d < 10
    ensures IsDigit(c)
  {
    ('0' as int + d) as char
  }

  function DigitValue(c: char): (d: nat)
    requires IsDigit(c)
    ensures d < 10 && DigitChar(d) == c
  {
    c as int - '0' as int
  }

  /** The decimal text of `n`: most significant digit first, no leading zeros. */
  function Render(n: nat): string
  {
    if n < 10 then [DigitChar(n)] else Render(n / 10) + [DigitChar(n % 10)]
  }

  /** The number a string of digits denotes. */
  function Value(s: string): (n: nat)
    requires AllDigits(s)
    ensures |s| >= 1 && s[0] != '0' ==> n >= 1
  {
    if s == [] then 0 else Value(s[..|s| - 1]) * 10 + DigitValue(s[|s| - 1])
  }

  /** A rendering is canonical: digits only, at least one, no leading zero except in "0". */
  lemma {:induction false} RenderIsCanonical(n: nat)
    ensures Canonical(Render(n))
    ensures n >= 1 ==> Render(n)[0] != '0'
  {
    if n >= 10 {
      RenderIsCanonical(n / 10);
    }
  }

  /** Reading a rendering back gives the number rendered. */
  lemma {:induction false} ValueOfRender(n: nat)
    ensures AllDigits(Render(n)) && Value(Render(n)) == n
  {
    RenderIsCanonical(n);
    if n >= 10 {
      ValueOfRender(n / 10);
      var s := Render(n);
      assert s[..|s| - 1] == Render(n / 10);
    }
  }

  /** Every canonical digit string is the rendering of its own value. */
  lemma {:induction false} RenderOfValue(s: string)
    requires Canonical(s)
    ensures Render(Value(s)) == s
    decreases |s|
  {
    var init, last := s[..|s| - 1], s[|s| - 1];
    if |s| == 1 {
      assert init == [];
    } else {
      assert Canonical(init);
      RenderOfValue(init);
      var n := Value(s);
      assert n == Value(init) * 10 + DigitValue(last);
      assert n / 10 == Value(init) && n % 10 == DigitValue(last);
      assert s == init + [last];
    }
  }
}
