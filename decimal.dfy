/**
 * Decimal rendering of non-negative integers, as Python's "%d" produces it
 * for the values the command encoders accept, together with its inverse.
 */
module Decimal {

  predicate IsDigit(c: char) {
    '0' <= c <= '9'
  }

  predicate AllDigits(s: string) {
    forall i :: 0 <= i < |s| ==> IsDigit(s[i])
  }

  function Digit(d: nat): (c: char)
    requires d < 10
    ensures IsDigit(c)
  {
    ('0' as int + d) as char
  }

  function DigitValue(c: char): (d: nat)
    requires IsDigit(c)
    ensures d < 10 && Digit(d) == c
  {
    c as int - '0' as int
  }

  /** The canonical decimal text of `n`: digits only, no sign, no leading zero. */
  function Render(n: nat): (s: string)
    ensures |s| >= 1 && AllDigits(s)
    ensures |s| > 1 ==> s[0] != '0'
    decreases n
  {
    if n < 10 then [Digit(n)] else Render(n / 10) + [Digit(n % 10)]
  }

  /** The number a string of digits denotes (the empty string denotes 0). */
  function ValueOf(s: string): nat
    requires AllDigits(s)
  {
    if s == [] then 0 else ValueOf(s[..|s| - 1]) * 10 + DigitValue(s[|s| - 1])
  }

  function Pow10(k: nat): (p: nat)
    ensures p >= 1
  {
    if k == 0 then 1 else 10 * Pow10(k - 1)
  }

  /** Reading back the rendered text gives the number again. */
  lemma {:induction false} ValueOfRender(n: nat)
    ensures ValueOf(Render(n)) == n
    decreases n
  {
    var s := Render(n);
    if n >= 10 {
      assert s[..|s| - 1] == Render(n / 10);
      ValueOfRender(n / 10);
    }
  }

  /** A number below 10^k renders in at most k characters. */
  lemma {:induction false} RenderLength(n: nat, k: nat)
    requires 1 <= k && n < Pow10(k)
    ensures |Render(n)| <= k
    decreases n
  {
    if n >= 10 {
      assert Pow10(1) == 10;
      assert n / 10 < Pow10(k - 1);
      RenderLength(n / 10, k - 1);
    }
  }

  /** The widths the encoders rely on: a digit, a byte value, a minute count of a day. */
  lemma RenderWidths(n: nat)
    ensures n <= 9 ==> |Render(n)| == 1
    ensures n <= 99 ==> |Render(n)| <= 2
    ensures n <= 999 ==> |Render(n)| <= 3
    ensures n <= 9999 ==> |Render(n)| <= 4
  {
    assert Pow10(1) == 10 && Pow10(2) == 100 && Pow10(3) == 1000 && Pow10(4) == 10000;
    if n <= 9 { RenderLength(n, 1); }
    if n <= 99 { RenderLength(n, 2); }
    if n <= 999 { RenderLength(n, 3); }
    if n <= 9999 { RenderLength(n, 4); }
  }

  /** The widest values: 255 and 100 take three characters, 10 takes two. */
  lemma RenderWidest()
    ensures Render(255) == "255" && Render(100) == "100" && Render(10) == "10"
    ensures Render(1439) == "1439"
  {
  }
}
