/** Decimal printing of naturals, as string formatting does it. */
module Decimal {
  predicate IsDigit(c: char) {
    '0' <= c <= '9'
  }

  function DigitChar(d: nat): char
    requires d < 10
  {
    "0123456789"[d]
  }

  function Show(n: nat): (s: string)
    ensures s != [] && forall c :: c in s ==> IsDigit(c)
  {
    if n < 10 then [DigitChar(n)] else Show(n / 10) + [DigitChar(n % 10)]
  }

  function DigitValue(c: char): (d: nat)
    requires IsDigit(c)
    ensures d < 10 && DigitChar(d) == c
  {
    (c as int) - ('0' as int)
  }

  /** Reads a string of digits; the empty string reads as zero. */
  function Read(s: string): nat
    requires forall c :: c in s ==> IsDigit(c)
  {
    if s == [] then 0 else 10 * Read(s[..|s| - 1]) + DigitValue(s[|s| - 1])
  }

  lemma {:induction false} ReadShow(n: nat)
    ensures Read(Show(n)) == n
  {
    if n >= 10 {
      ReadShow(n / 10);
      assert Show(n)[..|Show(n)| - 1] == Show(n / 10);
    }
  }

  lemma ShowInjective(m: nat, n: nat)
    ensures Show(m) == Show(n) <==> m == n
  {
    ReadShow(m);
    ReadShow(n);
  }

  /** `%02d` for numbers below a hundred. */
  function TwoDigits(n: nat): (s: string)
    requires n < 100
    ensures |s| == 2 && forall c :: c in s ==> IsDigit(c)
  {
    [DigitChar(n / 10), DigitChar(n % 10)]
  }

  lemma TwoDigitsRead(n: nat)
    requires n < 100
    ensures 10 * DigitValue(TwoDigits(n)[0]) + DigitValue(TwoDigits(n)[1]) == n
  {
    assert DigitValue(DigitChar(n / 10)) == n / 10;
    assert DigitValue(DigitChar(n % 10)) == n % 10;
  }

  lemma TwoDigitsInjective(m: nat, n: nat)
    requires m < 100 && n < 100
    ensures TwoDigits(m) == TwoDigits(n) <==> m == n
  {
    TwoDigitsRead(m);
    TwoDigitsRead(n);
  }

  /** A separator splits a string at its first occurrence in one way only. */
  lemma SplitAtSeparator(a: string, b: string, c: string, d: string, sep: char)
    requires sep !in a && sep !in c
    requires a + [sep] + b == c + [sep] + d
    ensures a == c && b == d
  {
    var left := a + [sep] + b;
    var right := c + [sep] + d;
    assert left[|a|] == sep && right[|c|] == sep;
    assert forall i :: 0 <= i < |a| ==> left[i] == a[i] != sep;
    assert forall i :: 0 <= i < |c| ==> right[i] == c[i] != sep;
    assert |a| == |c|;
    assert a == left[..|a|] && c == right[..|c|];
    assert b == left[|a| + 1..] && d == right[|c| + 1..];
  }
}
