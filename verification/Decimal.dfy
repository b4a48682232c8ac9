/** Canonical decimal spellings of natural numbers: what a template literal prints for an integer. */
module Decimal {

  predicate IsDigit(c: char) {
    '0' <= c <= '9'
  }

  predicate AllDigits(s: string) {
    forall i :: 0 <= i < |s| ==> IsDigit(s[i])
  }

  /** The grammar `0|[1-9][0-9]*`. */
  predicate Canonical(s: string) {
    |s| > 0 && AllDigits(s) && (s[0] == '0' ==> |s| == 1)
  }

  function DigitValue(c: char): (d: nat)
    requires IsDigit(c)
    ensures d < 10 && DigitChar(d) == c
  {
    (c as int) - ('0' as int)
  }

  function DigitChar(d: nat): (c: char)
    requires d < 10
    ensures IsDigit(c)
  {
    ('0' as int + d) as char
  }

  function Show(n: nat): (s: string)
    ensures Canonical(s)
    ensures s[0] == '0' <==> n == 0
  {
    if n < 10 then [DigitChar(n)] else Show(n / 10) + [DigitChar(n % 10)]
  }

  function Read(s: string): nat
    requires AllDigits(s)
  {
    if s == "" then 0 else Read(s[..|s| - 1]) * 10 + DigitValue(s[|s| - 1])
  }

  /** Reading back a printed number gives the number. */
  lemma {:induction false} ReadShow(n: nat)
    ensures Read(Show(n)) == n
  {
    if n >= 10 {
      ReadShow(n / 10);
      assert Show(n)[..|Show(n)| - 1] == Show(n / 10);
    } else {
      assert Show(n)[..0] == "";
    }
  }

  /** Printing the value of a canonical spelling gives the spelling: each is printed by exactly one number. */
  lemma {:induction false} ShowRead(s: string)
    requires Canonical(s)
    ensures Show(Read(s)) == s
  {
    var front := s[..|s| - 1];
    if |s| == 1 {
      assert front == "";
      assert s == [DigitChar(DigitValue(s[0]))];
    } else {
      ShowRead(front);
      assert Read(front) != 0;
      assert s == front + [s[|s| - 1]];
    }
  }

  lemma ShowInjective(m: nat, n: nat)
    requires Show(m) == Show(n)
    ensures m == n
  {
    ReadShow(m);
    ReadShow(n);
  }
}
