/** Decimal length fields: `printf("%u")`, the DIGITS macro of include/macros.h and the digit loop of `get_len`. */
module Decimal {

  predicate Digit(c: char) {
    '0' <= c <= '9'
  }

  function DigitOf(k: nat): (c: char)
    requires k < 10
    ensures Digit(c) && DigitValue(c) == k
  {
    '0' + (k as char)
  }

  function DigitValue(c: char): nat
    requires Digit(c)
  {
    (c - '0') as nat
  }

  /** What `%u` prints. */
  function Print(n: nat): (s: string)
    ensures s != [] && forall i :: 0 <= i < |s| ==> Digit(s[i])
  {
    if n < 10 then [DigitOf(n)] else Print(n / 10) + [DigitOf(n % 10)]
  }

  /** The DIGITS macro. */
  function Digits(n: nat): nat {
    if n >= 100000 then 6 else if n >= 10000 then 5 else if n >= 1000 then 4
    else if n >= 100 then 3 else if n >= 10 then 2 else 1
  }

  function Pow10(k: nat): nat {
    if k == 0 then 1 else 10 * Pow10(k - 1)
  }

  lemma {:induction false} PrintLength(n: nat, k: nat)
    requires k >= 1 && (k == 1 || Pow10(k - 1) <= n) && n < Pow10(k)
    ensures |Print(n)| == k
  {
    if k > 1 {
      assert Pow10(k) == 10 * Pow10(k - 1) && Pow10(k - 1) == 10 * Pow10(k - 2);
      assert n >= 10;
      PrintLength(n / 10, k - 1);
    } else {
      assert Pow10(1) == 10;
    }
  }

  lemma {:induction false} PrintLong(n: nat, k: nat)
    requires Pow10(k) <= n
    ensures |Print(n)| > k
  {
    if k > 0 {
      assert Pow10(k) == 10 * Pow10(k - 1) && n >= 10 by { PowPositive(k - 1); }
      PrintLong(n / 10, k - 1);
    }
  }

  lemma {:induction false} PowPositive(k: nat)
    ensures Pow10(k) >= 1
  {
    if k > 0 { PowPositive(k - 1); }
  }

  lemma PowersOfTen()
    ensures Pow10(1) == 10 && Pow10(2) == 100 && Pow10(3) == 1000
    ensures Pow10(4) == 10000 && Pow10(5) == 100000 && Pow10(6) == 1000000
  {
    assert Pow10(1) == 10;
    assert Pow10(2) == 100;
    assert Pow10(3) == 1000;
    assert Pow10(4) == 10000;
    assert Pow10(5) == 100000;
  }

  /** The six-digit macro is exact if and only if the number is below a million. */
  lemma DigitsExactIff(n: nat)
    ensures |Print(n)| == Digits(n) <==> n < 1000000
  {
    PowersOfTen();
    if n < 1000000 {
      PrintLength(n, Digits(n));
    } else {
      PrintLong(n, 6);
    }
  }

  /** The number of leading digits. */
  function Span(s: string): (k: nat)
    ensures k <= |s| && forall i :: 0 <= i < k ==> Digit(s[i])
    ensures k < |s| ==> !Digit(s[k])
  {
    if s == [] || !Digit(s[0]) then 0 else 1 + Span(s[1..])
  }

  /** The value of a string of digits. */
  function Value(s: string): nat
    requires forall i :: 0 <= i < |s| ==> Digit(s[i])
  {
    if s == [] then 0 else 10 * Value(s[..|s| - 1]) + DigitValue(s[|s| - 1])
  }

  lemma {:induction false} PrintValue(n: nat)
    ensures Value(Print(n)) == n
  {
    if n < 10 {
      assert Print(n)[..0] == [];
    } else {
      PrintValue(n / 10);
      assert Print(n)[..|Print(n)| - 1] == Print(n / 10);
    }
  }

  lemma {:induction false} SpanPrefix(d: string, r: string)
    requires (forall i :: 0 <= i < |d| ==> Digit(d[i])) && r != [] && !Digit(r[0])
    ensures Span(d + r) == |d|
  {
    if d == [] {
      assert d + r == r;
    } else {
      assert (d + r)[1..] == d[1..] + r;
      SpanPrefix(d[1..], r);
    }
  }
}
