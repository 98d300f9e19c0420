/** Decimal text of natural numbers, as std::to_string writes it. */
module Decimal {
  import Arithmetic

  ghost predicate IsDigit(c: char) {
    '0' <= c <= '9'
  }

  predicate AllDigits(s: string) {
    forall i | 0 <= i < |s| :: '0' <= s[i] <= '9'
  }

  function ToString(n: nat): (s: string)
    ensures s != [] && AllDigits(s)
  {
    if n < 10 then [('0' as int + n) as char] else ToString(n / 10) + [('0' as int + n % 10) as char]
  }

  function Value(s: string): nat
    requires AllDigits(s)
  {
    if s == [] then 0 else 10 * Value(s[..|s| - 1]) + (s[|s| - 1] as int - '0' as int)
  }

  lemma {:induction false} ValueOfToString(n: nat)
    ensures Value(ToString(n)) == n
  {
    if n >= 10 {
      ValueOfToString(n / 10);
      var s := ToString(n);
      assert s[..|s| - 1] == ToString(n / 10);
    } else {
      var s := ToString(n);
      assert s[..|s| - 1] == [];
    }
  }

  lemma ToStringInjective(a: nat, b: nat)
    requires ToString(a) == ToString(b)
    ensures a == b
  {
    ValueOfToString(a);
    ValueOfToString(b);
  }

  /** Counted from the right, character `k` is the digit of 10^k, and a number of
      several digits does not start with 0. */
  lemma {:induction false} DigitsInPlace(n: nat, k: nat)
    requires k < |ToString(n)|
    ensures Pow10(k) > 0 && ToString(n)[|ToString(n)| - 1 - k] as int - '0' as int == n / Pow10(k) % 10
    ensures |ToString(n)| > 1 ==> ToString(n)[0] != '0'
    decreases n
  {
    if n >= 10 {
      if k > 0 {
        DigitsInPlace(n / 10, k - 1);
        Quotients(n, Pow10(k - 1));
      } else {
        DigitsInPlace(n / 10, 0);
      }
      var s, t := ToString(n), ToString(n / 10);
      assert s[..|s| - 1] == t;
      LeadingDigit(n / 10);
    }
  }

  lemma {:induction false} LeadingDigit(n: nat)
    ensures n > 0 ==> ToString(n)[0] != '0'
  {
    if n >= 10 {
      LeadingDigit(n / 10);
    }
  }

  lemma Quotients(n: nat, d: nat)
    requires d > 0
    ensures n / 10 / d == n / (10 * d)
  {
    var q, r := n / 10 / d, n / 10 % d;
    assert n / 10 == q * d + r && n == 10 * (n / 10) + n % 10;
    var rest := 10 * r + n % 10;
    assert q * (10 * d) == 10 * (q * d) && (q + 1) * (10 * d) == q * (10 * d) + 10 * d;
    assert n == q * (10 * d) + rest && 0 <= rest < 10 * d;
    Arithmetic.QuotientIs(n, 10 * d, q);
  }

  /** A number below 10^d has at most d digits. */
  lemma {:induction false} ToStringLength(n: nat, d: nat)
    requires d >= 1 && n < Pow10(d)
    ensures |ToString(n)| <= d
  {
    if n >= 10 {
      assert d >= 2;
      ToStringLength(n / 10, d - 1);
    }
  }

  function Pow10(d: nat): nat {
    if d == 0 then 1 else 10 * Pow10(d - 1)
  }

  /** How many digits a string starts with. */
  function DigitRun(s: string): nat {
    if s == [] || !('0' <= s[0] <= '9') then 0 else 1 + DigitRun(s[1..])
  }

  lemma {:induction false} DigitRunOf(a: string, x: string)
    requires AllDigits(a)
    requires x == [] || !IsDigit(x[0])
    ensures DigitRun(a + x) == |a|
  {
    if a == [] {
      assert a + x == x;
    } else {
      assert (a + x)[1..] == a[1..] + x;
      DigitRunOf(a[1..], x);
    }
  }

  /** A digit string followed by a non-digit splits in one way only: how the
      numbers of a text such as `2:12:7` or `cam3-40` are told apart. */
  lemma SplitAtMark(a: string, x: string, b: string, y: string)
    requires AllDigits(a) && AllDigits(b)
    requires x == [] || !IsDigit(x[0])
    requires y == [] || !IsDigit(y[0])
    requires a + x == b + y
    ensures a == b && x == y
  {
    DigitRunOf(a, x);
    DigitRunOf(b, y);
    assert (a + x)[..|a|] == a && (b + y)[..|b|] == b;
    assert (a + x)[|a|..] == x && (b + y)[|b|..] == y;
  }
}
