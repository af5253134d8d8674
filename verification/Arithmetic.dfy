/** Sums, and division facts the solver does not find by itself. */
module Arithmetic {

  function Sum(s: seq<int>): int
  {
    if s == [] then 0 else Sum(s[..|s| - 1]) + s[|s| - 1]
  }

  lemma AtLeastOne(n: nat, d: int)
    requires d >= 1
    ensures n * d >= n
  {
  }

  lemma AtMostMinusOne(n: nat, d: int)
    requires d <= -1
    ensures n * d + n <= 0
  {
  }

  lemma Remainder(a: int, n: nat, q: int, r: int)
    requires n >= 1 && a == n * q + r && 0 <= r < n
    ensures a % n == r && a / n == q
  {
    var d := a / n - q;
    assert n * d == r - a % n by {
      assert a == n * (a / n) + a % n;
    }
    if d > 0 {
      AtLeastOne(n, d);
    } else if d < 0 {
      AtMostMinusOne(n, d);
    }
  }

  lemma SmallQuotient(k: nat, n: nat)
    requires k < n
    ensures k / n == 0
  {
    Remainder(k, n, 0, k);
  }

  lemma QuotientSign(k: nat, n: nat)
    requires n >= 1
    ensures k / n >= 0 && (k / n >= 1 <==> k >= n)
  {
    if k < n {
      SmallQuotient(k, n);
    }
  }
}
