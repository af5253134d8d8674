/** Sequences without repetition, how often their members occur, and sizes of finite sets. */
module Distinctness {

  ghost predicate Distinct(q: seq<int>)
  {
    forall a, b :: 0 <= a < b < |q| ==> q[a] != q[b]
  }

  lemma TwiceCounts<T>(q: seq<T>, a: nat, b: nat)
    requires a < b < |q| && q[a] == q[b]
    ensures multiset(q)[q[a]] >= 2
  {
    assert q == q[..a] + [q[a]] + q[a + 1..b] + [q[b]] + q[b + 1..];
  }

  lemma OnceIsDistinct(q: seq<int>)
    requires forall x :: x in q ==> multiset(q)[x] <= 1
    ensures Distinct(q)
  {
    forall a, b | 0 <= a < b < |q|
      ensures q[a] != q[b]
    {
      if q[a] == q[b] {
        TwiceCounts(q, a, b);
      }
    }
  }

  lemma {:induction false} DistinctIsOnce(q: seq<int>, x: int)
    requires Distinct(q)
    ensures multiset(q)[x] <= 1
  {
    if q != [] {
      var n := |q| - 1;
      DistinctIsOnce(q[..n], x);
      assert q == q[..n] + [q[n]];
      assert q[n] !in q[..n];
    }
  }

  // ----- Finite sets

  lemma Leftover(a: set<int>, b: set<int>) returns (x: int)
    requires b <= a && a != b
    ensures x in a && x !in b
  {
    if forall y :: y in a ==> y in b {
      assert false;
    }
    x :| x in a && x !in b;
  }

  ghost function Image(f: seq<int>, s: set<int>): set<int>
    requires forall c :: c in s ==> 0 <= c < |f|
  {
    set c | c in s :: f[c]
  }

  lemma {:induction false} ImageSize(f: seq<int>, s: set<int>)
    requires forall c :: c in s ==> 0 <= c < |f|
    ensures |Image(f, s)| <= |s|
    ensures (forall c, d :: c in s && d in s && c != d ==> f[c] != f[d]) ==> |Image(f, s)| == |s|
    decreases |s|
  {
    if s != {} {
      var c := Leftover(s, {});
      var rest := s - {c};
      ImageSize(f, rest);
      assert Image(f, s) == Image(f, rest) + {f[c]};
    }
  }

  ghost function Range(n: nat): (r: set<int>)
    ensures forall i :: i in r <==> 0 <= i < n
  {
    if n == 0 then {} else Range(n - 1) + {n - 1}
  }

  lemma {:induction false} RangeSize(n: nat)
    ensures |Range(n)| == n
  {
    if n > 0 {
      RangeSize(n - 1);
    }
  }

  lemma SubsetSize<T>(a: set<T>, b: set<T>)
    requires a <= b
    ensures |a| <= |b|
    ensures |a| == |b| ==> a == b
  {
    assert b == a + (b - a);
  }
}
