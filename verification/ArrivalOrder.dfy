/** The arrival list both single-CPU policies start from: sorted by time, then by process id. */
module ArrivalOrder {
  import opened Distinctness

  datatype Arrival = Arrival(t: int, idx: int)

  function Pid(pids: seq<int>, idx: int): int
  {
    if 0 <= idx < |pids| then pids[idx] else 0
  }

  predicate Earlier(a: Arrival, b: Arrival, pids: seq<int>)
  {
    a.t < b.t || (a.t == b.t && Pid(pids, a.idx) < Pid(pids, b.idx))
  }

  /** Positions before `i` are settled: sorted, and not later than anything behind them. */
  ghost predicate SettledBefore(a: seq<Arrival>, i: int, pids: seq<int>)
  {
    forall k, m :: 0 <= k < i && k < m < |a| ==> !Earlier(a[m], a[k], pids)
  }

  lemma SwapKeepsAll(a: seq<Arrival>, i: nat, j: nat)
    requires i < |a| && j < |a|
    ensures multiset(a[i := a[j]][j := a[i]]) == multiset(a)
  {
    assert multiset(a[i := a[j]]) == multiset(a) - multiset{a[i]} + multiset{a[j]};
  }

  method Exchange(a: array<Arrival>, i: nat, j: nat)
    requires i < j < a.Length
    modifies a
    ensures a[..] == old(a[..])[i := old(a[j])][j := old(a[i])]
    ensures multiset(a[..]) == multiset(old(a[..]))
  {
    SwapKeepsAll(a[..], i, j);
    a[i], a[j] := a[j], a[i];
    assert a[..] == old(a[..])[i := old(a[j])][j := old(a[i])];
  }

  /** Brings the earliest of the arrivals from `i` on to position `i`. */
  method SettleNext(a: array<Arrival>, i: nat, pids: seq<int>)
    requires i < a.Length && SettledBefore(a[..], i, pids)
    modifies a
    ensures SettledBefore(a[..], i + 1, pids) && multiset(a[..]) == multiset(old(a[..]))
  {
    var j := i + 1;
    while j < a.Length
      invariant i < j <= a.Length && multiset(a[..]) == multiset(old(a[..]))
      invariant SettledBefore(a[..], i, pids)
      invariant forall m :: i < m < j ==> !Earlier(a[m], a[i], pids)
    {
      if Earlier(a[j], a[i], pids) {
        Exchange(a, i, j);
      }
      j := j + 1;
    }
  }

  method SortArrivals(a: array<Arrival>, pids: seq<int>)
    modifies a
    ensures multiset(a[..]) == multiset(old(a[..])) && SettledBefore(a[..], a.Length, pids)
  {
    var i := 0;
    while i < a.Length - 1
      invariant 0 <= i && (i < a.Length || i == 0) && SettledBefore(a[..], i, pids)
      invariant multiset(a[..]) == multiset(old(a[..]))
    {
      SettleNext(a, i, pids);
      i := i + 1;
    }
  }

  /** Every process once, in order of arrival. */
  ghost predicate Lists(a: seq<Arrival>, times: seq<int>)
  {
    && |a| == |times|
    && (forall k :: 0 <= k < |a| ==> 0 <= a[k].idx < |times| && a[k].t == times[a[k].idx])
    && (forall k, m :: 0 <= k < m < |a| ==> a[k].idx != a[m].idx)
    && (forall i :: 0 <= i < |times| ==> Arrival(times[i], i) in a)
    && (forall k, m :: 0 <= k < m < |a| ==> a[k].t <= a[m].t)
  }

  lemma {:induction false} ListedOnce(times: seq<int>, n: nat, x: Arrival)
    requires n <= |times|
    ensures multiset(seq(n, i requires 0 <= i < n => Arrival(times[i], i)))[x]
         == if 0 <= x.idx < n && x.t == times[x.idx] then 1 else 0
  {
    var all := seq(n, i requires 0 <= i < n => Arrival(times[i], i));
    if n > 0 {
      var most := seq(n - 1, i requires 0 <= i < n - 1 => Arrival(times[i], i));
      ListedOnce(times, n - 1, x);
      assert all == most + [Arrival(times[n - 1], n - 1)];
    }
  }

  lemma SortedLists(a: seq<Arrival>, times: seq<int>, pids: seq<int>)
    requires multiset(a) == multiset(seq(|times|, i requires 0 <= i < |times| => Arrival(times[i], i)))
    requires SettledBefore(a, |a|, pids)
    ensures Lists(a, times)
  {
    var all := seq(|times|, i requires 0 <= i < |times| => Arrival(times[i], i));
    assert |a| == |multiset(a)| == |multiset(all)| == |times|;
    forall k | 0 <= k < |a|
      ensures 0 <= a[k].idx < |times| && a[k].t == times[a[k].idx]
    {
      ListedOnce(times, |times|, a[k]);
      assert a[k] in multiset(a);
    }
    forall k, m | 0 <= k < m < |a|
      ensures a[k].idx != a[m].idx && a[k].t <= a[m].t
    {
      assert !Earlier(a[m], a[k], pids);
      if a[k].idx == a[m].idx {
        ListedOnce(times, |times|, a[k]);
        TwiceCounts(a, k, m);
      }
    }
    forall i | 0 <= i < |times|
      ensures Arrival(times[i], i) in a
    {
      ListedOnce(times, |times|, Arrival(times[i], i));
      assert Arrival(times[i], i) in multiset(a);
    }
  }

  /** By time, and at the same time by process id. */
  ghost predicate ByArrival(a: seq<Arrival>, pids: seq<int>)
    requires forall k :: 0 <= k < |a| ==> 0 <= a[k].idx < |pids|
  {
    forall k, m :: 0 <= k < m < |a| ==>
      a[k].t < a[m].t || (a[k].t == a[m].t && pids[a[k].idx] <= pids[a[m].idx])
  }

  lemma SettledByArrival(a: seq<Arrival>, pids: seq<int>)
    requires SettledBefore(a, |a|, pids) && forall k :: 0 <= k < |a| ==> 0 <= a[k].idx < |pids|
    ensures ByArrival(a, pids)
  {
    forall k, m | 0 <= k < m < |a|
      ensures a[k].t < a[m].t || (a[k].t == a[m].t && pids[a[k].idx] <= pids[a[m].idx])
    {
      assert !Earlier(a[m], a[k], pids);
    }
  }

  /** Every process, in order of arrival. */
  method MakeArrivals(times: seq<int>, pids: seq<int>) returns (a: array<Arrival>)
    requires |pids| == |times|
    ensures fresh(a) && Lists(a[..], times) && ByArrival(a[..], pids)
  {
    a := new Arrival[|times|](i requires 0 <= i < |times| => Arrival(times[i], i));
    assert a[..] == seq(|times|, i requires 0 <= i < |times| => Arrival(times[i], i));
    SortArrivals(a, pids);
    SortedLists(a[..], times, pids);
    SettledByArrival(a[..], pids);
  }
}
