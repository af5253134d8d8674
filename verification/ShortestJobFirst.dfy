/** Bubble sort by burst, and why the order it yields minimises total turnaround. */
module ShortestJobFirst {

  datatype Thread = Thread(id: int, arrival: int, turnaround: int, response: int, burst: int, wait: int,
                           completion: int, firstRun: int)

  // ----- Cost of an order

  ghost function TotalBurst(order: seq<Thread>): int
  {
    if order == [] then 0 else TotalBurst(order[..|order| - 1]) + order[|order| - 1].burst
  }

  ghost function TotalArrival(order: seq<Thread>): int
  {
    if order == [] then 0 else TotalArrival(order[..|order| - 1]) + order[|order| - 1].arrival
  }

  /** Sum of completion times when the jobs run back to back in this order from time 0. */
  ghost function TotalCompletion(order: seq<Thread>): int
  {
    if order == [] then 0 else TotalCompletion(order[..|order| - 1]) + TotalBurst(order)
  }

  ghost function TotalTurnaround(order: seq<Thread>): int
  {
    TotalCompletion(order) - TotalArrival(order)
  }

  ghost predicate SortedByBurst(order: seq<Thread>)
  {
    forall i, j :: 0 <= i < j < |order| ==> order[i].burst <= order[j].burst
  }

  ghost predicate Permutation(a: seq<Thread>, b: seq<Thread>)
  {
    multiset(a) == multiset(b)
  }

  // ----- Moving a longest job to the back

  ghost function MovedBack(order: seq<Thread>, k: nat): seq<Thread>
    requires k < |order|
  {
    order[..k] + order[k + 1..] + [order[k]]
  }

  lemma Appended(order: seq<Thread>, t: Thread)
    ensures TotalBurst(order + [t]) == TotalBurst(order) + t.burst
    ensures TotalArrival(order + [t]) == TotalArrival(order) + t.arrival
    ensures TotalCompletion(order + [t]) == TotalCompletion(order) + TotalBurst(order) + t.burst
  {
    assert (order + [t])[..|order|] == order;
  }

  lemma {:induction false} MoveBackKeepsTotals(order: seq<Thread>, k: nat)
    requires k < |order|
    ensures TotalBurst(MovedBack(order, k)) == TotalBurst(order)
    ensures TotalArrival(MovedBack(order, k)) == TotalArrival(order)
  {
    var n := |order| - 1;
    if k == n {
      assert MovedBack(order, k) == order;
    } else {
      var init, last := order[..n], order[n];
      MoveBackKeepsTotals(init, k);
      var rest := init[..k] + init[k + 1..];
      assert MovedBack(init, k) == rest + [order[k]];
      assert MovedBack(order, k) == rest + [last] + [order[k]];
      Appended(rest, order[k]);
      Appended(rest, last);
      Appended(rest + [last], order[k]);
    }
  }

  lemma {:induction false} MoveBackCostsNoMore(order: seq<Thread>, k: nat)
    requires k < |order| && forall j :: k < j < |order| ==> order[j].burst <= order[k].burst
    ensures TotalCompletion(MovedBack(order, k)) <= TotalCompletion(order)
  {
    var n := |order| - 1;
    if k == n {
      assert MovedBack(order, k) == order;
    } else {
      var init, last := order[..n], order[n];
      MoveBackCostsNoMore(init, k);
      MoveBackKeepsTotals(order, k);
      var rest := init[..k] + init[k + 1..];
      assert MovedBack(init, k) == rest + [order[k]];
      assert MovedBack(order, k) == rest + [last] + [order[k]];
      Appended(rest, order[k]);
      Appended(rest, last);
      Appended(rest + [last], order[k]);
    }
  }

  lemma PositionOf(order: seq<Thread>, t: Thread) returns (k: nat)
    requires t in multiset(order)
    ensures k < |order| && order[k] == t
  {
    k :| 0 <= k < |order| && order[k] == t;
  }

  lemma WithoutOne(order: seq<Thread>, k: nat)
    requires k < |order|
    ensures multiset(order[..k] + order[k + 1..]) == multiset(order) - multiset{order[k]}
  {
    assert order == order[..k] + [order[k]] + order[k + 1..];
  }

  lemma WithoutIsPermutation(sorted: seq<Thread>, order: seq<Thread>, k: nat)
    requires Permutation(sorted, order) && k < |order| && sorted != [] && order[k] == sorted[|sorted| - 1]
    ensures Permutation(sorted[..|sorted| - 1], order[..k] + order[k + 1..])
  {
    var n := |sorted| - 1;
    WithoutOne(order, k);
    WithoutOne(sorted, n);
    assert sorted[..n] + sorted[n + 1..] == sorted[..n];
  }

  lemma {:induction false} SortedCompletesSoonest(sorted: seq<Thread>, order: seq<Thread>)
    requires SortedByBurst(sorted) && Permutation(sorted, order)
    ensures TotalCompletion(sorted) <= TotalCompletion(order)
    ensures TotalBurst(sorted) == TotalBurst(order) && TotalArrival(sorted) == TotalArrival(order)
    decreases |sorted|
  {
    assert |multiset(sorted)| == |sorted| && |multiset(order)| == |order|;
    if sorted != [] {
      var n := |sorted| - 1;
      var last := sorted[n];
      assert last in multiset(sorted);
      var k := PositionOf(order, last);
      forall j | 0 <= j < |order|
        ensures order[j].burst <= last.burst
      {
        assert order[j] in multiset(order);
        var i := PositionOf(sorted, order[j]);
      }
      var rest := order[..k] + order[k + 1..];
      WithoutIsPermutation(sorted, order, k);
      SortedCompletesSoonest(sorted[..n], rest);
      MoveBackCostsNoMore(order, k);
      MoveBackKeepsTotals(order, k);
      Appended(rest, last);
      assert MovedBack(order, k) == rest + [last];
    }
  }

  /** No order of the same jobs has a smaller total turnaround than one sorted by burst. */
  lemma ShortestFirstIsOptimal(sorted: seq<Thread>, order: seq<Thread>)
    requires SortedByBurst(sorted) && Permutation(sorted, order)
    ensures TotalTurnaround(sorted) <= TotalTurnaround(order)
  {
    SortedCompletesSoonest(sorted, order);
  }

  // ----- The sort

  lemma SwapIsPermutation(a: seq<Thread>, j: nat, b: seq<Thread>)
    requires j + 1 < |a| && b == a[j := a[j + 1]][j + 1 := a[j]]
    ensures Permutation(b, a)
  {
    var front, back := a[..j], a[j + 2..];
    assert a == front + [a[j], a[j + 1]] + back;
    assert b == front + [a[j + 1], a[j]] + back;
    assert multiset([a[j], a[j + 1]]) == multiset([a[j + 1], a[j]]);
  }

  method Swap(jobs: array<Thread>, j: nat)
    requires j + 1 < jobs.Length
    modifies jobs
    ensures jobs[..] == old(jobs[..])[j := old(jobs[j + 1])][j + 1 := old(jobs[j])]
    ensures Permutation(jobs[..], old(jobs[..]))
  {
    var temp := jobs[j];
    jobs[j] := jobs[j + 1];
    jobs[j + 1] := temp;
    SwapIsPermutation(old(jobs[..]), j, jobs[..]);
  }

  /** From position `from` on the jobs are sorted and no earlier job is longer than any of them. */
  ghost predicate SortedFrom(a: seq<Thread>, from: int)
  {
    && (forall i, j :: 0 <= from <= i < j < |a| ==> a[i].burst <= a[j].burst)
    && (forall i, j :: 0 <= i < from <= j < |a| ==> a[i].burst <= a[j].burst)
  }

  /** The first `j + 1` jobs are no longer than job `j`. */
  ghost predicate LongestSoFar(a: seq<Thread>, j: int)
  {
    0 <= j < |a| && forall i :: 0 <= i <= j ==> a[i].burst <= a[j].burst
  }

  /** Compares jobs `j` and `j + 1` and swaps them if the first is longer. */
  method CompareAndSwap(jobs: array<Thread>, j: nat, ghost from: nat)
    requires j + 1 < from <= jobs.Length && SortedFrom(jobs[..], from) && LongestSoFar(jobs[..], j)
    modifies jobs
    ensures Permutation(jobs[..], old(jobs[..])) && SortedFrom(jobs[..], from) && LongestSoFar(jobs[..], j + 1)
  {
    if jobs[j].burst > jobs[j + 1].burst {
      Swap(jobs, j);
    }
  }

  method BubblePass(jobs: array<Thread>, from: nat)
    requires 1 <= from <= jobs.Length && SortedFrom(jobs[..], from)
    modifies jobs
    ensures Permutation(jobs[..], old(jobs[..])) && SortedFrom(jobs[..], from - 1)
  {
    for j := 0 to from - 1
      invariant Permutation(jobs[..], old(jobs[..])) && SortedFrom(jobs[..], from) && LongestSoFar(jobs[..], j)
    {
      CompareAndSwap(jobs, j, from);
    }
  }

  method Bubble(jobs: array<Thread>)
    modifies jobs
    ensures Permutation(jobs[..], old(jobs[..])) && SortedByBurst(jobs[..])
  {
    var i := 0;
    while i < jobs.Length - 1
      invariant 0 <= i <= jobs.Length && (jobs.Length > 0 ==> i < jobs.Length)
      invariant Permutation(jobs[..], old(jobs[..])) && SortedFrom(jobs[..], jobs.Length - i)
    {
      BubblePass(jobs, jobs.Length - i);
      i := i + 1;
    }
    assert jobs.Length > 0 ==> SortedFrom(jobs[..], 1);
  }

  // ----- The scheduler

  /** The recorded results of running `order` back to back: job `i` finishes after the first `i + 1` bursts. */
  ghost predicate Recorded(order: seq<Thread>, i: nat, t: Thread)
    requires i < |order|
  {
    var turnaround := TotalBurst(order[..i + 1]) - order[i].arrival;
    t == order[i].(turnaround := turnaround, wait := turnaround - order[i].burst)
  }

  ghost function SumTurnaround(jobs: seq<Thread>): int
  {
    if jobs == [] then 0 else SumTurnaround(jobs[..|jobs| - 1]) + jobs[|jobs| - 1].turnaround
  }

  lemma {:induction false} RecordedTotal(order: seq<Thread>, jobs: seq<Thread>, n: nat)
    requires n <= |order| == |jobs| && forall i :: 0 <= i < |order| ==> Recorded(order, i, jobs[i])
    ensures SumTurnaround(jobs[..n]) == TotalTurnaround(order[..n])
  {
    if n > 0 {
      RecordedTotal(order, jobs, n - 1);
      assert jobs[..n][..n - 1] == jobs[..n - 1] && order[..n][..n - 1] == order[..n - 1];
      assert Recorded(order, n - 1, jobs[n - 1]);
    }
  }

  /** The turnarounds recorded add up to the least possible total over all orders of the jobs. */
  method SjfScheduler(jobs: array<Thread>) returns (ghost order: seq<Thread>)
    modifies jobs
    ensures |order| == jobs.Length && Permutation(order, old(jobs[..])) && SortedByBurst(order)
    ensures forall i :: 0 <= i < jobs.Length ==> Recorded(order, i, jobs[i])
    ensures forall other :: Permutation(other, old(jobs[..])) ==> SumTurnaround(jobs[..]) <= TotalTurnaround(other)
  {
    var currentTime := 0;
    Bubble(jobs);
    order := jobs[..];
    for i := 0 to jobs.Length
      invariant currentTime == TotalBurst(order[..i])
      invariant forall k :: 0 <= k < i ==> Recorded(order, k, jobs[k])
      invariant forall k :: i <= k < jobs.Length ==> jobs[k] == order[k]
    {
      currentTime := currentTime + jobs[i].burst;
      assert order[..i + 1][..i] == order[..i];
      jobs[i] := jobs[i].(turnaround := currentTime - jobs[i].arrival);
      jobs[i] := jobs[i].(wait := jobs[i].turnaround - jobs[i].burst);
    }
    RecordedTotal(order, jobs[..], jobs.Length);
    assert jobs[..jobs.Length] == jobs[..] && order[..jobs.Length] == order;
    forall other | Permutation(other, old(jobs[..]))
      ensures SumTurnaround(jobs[..]) <= TotalTurnaround(other)
    {
      ShortestFirstIsOptimal(order, other);
    }
  }
}
