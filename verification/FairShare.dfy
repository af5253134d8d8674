/** The completely fair scheduler as values: how one dispatch charges virtual
    runtime, and how far apart two runnable processes can drift. */
module FairShare {
  import opened Timeline

  /** Virtual runtimes, what is left of each burst, and the admitted, unfinished processes. */
  datatype Fair = Fair(v: seq<real>, left: seq<int>, runnable: set<int>)

  ghost predicate JobsOk(jobs: seq<Job>)
  {
    forall i :: 0 <= i < |jobs| ==> jobs[i].burst >= 0 && jobs[i].weight >= 1
  }

  // ----- Sums of weights

  ghost function WeightsBelow(jobs: seq<Job>, members: set<int>, n: nat): int
    requires n <= |jobs|
  {
    if n == 0 then 0 else WeightsBelow(jobs, members, n - 1) + if n - 1 in members then jobs[n - 1].weight else 0
  }

  ghost function Weights(jobs: seq<Job>, members: set<int>): int
  {
    WeightsBelow(jobs, members, |jobs|)
  }

  lemma {:induction false} WeightsJoin(jobs: seq<Job>, members: set<int>, i: int, n: nat)
    requires n <= |jobs| && i !in members && 0 <= i < |jobs|
    ensures WeightsBelow(jobs, members + {i}, n) == WeightsBelow(jobs, members, n) + if i < n then jobs[i].weight else 0
  {
    if n > 0 {
      WeightsJoin(jobs, members, i, n - 1);
    }
  }

  lemma {:induction false} NoWeight(jobs: seq<Job>, n: nat)
    requires n <= |jobs|
    ensures WeightsBelow(jobs, {}, n) == 0
  {
    if n > 0 {
      NoWeight(jobs, n - 1);
    }
  }

  lemma {:induction false} WeightAtLeast(jobs: seq<Job>, members: set<int>, i: int, n: nat)
    requires n <= |jobs| && JobsOk(jobs) && i in members && 0 <= i < |jobs|
    ensures WeightsBelow(jobs, members, n) >= if i < n then jobs[i].weight else 0
  {
    if n > 0 {
      WeightAtLeast(jobs, members, i, n - 1);
    }
  }

  lemma {:induction false} WeightsAtLeast(jobs: seq<Job>, members: set<int>, i: int, j: int, n: nat)
    requires n <= |jobs| && JobsOk(jobs)
    requires i in members && j in members && i != j && 0 <= i < |jobs| && 0 <= j < |jobs|
    ensures WeightsBelow(jobs, members, n) >=
              (if i < n then jobs[i].weight else 0) + (if j < n then jobs[j].weight else 0)
  {
    if n > 0 {
      WeightsAtLeast(jobs, members, i, j, n - 1);
    }
  }

  // ----- Slices

  /** The period's share of a process of weight `w` among weights summing to `total`, at least 1. */
  function SliceOf(period: int, w: int, total: int): int
    requires total >= 1
  {
    var share := (period as real * (w as real / total as real)).Floor;
    if share < 1 then 1 else share
  }

  function Charge(run: int, w: int): real
    requires w >= 1
  {
    run as real * (512.0 / w as real)
  }

  /** Virtual runtime times weight grows by 512 for every tick run. */
  lemma ChargePays(run: int, w: int)
    requires w >= 1
    ensures Charge(run, w) * w as real == 512.0 * run as real
  {
    var unit := 512.0 / w as real;
    assert unit * w as real == 512.0;
    assert (run as real * unit) * w as real == run as real * (unit * w as real);
  }

  /** `n` is the whole number of ticks in the share `w` out of `total` of the period, or 1 if there is none. */
  ghost predicate WholeShare(period: int, w: int, total: int, n: int)
  {
    n >= 1 && period * w < (n + 1) * total && (n > 1 ==> n * total <= period * w)
  }

  lemma ShareScales(period: int, w: int, total: int, q: real)
    requires total >= 1 && q == period as real * (w as real / total as real)
    ensures q * total as real == (period * w) as real
  {
    var part := w as real / total as real;
    assert part * total as real == w as real;
    assert (period as real * part) * total as real == period as real * (part * total as real);
  }

  lemma RealProduct(a: int, b: int)
    ensures (a * b) as real == a as real * b as real
  {
  }

  /** Comparing a quotient with a whole number is comparing products. */
  lemma QuotientBounds(q: real, total: int, x: int, n: int)
    requires total >= 1 && q * total as real == x as real
    ensures q < n as real ==> x < n * total
    ensures n as real <= q ==> n * total <= x
  {
    RealProduct(n, total);
    if q < n as real {
      ProductBelow(q, n as real, total as real);
    } else if n as real <= q {
      ProductGrows(n as real, q, total as real);
    }
  }

  lemma ProductBelow(a: real, b: real, c: real)
    requires a < b && c > 0.0
    ensures a * c < b * c
  {
  }

  lemma SliceIsShare(period: int, w: int, total: int)
    requires total >= 1
    ensures WholeShare(period, w, total, SliceOf(period, w, total))
  {
    var q, n := period as real * (w as real / total as real), SliceOf(period, w, total);
    ShareScales(period, w, total, q);
    QuotientBounds(q, total, period * w, n + 1);
    QuotientBounds(q, total, period * w, n);
  }

  /** The most by which one slice can put a process of weight `w` ahead of one of weight `other`. */
  function Lead(period: int, w: int, other: int): real
    requires w >= 1 && other >= 1
  {
    var one, share := 1.0 / w as real, period as real / (w as real + other as real);
    512.0 * if one < share then share else one
  }

  lemma ProductGrows(a: real, b: real, c: real)
    requires a <= b && c >= 0.0
    ensures a * c <= b * c
  {
  }

  lemma DivisorShrinks(p: real, a: real, b: real)
    requires 0.0 < a <= b && p >= 0.0
    ensures p / b <= p / a
  {
    ProductGrows(a, b, p / b);
    assert (p / b) * b == p;
    assert (p / b) * a <= p;
    assert p / b == ((p / b) * a) / a;
    QuotientGrows((p / b) * a, p, a);
  }

  lemma QuotientGrows(x: real, y: real, a: real)
    requires x <= y && a > 0.0
    ensures x / a <= y / a
  {
  }

  lemma ShareCharge(p: real, w: real, total: real)
    requires w > 0.0 && total > 0.0
    ensures (p * (w / total)) * (512.0 / w) == 512.0 * (p / total)
  {
    var inv := 1.0 / w;
    assert w * inv == 1.0;
    assert 512.0 / w == 512.0 * inv;
    assert w / total == w * (1.0 / total);
    assert p / total == p * (1.0 / total);
    var t := 1.0 / total;
    assert (p * (w * t)) * (512.0 * inv) == (p * t * 512.0) * (w * inv);
  }

  lemma LeadAtLeast(period: int, w: int, other: int)
    requires w >= 1 && other >= 1
    ensures 512.0 * (1.0 / w as real) <= Lead(period, w, other)
    ensures 512.0 * (period as real / (w as real + other as real)) <= Lead(period, w, other)
  {
  }

  lemma ShortCharge(run: int, w: int)
    requires run <= 1 && w >= 1
    ensures Charge(run, w) <= 512.0 * (1.0 / w as real)
  {
    var unit := 512.0 / w as real;
    assert unit >= 0.0;
    ProductGrows(run as real, 1.0, unit);
    assert unit == 512.0 * (1.0 / w as real);
  }

  lemma QuotientPositive(x: real, y: real)
    requires x >= 0.0 && y > 0.0
    ensures x / y >= 0.0
  {
  }

  /** Only a positive period has a share above 1. */
  lemma ShareNeedsPeriod(p: real, q: real)
    requires q >= 0.0 && p * q >= 1.0
    ensures p >= 0.0
  {
    if p < 0.0 {
      ProductGrows(p, 0.0, q);
    }
  }

  lemma ShareCovers(period: int, w: int, total: int, run: int)
    requires w >= 1 && total >= 1 && 2 <= run <= SliceOf(period, w, total)
    ensures run as real <= period as real * (w as real / total as real)
  {
  }

  /** A share of the period charges at most what it would if the two processes were alone. */
  lemma ShareChargesLess(run: real, p: real, w: real, other: real, total: real)
    requires w >= 1.0 && other >= 1.0 && total >= w + other && 1.0 <= run <= p * (w / total)
    ensures run * (512.0 / w) <= 512.0 * (p / (w + other))
  {
    QuotientPositive(w, total);
    QuotientPositive(512.0, w);
    ShareNeedsPeriod(p, w / total);
    ProductGrows(run, p * (w / total), 512.0 / w);
    ShareCharge(p, w, total);
    DivisorShrinks(p, w + other, total);
  }

  lemma LongCharge(period: int, w: int, other: int, total: int, run: int)
    requires w >= 1 && other >= 1 && total >= w + other
    requires 2 <= run <= SliceOf(period, w, total)
    ensures Charge(run, w) <= 512.0 * (period as real / (w as real + other as real))
  {
    ShareCovers(period, w, total, run);
    ShareChargesLess(run as real, period as real, w as real, other as real, total as real);
  }

  /** A slice charges no more than `Lead`. */
  lemma ChargeWithinLead(period: int, w: int, other: int, total: int, run: int)
    requires w >= 1 && other >= 1 && total >= w + other
    requires run <= SliceOf(period, w, total)
    ensures Charge(run, w) <= Lead(period, w, other)
  {
    LeadAtLeast(period, w, other);
    if run <= 1 {
      ShortCharge(run, w);
    } else {
      LongCharge(period, w, other, total, run);
    }
  }

  // ----- One dispatch

  /** Process `i`, with the least virtual runtime of the runnable ones, runs for its slice or to its end. */
  ghost predicate Dispatches(jobs: seq<Job>, period: int, s: Fair, s': Fair, i: int)
  {
    && JobsOk(jobs) && |s.v| == |s.left| == |jobs| && 0 <= i < |jobs| && i in s.runnable
    && (forall j :: j in s.runnable ==> 0 <= j < |jobs| && s.v[i] <= s.v[j])
    && Weights(jobs, s.runnable) >= 1
    && var slice := SliceOf(period, jobs[i].weight, Weights(jobs, s.runnable));
       var run := if s.left[i] < slice then s.left[i] else slice;
       s' == Fair(s.v[i := s.v[i] + Charge(run, jobs[i].weight)], s.left[i := s.left[i] - run],
                  if s.left[i] - run <= 0 then s.runnable - {i} else s.runnable)
  }

  /** Processes that have not run join the runnable ones. */
  ghost predicate Admits(s: Fair, s': Fair)
  {
    s.runnable <= s'.runnable && s' == s.(runnable := s'.runnable)
  }

  /** From one dispatch to the next. */
  ghost predicate Leads(jobs: seq<Job>, period: int, s: Fair, i: int, s': Fair)
  {
    exists mid :: Dispatches(jobs, period, s, mid, i) && Admits(mid, s')
  }

  ghost predicate StepAt(jobs: seq<Job>, period: int, trace: seq<Fair>, picks: seq<int>, t: nat)
    requires t + 1 < |trace| && |picks| == |trace| - 1
  {
    Leads(jobs, period, trace[t], picks[t], trace[t + 1])
  }

  ghost predicate IsRun(jobs: seq<Job>, period: int, trace: seq<Fair>, picks: seq<int>)
  {
    && |picks| + 1 == |trace|
    && (forall t :: 0 <= t < |trace| ==> |trace[t].v| == |jobs|)
    && (forall t :: 0 <= t < |trace| - 1 ==> StepAt(jobs, period, trace, picks, t))
  }

  ghost predicate Runnable(trace: seq<Fair>, i: int, t: nat)
    requires t < |trace|
  {
    i in trace[t].runnable
  }

  ghost function Gap(trace: seq<Fair>, i: nat, j: nat, t: nat): real
    requires t < |trace| && i < |trace[t].v| && j < |trace[t].v|
  {
    trace[t].v[i] - trace[t].v[j]
  }

  lemma ChargePositive(run: int, w: int)
    requires run >= 0 && w >= 1
    ensures Charge(run, w) >= 0.0
  {
    ProductGrows(0.0, run as real, 512.0 / w as real);
  }

  /** Charging `c` to process `k`, one with the least virtual runtime. */
  lemma GapMoves(v: seq<real>, k: nat, c: real, i: nat, j: nat, lead: real)
    requires k < |v| && i < |v| && j < |v| && i != j && v[k] <= v[j] && c >= 0.0 && (k == i ==> c <= lead)
    ensures var v' := v[k := v[k] + c]; v'[i] - v'[j] <= v[i] - v[j] || v'[i] - v'[j] <= lead
  {
  }

  /** From `s` to `s'` virtual runtime times weight has grown by 512 for every tick process `j` has run. */
  ghost predicate PaysFor(jobs: seq<Job>, s: Fair, s': Fair, j: int)
  {
    && 0 <= j < |jobs| == |s.v| == |s.left| == |s'.v| == |s'.left|
    && (s'.v[j] - s.v[j]) * jobs[j].weight as real == 512.0 * (s.left[j] - s'.left[j]) as real
  }

  /** Each dispatch charges 512 for every tick run, in virtual runtime times weight, and charges nobody else. */
  lemma DispatchPays(jobs: seq<Job>, period: int, s: Fair, s': Fair, i: int, j: int)
    requires Dispatches(jobs, period, s, s', i) && 0 <= j < |jobs|
    ensures PaysFor(jobs, s, s', j)
  {
    ChargePays(s.left[i] - s'.left[i], jobs[i].weight);
  }

  /** The process runs for the whole ticks of its share of the period, at least one, or to its end. */
  lemma DispatchShares(jobs: seq<Job>, period: int, s: Fair, s': Fair, i: int) returns (slice: int)
    requires Dispatches(jobs, period, s, s', i)
    ensures WholeShare(period, jobs[i].weight, Weights(jobs, s.runnable), slice)
    ensures s.left[i] - s'.left[i] == if s.left[i] < slice then s.left[i] else slice
  {
    slice := SliceOf(period, jobs[i].weight, Weights(jobs, s.runnable));
    SliceIsShare(period, jobs[i].weight, Weights(jobs, s.runnable));
  }

  lemma Paying(a: real, b: real, w: real, x: int, y: int)
    requires a * w == 512.0 * x as real && b * w == 512.0 * y as real
    ensures (a + b) * w == 512.0 * (x + y) as real
  {
    assert (x + y) as real == x as real + y as real;
  }

  lemma PaysOn(jobs: seq<Job>, s: Fair, t: Fair, u: Fair, j: int)
    requires PaysFor(jobs, s, t, j) && PaysFor(jobs, t, u, j)
    ensures PaysFor(jobs, s, u, j)
  {
    Paying(t.v[j] - s.v[j], u.v[j] - t.v[j], jobs[j].weight as real, s.left[j] - t.left[j], t.left[j] - u.left[j]);
  }

  lemma LeadsPays(jobs: seq<Job>, period: int, s: Fair, i: int, s': Fair, j: int)
    requires Leads(jobs, period, s, i, s') && 0 <= j < |jobs|
    ensures PaysFor(jobs, s, s', j)
  {
    var mid :| Dispatches(jobs, period, s, mid, i) && Admits(mid, s');
    DispatchPays(jobs, period, s, mid, i, j);
  }

  /** Over any run virtual runtime is work done in units of weight: 512 for every tick a process has run. */
  lemma {:induction false} VirtualTimeIsWork(jobs: seq<Job>, period: int, trace: seq<Fair>, picks: seq<int>, j: int,
                                             t: nat)
    requires IsRun(jobs, period, trace, picks) && t < |trace| && 0 <= j < |jobs| == |trace[0].left|
    ensures PaysFor(jobs, trace[0], trace[t], j)
  {
    if t > 0 {
      VirtualTimeIsWork(jobs, period, trace, picks, j, t - 1);
      assert StepAt(jobs, period, trace, picks, t - 1);
      LeadsPays(jobs, period, trace[t - 1], picks[t - 1], trace[t], j);
      PaysOn(jobs, trace[0], trace[t - 1], trace[t], j);
    }
  }

  lemma GapStep(jobs: seq<Job>, period: int, s: Fair, s': Fair, k: int, i: nat, j: nat)
    requires Dispatches(jobs, period, s, s', k) && i < |jobs| && j < |jobs| && i != j
    requires i in s.runnable && j in s.runnable && s.left[k] >= 0
    ensures s'.v[i] - s'.v[j] <= s.v[i] - s.v[j] || s'.v[i] - s'.v[j] <= Lead(period, jobs[i].weight, jobs[j].weight)
  {
    var total := Weights(jobs, s.runnable);
    WeightsAtLeast(jobs, s.runnable, i, j, |jobs|);
    var slice := SliceOf(period, jobs[k].weight, total);
    var run := if s.left[k] < slice then s.left[k] else slice;
    ChargePositive(run, jobs[k].weight);
    if k == i {
      ChargeWithinLead(period, jobs[i].weight, jobs[j].weight, total, run);
    }
    GapMoves(s.v, k, Charge(run, jobs[k].weight), i, j, Lead(period, jobs[i].weight, jobs[j].weight));
  }

  ghost predicate NothingOwed(s: Fair)
  {
    forall i :: 0 <= i < |s.left| ==> s.left[i] >= 0
  }

  lemma {:induction false} NeverOwed(jobs: seq<Job>, period: int, trace: seq<Fair>, picks: seq<int>, t: nat)
    requires IsRun(jobs, period, trace, picks) && NothingOwed(trace[0]) && t < |trace|
    ensures NothingOwed(trace[t])
  {
    if t > 0 {
      NeverOwed(jobs, period, trace, picks, t - 1);
      assert StepAt(jobs, period, trace, picks, t - 1);
    }
  }

  /** While two processes are both runnable, one leads the other by no more than when the later one was
      admitted, or by what a single slice can account for. */
  lemma {:induction false} Fairness(jobs: seq<Job>, period: int, trace: seq<Fair>, picks: seq<int>, i: nat, j: nat,
                                    a: nat, t: nat)
    requires JobsOk(jobs) && IsRun(jobs, period, trace, picks) && NothingOwed(trace[0])
    requires i < |jobs| && j < |jobs| && i != j && a <= t < |trace|
    requires forall u :: a <= u <= t ==> Runnable(trace, i, u) && Runnable(trace, j, u)
    ensures Gap(trace, i, j, t) <= Gap(trace, i, j, a)
         || Gap(trace, i, j, t) <= Lead(period, jobs[i].weight, jobs[j].weight)
  {
    if a < t {
      Fairness(jobs, period, trace, picks, i, j, a, t - 1);
      assert StepAt(jobs, period, trace, picks, t - 1);
      var mid :| Dispatches(jobs, period, trace[t - 1], mid, picks[t - 1]) && Admits(mid, trace[t]);
      assert Runnable(trace, i, t - 1) && Runnable(trace, j, t - 1);
      NeverOwed(jobs, period, trace, picks, t - 1);
      GapStep(jobs, period, trace[t - 1], mid, picks[t - 1], i, j);
    }
  }
}
