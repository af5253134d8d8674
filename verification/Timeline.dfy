/** The Gantt chart and the per-process books of a single-CPU simulation. */
module Timeline {
  import opened Arithmetic
  import opened Distinctness

  /** `weight` stands for the weight of the process's nice value. */
  datatype Job = Job(pid: int, arrival: int, burst: int, priority: int, weight: int)

  function Bursts(jobs: seq<Job>): (r: seq<int>)
    ensures |r| == |jobs| && forall i :: 0 <= i < |jobs| ==> r[i] == jobs[i].burst
  {
    seq(|jobs|, i requires 0 <= i < |jobs| => jobs[i].burst)
  }

  function Times(jobs: seq<Job>): (r: seq<int>)
    ensures |r| == |jobs| && forall i :: 0 <= i < |jobs| ==> r[i] == jobs[i].arrival
  {
    seq(|jobs|, i requires 0 <= i < |jobs| => jobs[i].arrival)
  }

  function Pids(jobs: seq<Job>): (r: seq<int>)
    ensures |r| == |jobs| && forall i :: 0 <= i < |jobs| ==> r[i] == jobs[i].pid
  {
    seq(|jobs|, i requires 0 <= i < |jobs| => jobs[i].pid)
  }

  /** `[start, end)` on the CPU. */
  datatype Slice = Slice(start: int, end: int, pid: int)

  datatype Proc = Proc(remaining: int, startTime: int, completion: int, waiting: int, lastEnq: int,
                       dynPrio: int, vruntime: real)

  // ----- The chart

  /** Slices of positive length, one after the other, none beyond `upto`. */
  ghost predicate InOrder(g: seq<Slice>, upto: int)
  {
    && (forall k :: 0 <= k < |g| ==> g[k].start < g[k].end <= upto)
    && (forall k, m :: 0 <= k < m < |g| ==> g[k].end <= g[m].start)
  }

  /** Time on the chart of process `i`; `owners` gives the process of each slice. */
  ghost function TimeOf(g: seq<Slice>, owners: seq<int>, i: int): int
    requires |g| == |owners|
  {
    if g == [] then 0
    else
      var k := |g| - 1;
      TimeOf(g[..k], owners[..k], i) + if owners[k] == i then g[k].end - g[k].start else 0
  }

  /** An empty slice is not recorded. */
  function Pushed(g: seq<Slice>, s: int, e: int, pid: int): seq<Slice>
  {
    if e <= s then g else g + [Slice(s, e, pid)]
  }

  ghost function OwnersPushed(owners: seq<int>, s: int, e: int, i: int): seq<int>
  {
    if e <= s then owners else owners + [i]
  }

  lemma PushAdds(g: seq<Slice>, owners: seq<int>, s: int, e: int, pid: int, owner: int, upto: int)
    requires |g| == |owners| && InOrder(g, upto) && upto <= s <= e
    ensures |Pushed(g, s, e, pid)| == |OwnersPushed(owners, s, e, owner)|
    ensures InOrder(Pushed(g, s, e, pid), e)
    ensures forall i :: TimeOf(Pushed(g, s, e, pid), OwnersPushed(owners, s, e, owner), i)
                     == TimeOf(g, owners, i) + if i == owner then e - s else 0
  {
    var g', owners' := Pushed(g, s, e, pid), OwnersPushed(owners, s, e, owner);
    if s < e {
      assert g'[..|g|] == g && owners'[..|g|] == owners;
    }
  }

  /** Each slice carries the pid of its owner. */
  ghost predicate Labelled(g: seq<Slice>, owners: seq<int>, pids: seq<int>)
  {
    |g| == |owners| && forall k :: 0 <= k < |g| ==> 0 <= owners[k] < |pids| && g[k].pid == pids[owners[k]]
  }

  lemma PushLabels(g: seq<Slice>, owners: seq<int>, pids: seq<int>, s: int, e: int, owner: int)
    requires Labelled(g, owners, pids) && 0 <= owner < |pids|
    ensures Labelled(Pushed(g, s, e, pids[owner]), OwnersPushed(owners, s, e, owner), pids)
  {
  }

  lemma PushBoth(g: seq<Slice>, owners: seq<int>, pids: seq<int>, s: int, e: int, owner: int, upto: int)
    requires Labelled(g, owners, pids) && InOrder(g, upto) && upto <= s <= e && 0 <= owner < |pids|
    ensures var g', owners' := Pushed(g, s, e, pids[owner]), OwnersPushed(owners, s, e, owner);
            && |g'| == |owners'| && InOrder(g', e) && Labelled(g', owners', pids)
            && forall i :: TimeOf(g', owners', i) == TimeOf(g, owners, i) + if i == owner then e - s else 0
  {
    PushAdds(g, owners, s, e, pids[owner], owner, upto);
    PushLabels(g, owners, pids, s, e, owner);
  }

  /** Time on the chart under label `pid`. */
  ghost function TimeUnder(g: seq<Slice>, pid: int): int
  {
    if g == [] then 0
    else
      var k := |g| - 1;
      TimeUnder(g[..k], pid) + if g[k].pid == pid then g[k].end - g[k].start else 0
  }

  /** With distinct pids, the time under a process's label is its own. */
  lemma {:induction false} LabelsTell(g: seq<Slice>, owners: seq<int>, pids: seq<int>, i: int)
    requires Labelled(g, owners, pids) && Distinct(pids) && 0 <= i < |pids|
    ensures TimeUnder(g, pids[i]) == TimeOf(g, owners, i)
  {
    if g != [] {
      var k := |g| - 1;
      LabelsTell(g[..k], owners[..k], pids, i);
      assert owners[k] == i || pids[owners[k]] != pids[i];
    }
  }

  // ----- Sums over processes

  ghost function WorkDone(procs: seq<Proc>, bursts: seq<int>): int
    requires |procs| == |bursts|
  {
    if procs == [] then 0
    else
      var k := |procs| - 1;
      WorkDone(procs[..k], bursts[..k]) + bursts[k] - procs[k].remaining
  }

  lemma {:induction false} WorkAfter(procs: seq<Proc>, bursts: seq<int>, i: nat, p: Proc)
    requires |procs| == |bursts| && i < |procs|
    ensures WorkDone(procs[i := p], bursts) == WorkDone(procs, bursts) + procs[i].remaining - p.remaining
  {
    var k := |procs| - 1;
    if i == k {
      assert procs[i := p][..k] == procs[..k];
    } else {
      WorkAfter(procs[..k], bursts[..k], i, p);
      assert procs[i := p][..k] == procs[..k][i := p];
    }
  }

  lemma {:induction false} WorkBound(procs: seq<Proc>, bursts: seq<int>)
    requires |procs| == |bursts| && forall i :: 0 <= i < |procs| ==> procs[i].remaining >= 0
    ensures WorkDone(procs, bursts) <= Sum(bursts)
    ensures (forall i :: 0 <= i < |procs| ==> procs[i].remaining == 0) ==> WorkDone(procs, bursts) == Sum(bursts)
  {
    if procs != [] {
      var k := |procs| - 1;
      WorkBound(procs[..k], bursts[..k]);
    }
  }

  lemma {:induction false} NothingDone(procs: seq<Proc>, bursts: seq<int>)
    requires |procs| == |bursts| && forall i :: 0 <= i < |procs| ==> procs[i].remaining == bursts[i]
    ensures WorkDone(procs, bursts) == 0
  {
    if procs != [] {
      var k := |procs| - 1;
      NothingDone(procs[..k], bursts[..k]);
    }
  }

  // ----- A process's books

  /** Not admitted yet. */
  ghost predicate Untouched(p: Proc, burst: int, served: int)
  {
    p.remaining == burst && p.startTime == p.completion == p.lastEnq == -1 && p.waiting == served == 0
  }

  /** In the ready queue since `lastEnq`, first admitted at `first`: until then it has run or waited. */
  ghost predicate Queued(p: Proc, burst: int, first: int, served: int)
  {
    && p.remaining >= 0 && p.completion == -1 && p.lastEnq >= 0
    && served == burst - p.remaining
    && p.lastEnq - first == served + p.waiting
  }

  /** Finished, having run for its burst and waited for the rest of the time since it was admitted. */
  ghost predicate Finished(p: Proc, burst: int, first: int, served: int)
  {
    p.remaining == 0 && served == burst && p.completion - first == burst + p.waiting
  }

  // ----- Start times

  /** `startTime` is the start of the first slice of process `i` on the chart, or `otherwise` if it has none. */
  ghost predicate StartTells(g: seq<Slice>, owners: seq<int>, i: int, startTime: int, otherwise: int)
    requires |g| == |owners|
  {
    && (forall k :: 0 <= k < |g| && owners[k] == i && i !in owners[..k] ==> startTime == g[k].start >= 0)
    && (i !in owners ==> startTime == otherwise)
  }

  lemma {:induction false} FirstSlice(owners: seq<int>, i: int, n: nat) returns (k: nat)
    requires n < |owners| && owners[n] == i
    ensures k <= n && owners[k] == i && i !in owners[..k]
  {
    k := n;
    if i in owners[..n] {
      var m :| 0 <= m < n && owners[..n][m] == i;
      k := FirstSlice(owners, i, m);
    }
  }

  /** Somebody else's slice, or an empty one, changes nothing. */
  lemma StartStays(g: seq<Slice>, owners: seq<int>, i: int, startTime: int, otherwise: int, s: int, e: int, pid: int,
                   owner: int)
    requires |g| == |owners| && StartTells(g, owners, i, startTime, otherwise) && (owner != i || e <= s)
    ensures |Pushed(g, s, e, pid)| == |OwnersPushed(owners, s, e, owner)|
    ensures StartTells(Pushed(g, s, e, pid), OwnersPushed(owners, s, e, owner), i, startTime, otherwise)
  {
    forall k | 0 <= k < |g|
      ensures OwnersPushed(owners, s, e, owner)[..k] == owners[..k]
    {
    }
  }

  /** A slice of its own: the start time is taken if there was none. */
  lemma StartTaken(g: seq<Slice>, owners: seq<int>, i: int, startTime: int, s: int, e: int, pid: int)
    requires |g| == |owners| && StartTells(g, owners, i, startTime, -1) && s >= 0
    ensures |Pushed(g, s, e, pid)| == |OwnersPushed(owners, s, e, i)|
    ensures var startTime' := if startTime == -1 then s else startTime;
            StartTells(Pushed(g, s, e, pid), OwnersPushed(owners, s, e, i), i, startTime', s)
  {
    if i in owners {
      var n :| 0 <= n < |owners| && owners[n] == i;
      var first := FirstSlice(owners, i, n);
    }
    forall k | 0 <= k <= |g|
      ensures e > s ==> OwnersPushed(owners, s, e, i)[..k] == owners[..k]
    {
    }
  }
}
