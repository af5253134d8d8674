/** Round robin over several cores: a waiting thread reaches a core within a
    bounded number of ticks, whatever arrives or finishes meanwhile. */
module RoundRobin {
  import opened Arithmetic

  /** The ready queue, the thread on each core (-1 when idle) and what is left of its time slice. */
  datatype RR = RR(ready: seq<int>, core: seq<int>, slice: seq<int>)

  // ----- Dispatch

  /** Cores before `c` whose slice is used up have been preempted, in order, to the queue's tail. */
  function Preempt(r: RR, c: nat): (r': RR)
    requires |r.core| == |r.slice| && c <= |r.core|
    ensures |r'.core| == |r'.slice| == |r.core|
  {
    if c == 0 then r
    else
      var p := Preempt(r, c - 1);
      if p.core[c - 1] != -1 && p.slice[c - 1] == 0 then RR(p.ready + [p.core[c - 1]], p.core[c - 1 := -1], p.slice)
      else p
  }

  /** Idle cores before `c` have been filled, in order, from the queue's head. */
  function Fill(r: RR, c: nat, quantum: int): (r': RR)
    requires |r.core| == |r.slice| && c <= |r.core|
    ensures |r'.core| == |r'.slice| == |r.core|
  {
    if c == 0 then r
    else
      var p := Fill(r, c - 1, quantum);
      if p.core[c - 1] == -1 && p.ready != [] then
        RR(p.ready[1..], p.core[c - 1 := p.ready[0]], p.slice[c - 1 := quantum])
      else p
  }

  function Dispatch(r: RR, quantum: int): RR
    requires |r.core| == |r.slice|
  {
    Fill(Preempt(r, |r.core|), |r.core|, FullSlice(quantum))
  }

  /** A quantum below 1 counts as 1. */
  function FullSlice(quantum: int): (slice: nat)
    ensures slice >= 1 && slice >= quantum && (slice == 1 || slice == quantum)
  {
    if quantum < 1 then 1 else quantum
  }

  // ----- From one dispatch to the next

  /** A tick of work; then the threads on the cores in `done` finish, `arrivals` join, and the cores are dispatched. */
  function Work(r: RR): (r': RR)
    requires |r.core| == |r.slice|
    ensures |r'.core| == |r'.slice| == |r.core|
    ensures r'.ready == r.ready && r'.core == r.core
    ensures forall c :: 0 <= c < |r.core| ==>
              r'.slice[c] == if r.core[c] != -1 && r.slice[c] > 0 then r.slice[c] - 1 else r.slice[c]
  {
    r.(slice := seq(|r.core|, c requires 0 <= c < |r.core| =>
      if r.core[c] != -1 && r.slice[c] > 0 then r.slice[c] - 1 else r.slice[c]))
  }

  function Finish(r: RR, done: set<int>): (r': RR)
    requires |r.core| == |r.slice|
    ensures |r'.core| == |r'.slice| == |r.core|
    ensures r'.ready == r.ready
    ensures forall c :: 0 <= c < |r.core| ==> r'.core[c] == if c in done then -1 else r.core[c]
    ensures forall c :: 0 <= c < |r.core| ==> r'.slice[c] == if c in done then 0 else r.slice[c]
  {
    r.(core := seq(|r.core|, c requires 0 <= c < |r.core| => if c in done then -1 else r.core[c]),
       slice := seq(|r.core|, c requires 0 <= c < |r.core| => if c in done then 0 else r.slice[c]))
  }

  function Tick(r: RR, done: set<int>, arrivals: seq<int>, quantum: int): RR
    requires |r.core| == |r.slice|
  {
    var f := Finish(Work(r), done);
    Dispatch(f.(ready := f.ready + arrivals), quantum)
  }

  // ----- What dispatch does to the queue and the cores

  ghost function Idle(core: seq<int>): nat
  {
    if core == [] then 0 else Idle(core[..|core| - 1]) + if core[|core| - 1] == -1 then 1 else 0
  }

  lemma {:induction false} PreemptFacts(r: RR, c: nat)
    requires |r.core| == |r.slice| && c <= |r.core|
    ensures var p := Preempt(r, c);
            p.slice == r.slice && r.ready <= p.ready
            && (forall d :: 0 <= d < |r.core| ==>
                 p.core[d] == if d < c && r.slice[d] == 0 then -1 else r.core[d])
  {
    if c > 0 {
      PreemptFacts(r, c - 1);
    }
  }

  /** How many threads filling the cores before `c` takes from the queue. */
  ghost function Taken(r: RR, c: nat): (t: nat)
    requires |r.core| == |r.slice| && c <= |r.core|
    ensures t <= |r.ready|
  {
    if Idle(r.core[..c]) <= |r.ready| then Idle(r.core[..c]) else |r.ready|
  }

  lemma IdleNext(core: seq<int>, c: nat)
    requires c < |core|
    ensures Idle(core[..c + 1]) == Idle(core[..c]) + if core[c] == -1 then 1 else 0
  {
    assert core[..c + 1][..c] == core[..c];
  }

  lemma {:induction false} FillTakes(r: RR, c: nat, quantum: int)
    requires |r.core| == |r.slice| && c <= |r.core|
    ensures Fill(r, c, quantum).ready == r.ready[Taken(r, c)..]
    ensures forall d :: c <= d < |r.core| ==> Fill(r, c, quantum).core[d] == r.core[d]
  {
    if c > 0 {
      FillTakes(r, c - 1, quantum);
      IdleNext(r.core, c - 1);
    }
  }

  lemma {:induction false} FillPlaces(r: RR, c: nat, quantum: int, k: nat)
    requires |r.core| == |r.slice| && c <= |r.core| && k < Taken(r, c) && -1 !in r.ready
    ensures r.ready[k] in Fill(r, c, quantum).core
  {
    FillTakes(r, c - 1, quantum);
    IdleNext(r.core, c - 1);
    var p, f := Fill(r, c - 1, quantum), Fill(r, c, quantum);
    if k == Taken(r, c - 1) {
      assert f.core[c - 1] == r.ready[k];
    } else {
      FillPlaces(r, c - 1, quantum, k);
      var d :| 0 <= d < |p.core| && p.core[d] == r.ready[k];
      if d == c - 1 {
        assert p.core[d] == r.core[d];
        FillKeepsCore(r, c, quantum, d);
      } else {
        assert f.core[d] == p.core[d];
      }
    }
  }

  /** A busy core keeps its thread and slice; an idle one gets a full slice if threads do not run out. */
  lemma {:induction false} FillKeepsCore(r: RR, c: nat, quantum: int, d: nat)
    requires |r.core| == |r.slice| && c <= |r.core| && d < |r.core|
    ensures var f := Fill(r, c, quantum);
            if r.core[d] != -1 || d >= c then f.core[d] == r.core[d] && f.slice[d] == r.slice[d]
            else Idle(r.core[..c]) <= |r.ready| ==> f.slice[d] == quantum && f.core[d] in r.ready
  {
    if c > 0 {
      FillKeepsCore(r, c - 1, quantum, d);
      FillTakes(r, c - 1, quantum);
      IdleNext(r.core, c - 1);
    }
  }

  // ----- The bound

  /** As dispatch leaves it while threads are waiting: every core busy, with some slice left. */
  ghost predicate Served(r: RR, quantum: int)
  {
    && |r.core| == |r.slice|
    && -1 !in r.ready
    && forall c :: 0 <= c < |r.core| ==> r.core[c] != -1 && 1 <= r.slice[c] <= quantum
  }

  ghost predicate Freed(r: RR, done: set<int>, c: int)
    requires 0 <= c < |r.core| == |r.slice|
  {
    c in done || r.slice[c] == 1
  }

  /** Core by core: whether it has taken a new thread. */
  ghost function FreedCores(r: RR, done: set<int>): (freed: seq<bool>)
    requires |r.core| == |r.slice|
    ensures |freed| == |r.core| && forall c :: 0 <= c < |r.core| ==> freed[c] == Freed(r, done, c)
  {
    seq(|r.core|, c requires 0 <= c < |r.core| => Freed(r, done, c))
  }

  ghost function Count(flags: seq<bool>): nat
  {
    if flags == [] then 0 else Count(flags[..|flags| - 1]) + if flags[|flags| - 1] then 1 else 0
  }

  lemma {:induction false} IdleIsCount(core: seq<int>, flags: seq<bool>)
    requires |core| == |flags| && forall c :: 0 <= c < |core| ==> (core[c] == -1 <==> flags[c])
    ensures Idle(core) == Count(flags)
  {
    if core != [] {
      var n := |core| - 1;
      IdleIsCount(core[..n], flags[..n]);
    }
  }

  lemma FreedAreIdle(r: RR, done: set<int>, arrivals: seq<int>, quantum: int, p: RR)
    requires Served(r, quantum)
    requires var w := Finish(Work(r), done); p == Preempt(w.(ready := w.ready + arrivals), |r.core|)
    ensures p.core[..|r.core|] == p.core && Idle(p.core) == Count(FreedCores(r, done))
    ensures forall c :: 0 <= c < |r.core| ==> (p.core[c] == -1 <==> Freed(r, done, c))
  {
    var w := Finish(Work(r), done);
    PreemptFacts(w.(ready := w.ready + arrivals), |r.core|);
    IdleIsCount(p.core, FreedCores(r, done));
  }

  /** One tick for a thread at position `k`: it gets a core, or moves up by one place per freed core. */
  lemma TickMovesUp(r: RR, done: set<int>, arrivals: seq<int>, quantum: int, k: nat)
    requires quantum >= 1 && Served(r, quantum) && k < |r.ready| && -1 !in arrivals
    ensures var r', f := Tick(r, done, arrivals, quantum), Count(FreedCores(r, done));
            |r'.core| == |r'.slice| == |r.core| &&
            if k < f then r.ready[k] in r'.core
            else && k - f < |r'.ready| && r'.ready[k - f] == r.ready[k]
                 && Served(r', quantum)
                 && forall c :: 0 <= c < |r.core| ==>
                      r'.slice[c] == if Freed(r, done, c) then quantum else r.slice[c] - 1
  {
    var n := |r.core|;
    var w := Finish(Work(r), done);
    var joined := w.(ready := w.ready + arrivals);
    var p := Preempt(joined, n);
    FreedAreIdle(r, done, arrivals, quantum, p);
    PreemptFacts(joined, n);
    PreemptKeepsReal(joined, n);
    FillTakes(p, n, quantum);
    assert r.ready <= p.ready && p.ready[k] == r.ready[k];
    if k < Count(FreedCores(r, done)) {
      FillPlaces(p, n, quantum, k);
    } else {
      forall c: nat | c < n
        ensures var r' := Tick(r, done, arrivals, quantum);
                r'.core[c] != -1 && r'.slice[c] == if Freed(r, done, c) then quantum else r.slice[c] - 1
      {
        FillKeepsCore(p, n, quantum, c);
        assert FreedCores(r, done)[c] == Freed(r, done, c);
      }
    }
  }

  lemma {:induction false} PreemptKeepsReal(r: RR, c: nat)
    requires |r.core| == |r.slice| && c <= |r.core| && -1 !in r.ready
    ensures -1 !in Preempt(r, c).ready
  {
    if c > 0 {
      PreemptKeepsReal(r, c - 1);
    }
  }

  // ----- Dispatch serves whoever can be served

  ghost predicate SlicesWithin(r: RR, low: int, high: int)
  {
    |r.core| == |r.slice| && -1 !in r.ready && forall c :: 0 <= c < |r.core| && r.core[c] != -1 ==>
        low <= r.slice[c] <= high
  }

  ghost predicate Starts(r: RR, quantum: int)
  {
    SlicesWithin(r, 1, quantum) && (r.ready != [] ==> Served(r, quantum))
  }

  /** After a dispatch every running thread has some slice left, and nobody waits while a core is idle. */
  lemma DispatchServes(r: RR, quantum: int)
    requires SlicesWithin(r, 0, FullSlice(quantum))
    ensures Starts(Dispatch(r, quantum), FullSlice(quantum))
  {
    var n, slice := |r.core|, FullSlice(quantum);
    var p := Preempt(r, n);
    PreemptFacts(r, n);
    PreemptKeepsReal(r, n);
    FillTakes(p, n, slice);
    assert p.core[..n] == p.core;
    forall c: nat | c < n
      ensures var f := Fill(p, n, slice);
              (f.core[c] != -1 ==> 1 <= f.slice[c] <= slice) && (f.ready != [] ==> f.core[c] != -1)
    {
      FillServes(p, slice, c);
    }
  }

  lemma FillServes(p: RR, quantum: int, c: nat)
    requires quantum >= 1 && SlicesWithin(p, 1, quantum) && c < |p.core|
    ensures var f := Fill(p, |p.core|, quantum);
            (f.core[c] != -1 ==> 1 <= f.slice[c] <= quantum) && (f.ready != [] ==> f.core[c] != -1)
  {
    var n := |p.core|;
    FillKeepsCore(p, n, quantum, c);
    FillTakes(p, n, quantum);
    if p.core[c] == -1 {
      FillSlice(p, n, quantum, c);
    }
  }

  lemma {:induction false} FillSlice(r: RR, c: nat, quantum: int, d: nat)
    requires |r.core| == |r.slice| && c <= |r.core| && d < |r.core| && r.core[d] == -1
    ensures Fill(r, c, quantum).core[d] != -1 ==> Fill(r, c, quantum).slice[d] == quantum
  {
    if c > 0 {
      FillSlice(r, c - 1, quantum, d);
    }
  }

  /** Every state of a run that starts with a dispatch is one a dispatch leaves. */
  lemma {:induction false} RunStaysServed(run: seq<RR>, done: seq<set<int>>, arrivals: seq<seq<int>>, quantum: int,
                                          u: nat)
    requires quantum >= 1 && IsRun(run, done, arrivals, quantum) && u < |run|
    requires Starts(run[0], quantum)
    ensures Starts(run[u], quantum)
  {
    if u > 0 {
      RunStaysServed(run, done, arrivals, quantum, u - 1);
      assert RunAt(run, done, arrivals, quantum, u - 1);
      var f := Finish(Work(run[u - 1]), done[u - 1]);
      assert FullSlice(quantum) == quantum;
      DispatchServes(f.(ready := f.ready + arrivals[u - 1]), quantum);
    }
  }

  /** A run: `run[u + 1]` is the next dispatch after `run[u]`, with any completions and arrivals in between. */
  ghost predicate RunAt(run: seq<RR>, done: seq<set<int>>, arrivals: seq<seq<int>>, quantum: int, u: nat)
    requires u + 1 < |run| && |done| == |arrivals| == |run|
  {
    |run[u].core| == |run[u].slice| && -1 !in arrivals[u] && run[u + 1] == Tick(run[u], done[u], arrivals[u], quantum)
  }

  ghost predicate IsRun(run: seq<RR>, done: seq<set<int>>, arrivals: seq<seq<int>>, quantum: int)
  {
    && |done| == |arrivals| == |run|
    && forall u :: 0 <= u < |run| - 1 ==> RunAt(run, done, arrivals, quantum, u)
  }

  ghost function Either(a: seq<bool>, b: seq<bool>): (r: seq<bool>)
    requires |a| == |b|
    ensures |r| == |a| && forall i :: 0 <= i < |a| ==> r[i] == (a[i] || b[i])
  {
    seq(|a|, i requires 0 <= i < |a| => a[i] || b[i])
  }

  lemma {:induction false} CountEither(a: seq<bool>, b: seq<bool>)
    requires |a| == |b|
    ensures Count(Either(a, b)) <= Count(a) + Count(b)
  {
    if a != [] {
      var n := |a| - 1;
      CountEither(a[..n], b[..n]);
      assert Either(a, b)[..n] == Either(a[..n], b[..n]);
    }
  }

  lemma {:induction false} CountAll(flags: seq<bool>)
    ensures (forall i :: 0 <= i < |flags| ==> flags[i]) ==> Count(flags) == |flags|
    ensures (forall i :: 0 <= i < |flags| ==> !flags[i]) ==> Count(flags) == 0
  {
    if flags != [] {
      CountAll(flags[..|flags| - 1]);
    }
  }

  /** `j` ticks after `from` the thread has had a core, or it has moved up one
      place per core freed and every other core is `j` ticks into its slice. */
  lemma {:induction false} WithinWindow(run: seq<RR>, done: seq<set<int>>, arrivals: seq<seq<int>>, quantum: int,
                                        from: nat, k: nat, x: int, j: nat)
    returns (bound: bool, at: nat, k': nat, freed: seq<bool>)
    requires quantum >= 1 && IsRun(run, done, arrivals, quantum)
    requires from + j < |run| && Served(run[from], quantum) && k < |run[from].ready| && run[from].ready[k] == x
    ensures bound ==> from <= at <= from + j && x in run[at].core
    ensures !bound ==>
              var r := run[from + j];
              && Served(r, quantum) && |r.core| == |run[from].core| == |freed|
              && k' < |r.ready| && r.ready[k'] == x && k' + Count(freed) <= k
              && forall c :: 0 <= c < |r.core| ==> freed[c] || r.slice[c] <= quantum - j
  {
    if j == 0 {
      bound, at, k' := false, from, k;
      freed := seq(|run[from].core|, _ => false);
      CountAll(freed);
    } else {
      bound, at, k', freed := WithinWindow(run, done, arrivals, quantum, from, k, x, j - 1);
      if !bound {
        var u := from + j - 1;
        assert RunAt(run, done, arrivals, quantum, u);
        var now := FreedCores(run[u], done[u]);
        TickMovesUp(run[u], done[u], arrivals[u], quantum, k');
        if k' < Count(now) {
          bound, at := true, from + j;
        } else {
          CountEither(freed, now);
          k', freed := k' - Count(now), Either(freed, now);
        }
      }
    }
  }

  /** Ticks that suffice for position `k`: one quantum per round of `cores` threads. */
  ghost function Wait(k: nat, cores: nat, quantum: nat): nat
    requires cores >= 1
    decreases k
  {
    quantum + if k < cores then 0 else Wait(k - cores, cores, quantum)
  }

  lemma {:induction false} WaitMonotone(j: nat, k: nat, cores: nat, quantum: nat)
    requires cores >= 1 && j <= k
    ensures Wait(j, cores, quantum) <= Wait(k, cores, quantum)
    decreases k
  {
    if j >= cores {
      WaitMonotone(j - cores, k - cores, cores, quantum);
    }
  }

  lemma {:induction false} WaitFormula(k: nat, cores: nat, quantum: nat)
    requires cores >= 1
    ensures Wait(k, cores, quantum) == (k / cores + 1) * quantum
    decreases k
  {
    if k < cores {
      SmallQuotient(k, cores);
    } else {
      WaitFormula(k - cores, cores, quantum);
      QuotientStep(k, cores);
      var q := (k - cores) / cores;
      assert (q + 2) * quantum == (q + 1) * quantum + quantum;
    }
  }

  lemma QuotientStep(k: nat, n: nat)
    requires 1 <= n <= k
    ensures k / n == (k - n) / n + 1
  {
    var q, r := (k - n) / n, (k - n) % n;
    assert k == n * (q + 1) + r by {
      assert k - n == n * q + r;
      assert n * (q + 1) == n * q + n;
    }
    Remainder(k, n, q + 1, r);
  }

  /** To the end of the run: the thread is on a core at some point, or still in the queue. */
  lemma {:induction false} StillWaiting(run: seq<RR>, done: seq<set<int>>, arrivals: seq<seq<int>>, quantum: int,
                                        from: nat, k: nat)
    returns (bound: bool, at: nat)
    requires quantum >= 1 && IsRun(run, done, arrivals, quantum)
    requires from < |run| && Served(run[from], quantum) && k < |run[from].ready|
    ensures from <= at < |run|
    ensures if bound then run[from].ready[k] in run[at].core
            else at == |run| - 1 && run[from].ready[k] in run[at].ready
    decreases |run| - from
  {
    if from == |run| - 1 {
      return false, from;
    }
    assert RunAt(run, done, arrivals, quantum, from);
    TickMovesUp(run[from], done[from], arrivals[from], quantum, k);
    var freed := Count(FreedCores(run[from], done[from]));
    if k < freed {
      return true, from + 1;
    }
    var next := from + 1;
    bound, at := StillWaiting(run, done, arrivals, quantum, next, k - freed);
  }

  lemma {:induction false} NoStarvationFrom(run: seq<RR>, done: seq<set<int>>, arrivals: seq<seq<int>>, quantum: nat,
                                        from: nat, k: nat)
    returns (bound: bool, at: nat)
    requires quantum >= 1 && IsRun(run, done, arrivals, quantum)
    requires |run| > 0 && Starts(run[0], quantum)
    requires from < |run| && |run[from].core| >= 1 && k < |run[from].ready|
    ensures from <= at < |run|
    ensures if bound then at <= from + (k / |run[from].core| + 1) * quantum && run[from].ready[k] in run[at].core
            else |run| <= from + (k / |run[from].core| + 1) * quantum && run[from].ready[k] in run[|run| - 1].ready
  {
    RunStaysServed(run, done, arrivals, quantum, from);
    WaitFormula(k, |run[from].core|, quantum);
    if from + Wait(k, |run[from].core|, quantum) < |run| {
      bound := true;
      at := WaitedOut(run, done, arrivals, quantum, from, k);
    } else {
      bound, at := StillWaiting(run, done, arrivals, quantum, from, k);
    }
  }

  /** What counts is the full slice. */
  lemma RunWithFullSlices(run: seq<RR>, done: seq<set<int>>, arrivals: seq<seq<int>>, quantum: int)
    requires IsRun(run, done, arrivals, quantum)
    ensures IsRun(run, done, arrivals, FullSlice(quantum))
  {
    forall u | 0 <= u < |run| - 1
      ensures RunAt(run, done, arrivals, FullSlice(quantum), u)
    {
      assert RunAt(run, done, arrivals, quantum, u);
      assert FullSlice(FullSlice(quantum)) == FullSlice(quantum);
    }
  }

  /** No starvation: in a run that starts with a dispatch, a thread with `k` others ahead of it is on a core within
      `(k / cores + 1) * FullSlice(quantum)` ticks, unless the run stops before that with the thread still in the
      queue. */
  lemma NoStarvation(run: seq<RR>, done: seq<set<int>>, arrivals: seq<seq<int>>, quantum: int, from: nat, k: nat)
    returns (bound: bool, at: nat)
    requires IsRun(run, done, arrivals, quantum) && |run| > 0 && Starts(run[0], FullSlice(quantum))
    requires from < |run| && |run[from].core| >= 1 && k < |run[from].ready|
    ensures from <= at < |run|
    ensures var last := from + (k / |run[from].core| + 1) * FullSlice(quantum);
            if bound then at <= last && run[from].ready[k] in run[at].core
            else |run| <= last && run[from].ready[k] in run[|run| - 1].ready
  {
    RunWithFullSlices(run, done, arrivals, quantum);
    bound, at := NoStarvationFrom(run, done, arrivals, FullSlice(quantum), from, k);
  }

  ghost predicate EndsEmpty(run: seq<RR>)
  {
    |run| > 0 && run[|run| - 1].ready == []
  }

  /** A run from a dispatch to an empty queue. */
  ghost predicate IsComplete(run: seq<RR>, done: seq<set<int>>, arrivals: seq<seq<int>>, quantum: int)
  {
    IsRun(run, done, arrivals, quantum) && EndsEmpty(run) && Starts(run[0], FullSlice(quantum))
  }

  /** When the queue is empty at the end, everybody has had a core in time. */
  lemma NobodyLeftWaiting(run: seq<RR>, done: seq<set<int>>, arrivals: seq<seq<int>>, quantum: int, cores: nat,
                          from: nat, k: nat)
    returns (at: nat)
    requires IsComplete(run, done, arrivals, quantum)
    requires from < |run| && |run[from].core| == cores >= 1 && k < |run[from].ready|
    ensures from <= at < |run| && at <= from + (k / cores + 1) * FullSlice(quantum)
    ensures run[from].ready[k] in run[at].core
  {
    var bound;
    bound, at := NoStarvation(run, done, arrivals, quantum, from, k);
  }

  lemma {:induction false} WaitedOut(run: seq<RR>, done: seq<set<int>>, arrivals: seq<seq<int>>, quantum: nat,
                                     from: nat, k: nat) returns (at: nat)
    requires quantum >= 1 && IsRun(run, done, arrivals, quantum)
    requires from < |run| && Served(run[from], quantum) && |run[from].core| >= 1 && k < |run[from].ready|
    requires from + Wait(k, |run[from].core|, quantum) < |run|
    ensures from <= at <= from + Wait(k, |run[from].core|, quantum)
    ensures run[from].ready[k] in run[at].core
    decreases k
  {
    var cores := |run[from].core|;
    var bound, a, k', freed := WithinWindow(run, done, arrivals, quantum, from, k, run[from].ready[k], quantum);
    if bound {
      at := a;
    } else {
      CountAll(freed);
      WaitMonotone(k', k - cores, cores, quantum);
      at := WaitedOut(run, done, arrivals, quantum, from + quantum, k');
    }
  }
}
