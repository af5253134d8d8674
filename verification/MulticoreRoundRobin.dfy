/** The simulator's round-robin dispatch and ticks, seen as those of RoundRobin. */
module MulticoreRoundRobin {
  import opened MulticoreState
  import opened MulticoreDispatch
  import RR = RoundRobin

  /** Each busy core's slice is the remaining quantum of the thread on it. */
  ghost function SliceOf(s: Sim, c: nat): int
    requires c < |s.core|
  {
    if 0 <= s.core[c] < |s.threads| then s.threads[s.core[c]].quantaRem else 0
  }

  ghost function View(s: Sim): (r: RR.RR)
    ensures r.ready == s.ready && r.core == s.core && |r.slice| == |s.core|
    ensures forall c :: 0 <= c < |s.core| ==> r.slice[c] == SliceOf(s, c)
  {
    RR.RR(s.ready, s.core, seq(|s.core|, c requires 0 <= c < |s.core| => SliceOf(s, c)))
  }

  lemma UnbindStep(s0: Sim, s: Sim, c: nat)
    requires Dispatched(s0, s) && c < |s.core| && 0 <= s.core[c] < |s.threads|
    ensures Dispatched(s0, Unbind(s, c))
  {
    CoreChange(s.core, c, 0);
    var u := Unbind(s, c);
    assert multiset(u.ready) + OnCores(u.core) == multiset(s.ready) + OnCores(s.core);
    forall j | 0 <= j < |s0.threads|
      ensures SameWork(s0.threads[j], u.threads[j])
    {
      assert SameWork(s0.threads[j], s.threads[j]);
    }
  }

  /** The thread on core `c` is put back in the queue if its slice is used up. */
  function WithoutExpired(s: Sim, c: nat): (s': Sim)
    requires c < |s.core|
    ensures |s'.core| == |s.core|
  {
    if 0 <= s.core[c] < |s.threads| && s.threads[s.core[c]].quantaRem == 0 then Unbind(s, c) else s
  }

  lemma PreemptStep(s0: Sim, s: Sim, r: RR.RR, c: nat)
    requires |r.core| == |r.slice| == |s.core| && c < |s.core|
    requires Indexed(s0) && Dispatched(s0, s) && Indexed(s) && View(s) == RR.Preempt(r, c)
    ensures var next := WithoutExpired(s, c);
            Dispatched(s0, next) && Indexed(next) && View(next) == RR.Preempt(r, c + 1)
  {
    if s.core[c] != -1 && s.threads[s.core[c]].quantaRem == 0 {
      UnbindStep(s0, s, c);
      DispatchedIndexed(s0, Unbind(s, c));
      UnbindView(s, c);
    } else if s.core[c] != -1 {
      assert SliceOf(s, c) != 0;
    }
  }

  lemma UnbindView(s: Sim, c: nat)
    requires c < |s.core| && 0 <= s.core[c] < |s.threads| && SliceOf(s, c) == 0
    ensures View(Unbind(s, c)) == RR.RR(s.ready + [s.core[c]], s.core[c := -1], View(s).slice)
  {
    forall d | 0 <= d < |s.core|
      ensures SliceOf(Unbind(s, c), d) == SliceOf(s, d)
    {
    }
  }

  /** The threads on cores before `c` whose slice is used up have been put back, in order. */
  function WithoutExpiredBefore(s: Sim, c: nat): (s': Sim)
    requires c <= |s.core|
    ensures |s'.core| == |s.core|
  {
    if c == 0 then s else WithoutExpired(WithoutExpiredBefore(s, c - 1), c - 1)
  }

  lemma {:induction false} AllPreempted(s: Sim, c: nat)
    requires c <= |s.core| && EachOnce(s) && Indexed(s)
    ensures var s' := WithoutExpiredBefore(s, c);
            Dispatched(s, s') && Indexed(s') && View(s') == RR.Preempt(View(s), c)
  {
    if c > 0 {
      AllPreempted(s, c - 1);
      PreemptStep(s, WithoutExpiredBefore(s, c - 1), View(s), c - 1);
    }
  }

  lemma PreemptedIndexed(s: Sim, c: nat)
    requires c <= |s.core| && EachOnce(s) && Indexed(s)
    ensures Indexed(WithoutExpiredBefore(s, c))
  {
    AllPreempted(s, c);
  }

  /** The queue's head goes to idle core `c` with a full slice. */
  function BindFresh(s: Sim, c: nat, quantum: int): Sim
    requires c < |s.core| && s.ready != [] && 0 <= s.ready[0] < |s.threads|
  {
    var i := s.ready[0];
    Bind(WithSlice(s.(ready := s.ready[1..]), i, quantum), c, i)
  }

  lemma BindFreshDispatches(s0: Sim, s: Sim, c: nat, quantum: int)
    requires Indexed(s0) && Dispatched(s0, s) && c < |s.core| && s.core[c] == -1
    requires s.ready != [] && 0 <= s.ready[0] < |s.threads|
    ensures Dispatched(s0, BindFresh(s, c, quantum))
  {
    var i, rest := s.ready[0], s.(ready := s.ready[1..]);
    TakeHead(s0, s);
    SliceGiven(s0, rest, i, quantum);
    var taken := WithSlice(rest, i, quantum);
    BindCompletes(s0, taken, c, i);
    assert BindFresh(s, c, quantum) == Bind(taken, c, i);
  }

  lemma TakeHead(s0: Sim, s: Sim)
    requires Dispatched(s0, s) && s.ready != [] && 0 <= s.ready[0] < |s.threads|
    ensures DispatchedButFor(s0, s.(ready := s.ready[1..]), s.ready[0])
  {
    var head, rest := s.ready[0], s.ready[1..];
    assert s.ready == [head] + rest;
    assert multiset(rest) + OnCores(s.core) + multiset{head} == multiset(s.ready) + OnCores(s.core);
  }

  function WithSlice(s: Sim, i: int, quantum: int): Sim
    requires 0 <= i < |s.threads|
  {
    s.(threads := s.threads[i := s.threads[i].(quantaRem := quantum)])
  }

  lemma SliceGiven(s0: Sim, s: Sim, i: int, quantum: int)
    requires DispatchedButFor(s0, s, i)
    ensures DispatchedButFor(s0, WithSlice(s, i, quantum), i)
  {
    forall j | 0 <= j < |s0.threads|
      ensures SameWork(s0.threads[j], WithSlice(s, i, quantum).threads[j])
    {
      assert SameWork(s0.threads[j], s.threads[j]);
    }
  }

  lemma FillStep(s0: Sim, s: Sim, r: RR.RR, c: nat, quantum: int)
    requires |r.core| == |r.slice| == |s.core| && c < |s.core|
    requires EachOnce(s0) && Indexed(s0) && Dispatched(s0, s) && Indexed(s)
    requires s.core[c] == -1 && s.ready != [] && View(s) == RR.Fill(r, c, quantum)
    requires 0 <= s.ready[0] < |s.threads|
    ensures var next := BindFresh(s, c, quantum);
            Dispatched(s0, next) && Indexed(next) && View(next) == RR.Fill(r, c + 1, quantum)
  {
    BindFreshDispatches(s0, s, c, quantum);
    var next := BindFresh(s, c, quantum);
    DispatchedIndexed(s0, next);
    DispatchOnce(s0, s);
    assert s.ready[0] in s.ready;
    PlacedOnce(s, s.ready[0]);
    forall d | 0 <= d < |s.core| && d != c && s.core[d] != -1
      ensures SliceOf(next, d) == SliceOf(s, d)
    {
      assert s.core[d] in s.core;
    }
  }

  /** Core `c`, if idle, takes the queue's head. */
  function FilledCore(s: Sim, c: nat, quantum: int): (s': Sim)
    requires c < |s.core|
    ensures |s'.core| == |s.core|
  {
    if s.core[c] == -1 && s.ready != [] && 0 <= s.ready[0] < |s.threads| then BindFresh(s, c, quantum) else s
  }

  function FilledCores(s: Sim, c: nat, quantum: int): (s': Sim)
    requires c <= |s.core|
    ensures |s'.core| == |s.core|
  {
    if c == 0 then s else FilledCore(FilledCores(s, c - 1, quantum), c - 1, quantum)
  }

  ghost predicate FilledUpTo(s0: Sim, s: Sim, c: nat, quantum: int)
  {
    && c <= |s.core| == |s0.core| && Dispatched(s0, s) && Indexed(s)
    && (-1 !in s.core[..c] || s.ready == [])
    && View(s) == RR.Fill(View(s0), c, quantum)
  }

  lemma FillNext(s0: Sim, s: Sim, c: nat, quantum: int)
    requires EachOnce(s0) && Indexed(s0) && FilledUpTo(s0, s, c, quantum) && c < |s.core|
    ensures FilledUpTo(s0, FilledCore(s, c, quantum), c + 1, quantum)
  {
    assert s.core[..c + 1] == s.core[..c] + [s.core[c]];
    if s.core[c] == -1 && s.ready != [] {
      assert s.ready[0] in s.ready;
      FillStep(s0, s, View(s0), c, quantum);
      OthersStay(s.core, c, s.ready[0]);
    }
  }

  lemma {:induction false} FilledSoFar(s: Sim, c: nat, quantum: int)
    requires EachOnce(s) && Indexed(s) && c <= |s.core|
    ensures FilledUpTo(s, FilledCores(s, c, quantum), c, quantum)
  {
    if c > 0 {
      FilledSoFar(s, c - 1, quantum);
      FillNext(s, FilledCores(s, c - 1, quantum), c - 1, quantum);
    }
  }

  lemma FilledIndexed(s: Sim, c: nat, quantum: int)
    requires EachOnce(s) && Indexed(s) && c <= |s.core|
    ensures Indexed(FilledCores(s, c, quantum))
  {
    FilledSoFar(s, c, quantum);
  }

  /** Filling every core: round robin's `Fill`, which leaves no core idle while somebody is ready. */
  lemma AllFilled(s: Sim, quantum: int)
    requires EachOnce(s) && Indexed(s)
    ensures var s' := FilledCores(s, |s.core|, quantum);
            && Dispatched(s, s') && Indexed(s') && (-1 !in s'.core || s'.ready == [])
            && View(s') == RR.Fill(View(s), |s.core|, quantum)
  {
    FilledSoFar(s, |s.core|, quantum);
    var s' := FilledCores(s, |s.core|, quantum);
    assert s'.core[..|s.core|] == s'.core;
  }

  lemma {:induction false} FillStops(s: Sim, c: nat, quantum: int)
    requires c <= |s.core| && FilledCores(s, c, quantum).ready == []
    ensures FilledCores(s, |s.core|, quantum) == FilledCores(s, c, quantum)
    decreases |s.core| - c
  {
    if c < |s.core| {
      FillStops(s, c + 1, quantum);
    }
  }

  // ----- Whole ticks

  function Between(s: Sim): Sim
  {
    Resolve(Admit(TickWork(s)))
  }

  ghost function DoneCores(s: Sim): set<int>
  {
    set c | 0 <= c < |s.core| && 0 <= s.core[c] < |s.threads| && Worked(s.threads[s.core[c]]).remaining == 0
  }

  ghost function Joining(t: Sim): seq<int>
  {
    Filter(t.workload, IsDue(t.threads, t.now)) + Filter(t.waiting, IsUnblocked(Admit(t).threads, t.now))
  }

  lemma ArrivalsJoin(t: Sim)
    ensures View(Resolve(Admit(t))) == View(t).(ready := t.ready + Joining(t))
  {
    var s' := Resolve(Admit(t));
    assert s'.ready == t.ready + Joining(t);
    forall c | 0 <= c < |t.core|
      ensures SliceOf(s', c) == SliceOf(t, c)
    {
    }
  }

  lemma WorkIsARound(s: Sim, c: nat)
    requires Indexed(s) && EachOnce(s) && c < |s.core|
    ensures var t, f := TickWork(s), RR.Finish(RR.Work(View(s)), DoneCores(s));
            t.ready == s.ready && |t.core| == |s.core| && t.core[c] == f.core[c] && SliceOf(t, c) == f.slice[c]
  {
    var b := Decay(CpuStep(Bump(s)));
    CollectedCore(b, |s.core|, c);
    if 0 <= s.core[c] {
      assert s.core[c] in s.core;
      PlacedOnce(s, s.core[c]);
    }
  }

  /** What happens between two dispatches is a round of work, completions and arrivals. */
  lemma BetweenIsARound(s: Sim)
    requires Indexed(s) && EachOnce(s)
    ensures var f := RR.Finish(RR.Work(View(s)), DoneCores(s));
            View(Between(s)) == f.(ready := f.ready + Joining(TickWork(s)))
  {
    var f := RR.Finish(RR.Work(View(s)), DoneCores(s));
    var t := TickWork(s);
    forall c | 0 <= c < |s.core|
      ensures t.ready == f.ready && |t.core| == |f.core| && t.core[c] == f.core[c] && View(t).slice[c] == f.slice[c]
    {
      WorkIsARound(s, c);
    }
    assert t.ready == s.ready && |t.core| == |s.core| by {
      if |s.core| > 0 {
        WorkIsARound(s, 0);
      }
    }
    assert View(t) == f;
    ArrivalsJoin(t);
  }
}
