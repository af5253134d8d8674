/** How a run without interrupts ends: the loop stops at the first tick that leaves
    nothing active, and whether that is before the last arrival. */
module MulticoreEnds {
  import opened MulticoreState
  import opened MulticoreDispatch
  import opened MulticoreRuns

  // ----- What never changes about a thread

  ghost predicate SameJobs(a: seq<Thread>, b: seq<Thread>)
  {
    && |a| == |b|
    && forall i :: 0 <= i < |a| ==> a[i].tid == b[i].tid && a[i].arrival == b[i].arrival && a[i].burst == b[i].burst
  }

  lemma {:induction false} InterruptedSameJobs(s: Sim, draws: seq<Interrupt>, c: nat)
    requires c <= |s.core| == |draws|
    ensures SameJobs(s.threads, Interrupted(s, draws, c).threads)
  {
    if c > 0 {
      InterruptedSameJobs(s, draws, c - 1);
    }
  }

  lemma DispatchSameJobs(s: Sim, d: Sim)
    requires Dispatched(s, d)
    ensures SameJobs(s.threads, d.threads)
  {
    forall i | 0 <= i < |s.threads|
      ensures s.threads[i].tid == d.threads[i].tid && s.threads[i].arrival == d.threads[i].arrival
      ensures s.threads[i].burst == d.threads[i].burst
    {
      assert SameWork(s.threads[i], d.threads[i]);
    }
  }

  lemma WorkSameJobs(d: Sim)
    ensures SameJobs(d.threads, TickWork(d).threads)
  {
    if |d.core| > 0 {
      CollectedCore(Decay(CpuStep(Bump(d))), |d.core|, 0);
    }
  }

  lemma TickSameJobs(policy: Policy, draws: seq<Interrupt>, s: Sim, d: Sim, s': Sim)
    requires |draws| == |s.core| && Ticks(policy, draws, s, d, s')
    ensures SameJobs(s.threads, d.threads) && SameJobs(s.threads, s'.threads)
  {
    InterruptedSameJobs(Resolve(Admit(s)), draws, |s.core|);
    DispatchSameJobs(Interrupted(Resolve(Admit(s)), draws, |s.core|), d);
    WorkSameJobs(d);
  }

  // ----- Work submitted and work left

  /** Bursts of the threads that arrive before `upto`. */
  ghost function Submitted(threads: seq<Thread>, upto: int): int
  {
    if threads == [] then 0
    else
      var t := threads[|threads| - 1];
      Submitted(threads[..|threads| - 1], upto) + if 0 <= t.arrival < upto then t.burst else 0
  }

  ghost function Total(threads: seq<Thread>): int
  {
    if threads == [] then 0 else Total(threads[..|threads| - 1]) + threads[|threads| - 1].burst
  }

  lemma {:induction false} SameTotals(a: seq<Thread>, b: seq<Thread>, upto: int)
    requires SameJobs(a, b)
    ensures Total(a) == Total(b) && Submitted(a, upto) == Submitted(b, upto)
  {
    if a != [] {
      SameTotals(a[..|a| - 1], b[..|b| - 1], upto);
    }
  }

  lemma {:induction false} NothingDone(threads: seq<Thread>)
    requires forall i :: 0 <= i < |threads| ==> threads[i].remaining == threads[i].burst >= 1
    ensures WorkLeft(threads) == Total(threads)
  {
    if threads != [] {
      NothingDone(threads[..|threads| - 1]);
    }
  }

  /** Threads yet to arrive have all their work left; `i` may be one that has arrived and is not finished. */
  lemma {:induction false} WorkOfTheLate(threads: seq<Thread>, upto: int, i: int)
    requires forall j :: 0 <= j < |threads| && !(0 <= threads[j].arrival < upto) ==>
               threads[j].remaining == threads[j].burst >= 1
    ensures WorkLeft(threads) + Submitted(threads, upto) >= Total(threads)
    ensures 0 <= i < |threads| && threads[i].remaining >= 1 && 0 <= threads[i].arrival < upto ==>
              WorkLeft(threads) + Submitted(threads, upto) > Total(threads)
    ensures (forall j :: 0 <= j < |threads| && 0 <= threads[j].arrival < upto ==> threads[j].remaining == 0) ==>
              WorkLeft(threads) + Submitted(threads, upto) == Total(threads)
  {
    if threads != [] {
      WorkOfTheLate(threads[..|threads| - 1], upto, i);
    }
  }

  /** No more work is done than there are busy threads. */
  lemma {:induction false} WorkFalls(a: seq<Thread>, b: seq<Thread>, busy: set<int>)
    requires |a| == |b|
    requires forall j :: 0 <= j < |a| ==> b[j].remaining >= a[j].remaining - if j in busy then 1 else 0
    ensures WorkLeft(a) <= WorkLeft(b) + |busy|
  {
    if a != [] {
      var n := |a| - 1;
      WorkFalls(a[..n], b[..n], busy - {n});
    }
  }

  lemma {:induction false} MembersBound(q: seq<int>)
    ensures |set x | x in q| <= |q|
  {
    if q != [] {
      var n := |q| - 1;
      MembersBound(q[..n]);
      assert (set x | x in q) == (set x | x in q[..n]) + {q[n]};
    }
  }

  lemma TickWorkSize(d: Sim)
    ensures |TickWork(d).threads| == |d.threads|
  {
  }

  /** A tick does at most one unit of work per core. */
  lemma WorkPerTick(d: Sim)
    ensures WorkLeft(d.threads) <= WorkLeft(TickWork(d).threads) + |d.core|
  {
    var busy := set i | i in d.core;
    MembersBound(d.core);
    TickWorkSize(d);
    forall j | 0 <= j < |d.threads|
      ensures TickWork(d).threads[j].remaining >= d.threads[j].remaining - if j in busy then 1 else 0
    {
      TickWorkThread(d, j);
    }
    WorkFalls(d.threads, TickWork(d).threads, busy);
  }

  // ----- Which tick is the last

  /** A tick is the last exactly when nobody was left over by its dispatch and every running thread was about to finish;
      whether anybody is still to come, at that moment or later, makes no difference. */
  lemma LastTickIff(d: Sim, io: seq<int>)
    requires Good(d, io)
    ensures Drained(TickWork(d)) <==>
              && d.ready == [] && d.waiting == []
              && forall c :: 0 <= c < |d.core| && d.core[c] != -1 ==>
                   0 <= d.core[c] < |d.threads| && d.threads[d.core[c]].remaining == 1
  {
    var b := Decay(CpuStep(Bump(d)));
    var s' := TickWork(d);
    GoodIsIndexed(d);
    forall c | 0 <= c < |d.core|
      ensures |s'.core| == |d.core| && (s'.core[c] == -1 <==> d.core[c] == -1 || d.threads[d.core[c]].remaining == 1)
    {
      CollectedCore(b, |d.core|, c);
      if d.core[c] != -1 {
        assert d.core[c] in d.core;
        assert Accounted(d, io, d.core[c]);
      }
    }
  }

  // ----- Over a whole run

  /** At loop head `s`: at least one unit of work was done in each tick but the last, at most one per core in each. */
  ghost predicate OnPace(s: Sim, done: bool)
  {
    && Total(s.threads) - |s.core| * s.now <= WorkLeft(s.threads)
    && (!done ==> WorkLeft(s.threads) + s.now <= Total(s.threads))
    && forall t :: 1 <= t < s.now || (1 <= t == s.now && !done) ==> Submitted(s.threads, t) > t
  }

  lemma PaceStarts(s: Sim, io: seq<int>)
    requires Good(s, io) && StillToCome(s, 0) && s.now == 0
    ensures OnPace(s, false)
  {
    forall i | 0 <= i < |s.threads|
      ensures s.threads[i].remaining == s.threads[i].burst >= 1
    {
      assert i in s.workload && Accounted(s, io, i);
    }
    NothingDone(s.threads);
  }

  /** The work that has arrived by loop head `s`, against the work done. */
  lemma WorkAtHead(s: Sim, io: seq<int>)
    requires Good(s, io) && StillToCome(s, s.now)
    ensures Drained(s) ==> WorkLeft(s.threads) + Submitted(s.threads, s.now) == Total(s.threads)
    ensures !Drained(s) ==> WorkLeft(s.threads) + Submitted(s.threads, s.now) > Total(s.threads)
  {
    forall j | 0 <= j < |s.threads|
      ensures !(0 <= s.threads[j].arrival < s.now) ==> s.threads[j].remaining == s.threads[j].burst >= 1
      ensures Drained(s) && 0 <= s.threads[j].arrival < s.now ==> s.threads[j].remaining == 0
    {
      assert Accounted(s, io, j);
      if Drained(s) {
        WhoHasFinished(s, io, j);
      }
    }
    if Drained(s) {
      WorkOfTheLate(s.threads, s.now, 0);
    } else {
      var i := SomebodyActive(s);
      PlacedOnce(s, i);
      assert Accounted(s, io, i);
      WorkOfTheLate(s.threads, s.now, i);
    }
  }

  lemma SomebodyActive(s: Sim) returns (i: int)
    requires !Drained(s)
    ensures Active(s, i)
  {
    if s.ready != [] {
      i := s.ready[0];
    } else if s.waiting != [] {
      i := s.waiting[0];
    } else {
      var c :| 0 <= c < |s.core| && s.core[c] != -1;
      i := s.core[c];
    }
  }

  lemma NextMultiple(n: nat, t: int)
    ensures n * (t + 1) == n * t + n
  {
  }

  lemma PaceKept(s: Sim, s': Sim, io: seq<int>)
    requires OnPace(s, false) && s.now >= 0 && Good(s', io) && StillToCome(s', s'.now)
    requires SameJobs(s.threads, s'.threads) && |s'.core| == |s.core| && s'.now == s.now + 1
    requires WorkLeft(s.threads) <= WorkLeft(s'.threads) + |s.core|
    requires !Drained(s') ==> WorkLeft(s'.threads) < WorkLeft(s.threads)
    ensures OnPace(s', Drained(s'))
  {
    SameTotals(s.threads, s'.threads, 0);
    NextMultiple(|s.core|, s.now);
    WorkAtHead(s', io);
    forall t | 1 <= t < s'.now || (1 <= t == s'.now && !Drained(s'))
      ensures Submitted(s'.threads, t) > t
    {
      SameTotals(s.threads, s'.threads, t);
    }
  }

  lemma PaceGoesOn(policy: Policy, s: Sim, d: Sim, s': Sim, io: seq<int>)
    requires OnPace(s, false) && s.now >= 0 && Good(s', io) && StillToCome(s', s'.now)
    requires Ticks(policy, NoInterrupts(|s.core|), s, d, s')
    requires !Drained(s') ==> WorkLeft(s'.threads) < WorkLeft(s.threads)
    ensures OnPace(s', Drained(s'))
  {
    ClockAdvances(policy, NoInterrupts(|s.core|), s, d, s');
    TickSameJobs(policy, NoInterrupts(|s.core|), s, d, s');
    QuietDispatch(policy, s, d, s');
    SameWorkEverywhere(s, d);
    WorkStays(s.threads, d.threads);
    WorkPerTick(d);
    PaceKept(s, s', io);
  }

  // ----- Who is left behind

  ghost predicate EverybodyFinished(s: Sim)
  {
    forall i :: 0 <= i < |s.threads| ==> i in s.finished
  }

  ghost predicate SomebodyLater(threads: seq<Thread>, t: int)
  {
    exists i :: 0 <= i < |threads| && threads[i].arrival >= t
  }

  /** Until the last arrival, more work has always come in than `cores` cores can have done. */
  ghost predicate StaysBusy(threads: seq<Thread>, cores: nat)
  {
    && (forall i :: 0 <= i < |threads| ==> threads[i].arrival >= 0)
    && forall t :: 1 <= t && SomebodyLater(threads, t) ==> Submitted(threads, t) > cores * t
  }

  /** Everybody finishes if the arrivals keep all the cores busy until the last one, and only if they keep one core
      busy. */
  lemma WhoFinishesAtAll(s: Sim, io: seq<int>)
    requires Good(s, io) && Drained(s) && StillToCome(s, s.now) && s.now >= 1 && OnPace(s, true)
    ensures StaysBusy(s.threads, |s.core|) ==> EverybodyFinished(s)
    ensures EverybodyFinished(s) ==> StaysBusy(s.threads, 1)
  {
    forall i | 0 <= i < |s.threads|
      ensures i in s.finished <==> 0 <= s.threads[i].arrival < s.now
    {
      WhoHasFinished(s, io, i);
    }
    if SomebodyLater(s.threads, s.now) {
      WorkAtHead(s, io);
    }
    if EverybodyFinished(s) {
      forall t | 1 <= t && SomebodyLater(s.threads, t)
        ensures Submitted(s.threads, t) > t
      {
        assert t < s.now;
      }
    }
  }

  lemma SameBusy(a: seq<Thread>, b: seq<Thread>, cores: nat)
    requires SameJobs(a, b)
    ensures StaysBusy(a, cores) <==> StaysBusy(b, cores)
  {
    forall t
      ensures Submitted(a, t) == Submitted(b, t) && (SomebodyLater(a, t) <==> SomebodyLater(b, t))
    {
      SameTotals(a, b, t);
    }
  }

  // ----- The loop of a run

  lemma {:induction false} FilterNone(q: seq<int>, keep: int -> bool)
    requires forall i :: i in q ==> !keep(i)
    ensures Filter(q, keep) == [] && Others(q, keep) == q
  {
    if q != [] {
      var most, x := q[..|q| - 1], q[|q| - 1];
      assert q == most + [x] && x in q;
      FilterNone(most, keep);
      FilterLast(most, x, keep);
    }
  }

  lemma AdmitNobody(s: Sim)
    requires forall i :: i in s.workload ==> !IsDue(s.threads, s.now)(i)
    ensures Admit(s) == s
  {
    FilterNone(s.workload, IsDue(s.threads, s.now));
    assert Marked(s.threads, [], Ready) == s.threads;
  }

  lemma NobodyElseIsDue(s: Sim, i: int)
    requires i in Admit(s).workload
    ensures !IsDue(Admit(s).threads, Admit(s).now)(i)
  {
    FilterSplits(s.workload, IsDue(s.threads, s.now));
    assert !IsDue(s.threads, s.now)(i);
  }

  /** The admission before the loop and the one at the start of its first turn are one. */
  lemma AdmitTwice(s: Sim)
    ensures Admit(Admit(s)) == Admit(s)
  {
    var a := Admit(s);
    forall i | i in a.workload
      ensures !IsDue(a.threads, a.now)(i)
    {
      NobodyElseIsDue(s, i);
    }
    AdmitNobody(a);
  }

  /** The tick of the `t`-th dispatch left something active. */
  ghost predicate NotTheLast(trace: seq<Sim>, t: nat)
    requires t < |trace|
  {
    !Drained(TickWork(trace[t]))
  }

  /** None of the dispatches so far, except perhaps the latest, was the last. */
  ghost predicate NoneWasLast(trace: seq<Sim>)
  {
    forall t :: 0 <= t < |trace| - 1 ==> NotTheLast(trace, t)
  }

  /** The dispatches so far began with one from the start of the run. */
  ghost predicate Began(policy: Policy, s0: Sim, s: Sim, trace: seq<Sim>)
  {
    if trace == [] then s == Admit(s0) else DispatchedBy(policy, Resolve(Admit(s0)), trace[0])
  }

  /** At the head of the loop in a run from `s0`, or, when `done`, behind it. */
  ghost predicate RunFrom(policy: Policy, s0: Sim, s: Sim, io: seq<int>, trace: seq<Sim>, done: bool)
  {
    && RunSoFar(policy, s, io, trace) && Began(policy, s0, s, trace) && NoneWasLast(trace)
    && OnPace(s, done) && SameJobs(s0.threads, s.threads)
    && (done <==> trace != [] && Drained(s))
  }

  lemma RunFromStart(policy: Policy, s0: Sim, io: seq<int>)
    requires Good(s0, io) && |s0.core| >= 1 && s0.now == 0 && s0.waiting == []
    requires StillToCome(s0, 0) && forall c :: 0 <= c < |s0.core| ==> s0.core[c] == -1
    ensures RunFrom(policy, s0, Admit(s0), io, [], false)
  {
    AdmitKeeps(s0, io);
    AdmitTakes(s0, 0);
    PaceStarts(s0, io);
    AdmitSameJobs(s0);
    AdmitOnPace(s0);
  }

  lemma AdmitSameJobs(s: Sim)
    ensures SameJobs(s.threads, Admit(s).threads)
  {
  }

  lemma AdmitOnPace(s: Sim)
    requires OnPace(s, false) && s.now == 0
    ensures OnPace(Admit(s), false)
  {
    var a := Admit(s);
    SameTotals(s.threads, a.threads, 0);
    WorkStays(s.threads, a.threads);
  }

  lemma FirstDispatchFrom(policy: Policy, s0: Sim, s: Sim, d: Sim, s': Sim)
    requires s == Admit(s0) && Ticks(policy, NoInterrupts(|s.core|), s, d, s')
    ensures DispatchedBy(policy, Resolve(Admit(s0)), d)
  {
    AdmitTwice(s0);
    QuietDispatch(policy, s, d, s');
  }

  lemma StillNotTheLast(a: seq<Sim>, b: seq<Sim>, t: nat)
    requires t < |a| && t < |b| && a[t] == b[t] && NotTheLast(a, t)
    ensures NotTheLast(b, t)
  {
  }

  lemma NoneWasLastGoesOn(trace: seq<Sim>, longer: seq<Sim>)
    requires |longer| == |trace| + 1 && longer[..|trace|] == trace && NoneWasLast(trace)
    requires trace != [] ==> NotTheLast(trace, |trace| - 1)
    ensures NoneWasLast(longer)
  {
    forall t | 0 <= t < |longer| - 1
      ensures NotTheLast(longer, t)
    {
      assert longer[..|trace|][t] == longer[t];
      StillNotTheLast(trace, longer, t);
    }
  }

  lemma BeganGoesOn(policy: Policy, s0: Sim, s: Sim, trace: seq<Sim>, d: Sim, s': Sim, longer: seq<Sim>)
    requires Began(policy, s0, s, trace) && Ticks(policy, NoInterrupts(|s.core|), s, d, s')
    requires longer != [] && longer[0] == if trace == [] then d else trace[0]
    ensures Began(policy, s0, s', longer)
  {
    if trace == [] {
      FirstDispatchFrom(policy, s0, s, d, s');
    }
  }

  lemma StillSameJobs(policy: Policy, s0: Sim, s: Sim, d: Sim, s': Sim)
    requires SameJobs(s0.threads, s.threads) && Ticks(policy, NoInterrupts(|s.core|), s, d, s')
    ensures SameJobs(s0.threads, s'.threads)
  {
    TickSameJobs(policy, NoInterrupts(|s.core|), s, d, s');
  }

  lemma RunFromGoesOn(policy: Policy, s0: Sim, s: Sim, io: seq<int>, trace: seq<Sim>, d: Sim, s': Sim)
    requires RunFrom(policy, s0, s, io, trace, false)
    requires Ticks(policy, NoInterrupts(|s.core|), s, d, s') && Good(d, io) && Good(s', IoAfter(d, io))
    ensures RunFrom(policy, s0, s', io, trace + [d], Drained(s')) && IoAfter(d, io) == io
    ensures !Drained(s') ==> WorkLeft(s'.threads) < WorkLeft(s.threads)
  {
    RunGoesOn(policy, s, io, trace, d, s');
    BeganGoesOn(policy, s0, s, trace, d, s', trace + [d]);
    NoneWasLastGoesOn(trace, trace + [d]);
    PaceGoesOn(policy, s, d, s', io);
    StillSameJobs(policy, s0, s, d, s');
  }

  /** What is known when the loop has ended. */
  lemma RunFromEnds(policy: Policy, s0: Sim, s: Sim, io: seq<int>, trace: seq<Sim>)
    requires RunFrom(policy, s0, s, io, trace, true)
    ensures StaysBusy(s0.threads, |s.core|) ==> EverybodyFinished(s)
    ensures EverybodyFinished(s) ==> StaysBusy(s0.threads, 1)
  {
    WhoFinishesAtAll(s, io);
    SameBusy(s0.threads, s.threads, |s.core|);
    SameBusy(s0.threads, s.threads, 1);
  }

  // ----- A run that ends although somebody arrives in every tick

  /** Two threads for one core, the second arriving a tick after the first. */
  function TwoThreads(first: Job, second: Job): Sim
  {
    Start([first, second], 1)
  }

  lemma FilterTwo(keep: int -> bool)
    requires keep(0) && !keep(1)
    ensures Filter([0, 1], keep) == [0] && Others([0, 1], keep) == [1]
  {
    assert [0, 1][..1] == [0] && [0][..0] == [];
  }

  lemma FirstIsAdmitted(first: Job, second: Job)
    requires first.arrival == 0 && second.arrival == 1
    ensures var s, a := TwoThreads(first, second), Admit(TwoThreads(first, second));
            a == s.(threads := a.threads, ready := [0], workload := [1]) && |a.threads| == 2
            && a.threads[0] == s.threads[0].(state := Ready) && a.threads[1] == s.threads[1]
  {
    var s := TwoThreads(first, second);
    assert Naturals(2) == [0, 1];
    FilterTwo(IsDue(s.threads, s.now));
  }

  lemma NobodyToResolve(s: Sim)
    requires s.waiting == []
    ensures Resolve(s) == s
  {
    assert Marked(s.threads, [], Ready) == s.threads;
  }

  lemma FirstIsReady(first: Job, second: Job)
    requires first.arrival == 0 && second.arrival == 1 && first.burst >= 1 && second.burst >= 1
    ensures var s, r := TwoThreads(first, second), Resolve(Admit(TwoThreads(first, second)));
            r == s.(threads := r.threads, ready := [0], workload := [1]) && |r.threads| == 2 && Good(r, [0, 0])
            && r.threads[0] == s.threads[0].(state := Ready) && r.threads[1] == s.threads[1]
  {
    var s := TwoThreads(first, second);
    FirstIsAdmitted(first, second);
    NobodyToResolve(Admit(s));
    StartIsGood([first, second], 1, [0, 0]);
    AdmitKeeps(s, [0, 0]);
  }

  lemma OneThenOneEnds(first: Job, second: Job, d: Sim)
    requires first.arrival == 0 && second.arrival == 1 && first.burst == 1 && second.burst >= 1
    requires var r := Resolve(Admit(TwoThreads(first, second)));
             Dispatched(r, d) && (-1 !in d.core || d.ready == [])
    ensures Drained(TickWork(d)) && d.workload == [1] && d.now == 0 && |d.threads| == 2
  {
    var r := Resolve(Admit(TwoThreads(first, second)));
    FirstIsReady(first, second);
    DispatchKeeps(r, d, [0, 0]);
    OneThreadRuns(r, d);
    assert SameWork(r.threads[0], d.threads[0]);
    LastTickIff(d, [0, 0]);
  }

  /** Somebody arriving in every tick is not enough: the loop ends just when the second thread is due. */
  lemma EndsAtAnArrival(policy: Policy, first: Job, second: Job, d: Sim, s': Sim)
    requires first.arrival == 0 && second.arrival == 1 && first.burst == 1 && second.burst >= 1
    requires Ticks(policy, NoInterrupts(1), TwoThreads(first, second), d, s')
    ensures Drained(s') && s'.workload == [1] && s'.threads[1].arrival == s'.now == 1
  {
    var s := TwoThreads(first, second);
    QuietDispatch(policy, s, d, s');
    OneThenOneEnds(first, second, d);
    TickSameJobs(policy, NoInterrupts(1), s, d, s');
    ClockAdvances(policy, NoInterrupts(1), s, d, s');
    TickWorkQueues(d);
  }

  lemma TickWorkQueues(d: Sim)
    ensures TickWork(d).workload == d.workload
  {
  }

  lemma OneThreadRuns(r: Sim, d: Sim)
    requires Dispatched(r, d) && |r.core| == 1 && (-1 !in d.core || d.ready == [])
    requires r.ready == [0] && r.core == [-1]
    ensures d.core == [0] && d.ready == []
  {
    var all := multiset(d.ready) + OnCores(d.core);
    assert all == multiset{0} by {
      AllIdle(r.core, 0);
      assert OnCores(r.core) == multiset{};
    }
    if d.core[0] != -1 {
      assert d.core == [d.core[0]];
      assert OnCores(d.core) == multiset{d.core[0]};
      assert |multiset(d.ready)| == |all| - 1;
      assert d.core[0] in all;
    }
  }
}
