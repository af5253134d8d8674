/** When a ready thread can outrank a running one after a priority dispatch: the
    search for a victim starts from -1, so negative priorities are never preempted. */
module MulticorePriority {
  import opened Distinctness
  import opened MulticoreState
  import opened MulticoreDispatch
  import opened MulticoreRuns
  import opened MulticoreEnds

  /** Cores a dispatch may hand to somebody else: idle, or running a thread with a priority of at least 0. */
  ghost function OpenCores(s: Sim): set<int>
  {
    set c | 0 <= c < |s.core| && !Shielded(s, c, Priority)
  }

  /** Ready threads with a priority better than `b`. */
  ghost function Better(s: Sim, b: int): set<int>
  {
    set i | i in s.ready && RunKey(s.threads, i, Priority) < b
  }

  /** Some core runs a negative priority, and more ready threads are better than there are cores to give them. */
  ghost predicate TooManyBetter(s: Sim)
  {
    exists c :: Shielded(s, c, Priority) && |Better(s, RunKey(s.threads, s.core[c], Priority))| > |OpenCores(s)|
  }

  /** A thread on an open core after the dispatch, other than one with priority 0 or more, came from the ready queue. */
  lemma CameFromReady(s: Sim, d: Sim, c: int)
    requires EachOnce(s) && EachOnce(d) && Dispatched(s, d) && BestFirst(s, d, Priority)
    requires c in OpenCores(s) && d.core[c] != -1 && RunKey(d.threads, d.core[c], Priority) < 0
    ensures d.core[c] in s.ready
  {
    var i := d.core[c];
    assert i in d.core;
    PlacedOnce(d, i);
    assert i in multiset(d.ready) + OnCores(d.core);
    if i !in s.ready {
      OnSomeCore(s.core, i);
      var e :| 0 <= e < |s.core| && s.core[e] == i;
      SameKeys(s, d, i, Priority);
      assert Shielded(s, e, Priority);
      NoThreadTwice(d);
      assert false;
    }
  }

  lemma OutrankedNeedsMany(s: Sim, d: Sim, c: int, j: int)
    requires EachOnce(s) && EachOnce(d) && DispatchedBy(HighestPriority, s, d) && Outranked(d, c, j)
    ensures Shielded(s, c, Priority) && |Better(s, RunKey(s.threads, s.core[c], Priority))| > |OpenCores(s)|
  {
    SameKeys(s, d, d.core[c], Priority);
    SameKeys(s, d, j, Priority);
    assert Shielded(s, c, Priority);
    var better := Better(s, RunKey(s.threads, s.core[c], Priority));
    NoThreadTwice(d);
    var taken := Image(d.core, OpenCores(s));
    ImageSize(d.core, OpenCores(s));
    forall e | e in OpenCores(s)
      ensures d.core[e] in better && d.core[e] != j
    {
      assert d.core[e] in d.core;
      SameKeys(s, d, d.core[e], Priority);
      CameFromReady(s, d, e);
      PlacedOnce(d, j);
    }
    WasReady(s, d, j);
    SubsetSize(taken + {j}, better);
  }

  /** Whoever is ready with a negative priority after the dispatch was ready before. */
  lemma WasReady(s: Sim, d: Sim, j: int)
    requires EachOnce(s) && EachOnce(d) && Dispatched(s, d) && BestFirst(s, d, Priority)
    requires j in d.ready && RunKey(d.threads, j, Priority) < 0
    ensures j in s.ready
  {
    PlacedOnce(d, j);
    assert j in multiset(d.ready) + OnCores(d.core);
    if j !in s.ready {
      OnSomeCore(s.core, j);
      var e :| 0 <= e < |s.core| && s.core[e] == j;
      SameKeys(s, d, j, Priority);
      assert Shielded(s, e, Priority);
      assert false;
    }
  }

  lemma ManyLeaveSomebodyOutranked(s: Sim, d: Sim, c: int)
    requires EachOnce(s) && EachOnce(d) && DispatchedBy(HighestPriority, s, d)
    requires Shielded(s, c, Priority) && |Better(s, RunKey(s.threads, s.core[c], Priority))| > |OpenCores(s)|
    ensures exists j :: Outranked(d, c, j)
  {
    var b := RunKey(s.threads, s.core[c], Priority);
    var taken := Image(d.core, OpenCores(s));
    ImageSize(d.core, OpenCores(s));
    SameKeys(s, d, s.core[c], Priority);
    if Better(s, b) <= taken {
      SubsetSize(Better(s, b), taken);
    }
    var j :| j in Better(s, b) && j !in taken;
    PlacedOnce(s, j);
    assert j in multiset(s.ready) + OnCores(s.core);
    SameKeys(s, d, j, Priority);
    if j !in d.ready {
      OnSomeCore(d.core, j);
      assert false;
    }
    assert Outranked(d, c, j);
  }

  /** Exactly when the promise of the priority policy fails, as can be told before the dispatch: a core runs a
      negative priority, and more ready threads are better than there are cores idle or with priorities from 0 up. */
  lemma OutrankedIff(s: Sim, d: Sim)
    requires EachOnce(s) && DispatchedBy(HighestPriority, s, d)
    ensures SomebodyOutranked(d) <==> TooManyBetter(s)
  {
    DispatchOnce(s, d);
    if SomebodyOutranked(d) {
      var c, j :| Outranked(d, c, j);
      OutrankedNeedsMany(s, d, c, j);
    }
    if TooManyBetter(s) {
      var c :| Shielded(s, c, Priority)
               && |Better(s, RunKey(s.threads, s.core[c], Priority))| > |OpenCores(s)|;
      ManyLeaveSomebodyOutranked(s, d, c);
    }
  }

  // ----- A run in which it fails

  /** A thread of priority -1 with two ticks of work, and one of priority -2 arriving a tick later. */
  function WorseFirst(): Sim
  {
    TwoThreads(Job(0, 2, -1), Job(1, 1, -2))
  }

  /** The first tick leaves the worse thread running with one tick to go, and the better one about to arrive. */
  ghost predicate BetterIsDue(s: Sim)
  {
    && s.core == [0] && s.ready == [] && s.waiting == [] && s.workload == [1] && s.now == 1 && EachOnce(s)
    && |s.threads| == 2 && s.threads[0].priority == -1 && s.threads[1].priority == -2 && s.threads[1].arrival == 1
  }

  lemma WorseFirstTick(d: Sim)
    requires DispatchedBy(HighestPriority, Resolve(Admit(WorseFirst())), d)
    ensures BetterIsDue(TickWork(d))
  {
    WorseFirstRuns(d);
    TickWorkKeeps(d, [0, 0]);
    CollectedCore(Decay(CpuStep(Bump(d))), 1, 0);
  }

  lemma WorseFirstRuns(d: Sim)
    requires DispatchedBy(HighestPriority, Resolve(Admit(WorseFirst())), d)
    ensures Good(d, [0, 0]) && d.core == [0] && d.ready == d.waiting == [] && d.workload == [1] && d.now == 0
    ensures d.threads[0].remaining == 2 && d.threads[0].priority == -1
    ensures d.threads[1].priority == -2 && d.threads[1].arrival == 1
  {
    var r := Resolve(Admit(WorseFirst()));
    FirstIsReady(Job(0, 2, -1), Job(1, 1, -2));
    DispatchKeeps(r, d, [0, 0]);
    OneThreadRuns(r, d);
    assert SameWork(r.threads[0], d.threads[0]) && SameWork(r.threads[1], d.threads[1]);
  }

  lemma BetterArrives(s: Sim)
    requires BetterIsDue(s)
    ensures var r := Resolve(Admit(s));
            EachOnce(r) && Shielded(r, 0, Priority) && RunKey(r.threads, 0, Priority) == -1 && r.core == [0]
            && Better(r, -1) == {1} && OpenCores(r) == {}
  {
    var r := Resolve(Admit(s));
    FilterSplits(s.workload, IsDue(s.threads, s.now));
    assert [1][..0] == [];
    assert Everyone(r) == Everyone(s);
  }

  lemma BetterIsNotServed(s: Sim, d: Sim)
    requires BetterIsDue(s) && DispatchedBy(HighestPriority, Resolve(Admit(s)), d)
    ensures exists j :: Outranked(d, 0, j)
  {
    BetterArrives(s);
    DispatchOnce(Resolve(Admit(s)), d);
    ManyLeaveSomebodyOutranked(Resolve(Admit(s)), d, 0);
  }

  /** The better thread arrives while the worse one is running, and has to wait for it. */
  lemma NegativePriorityIsNotPreempted(d0: Sim, s1: Sim, d1: Sim, s2: Sim)
    requires Ticks(HighestPriority, NoInterrupts(1), WorseFirst(), d0, s1)
    requires |s1.core| == 1 && Ticks(HighestPriority, NoInterrupts(1), s1, d1, s2)
    ensures exists j :: Outranked(d1, 0, j)
  {
    QuietDispatch(HighestPriority, WorseFirst(), d0, s1);
    WorseFirstTick(d0);
    QuietDispatch(HighestPriority, s1, d1, s2);
    BetterIsNotServed(s1, d1);
  }
}
