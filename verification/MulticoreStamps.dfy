/** What dispatching does to the start times and state labels of threads: a start
    time is set once, when a thread first gets a core, and labels tell where each is. */
module MulticoreStamps {
  import opened MulticoreState
  import opened MulticoreDispatch
  import opened MulticoreRoundRobin

  /** The state of thread `i` is that of the queue it is in, or of being on a core. */
  ghost predicate LabelOk(s: Sim, i: int)
    requires 0 <= i < |s.threads|
  {
    var state := s.threads[i].state;
    && (i in s.workload ==> state == New) && (i in s.ready ==> state == Ready) && (i in s.core ==> state == Running)
    && (i in s.waiting ==> state == Waiting) && (i in s.finished ==> state == Finished)
  }

  /** From `s` to `s'` thread `i` has got a start time only if it had none, which is now, and only by being on a core;
      whoever is new on a core has one; who waits for I/O is left alone; labels stay right. */
  ghost predicate Stamped(s: Sim, s': Sim, i: int)
    requires 0 <= i < |s.threads| == |s'.threads|
  {
    var t, t' := s.threads[i].startTime, s'.threads[i].startTime;
    && (t' == t || (t < 0 && t' == s.now && (i in s.core || i in s'.core)))
    && (i in s'.core && i !in s.core ==> t' >= 0 || t' == s.now)
    && (i in s.waiting ==> s'.threads[i] == s.threads[i])
    && (LabelOk(s, i) ==> LabelOk(s', i))
  }

  ghost predicate AllStamped(s: Sim, s': Sim)
  {
    var same := |s.threads| == |s'.threads| && s'.waiting == s.waiting && s'.now == s.now;
    var stamped := |s.threads| == |s'.threads| && forall i :: 0 <= i < |s.threads| ==> Stamped(s, s', i);
    same && stamped
  }

  /** The same queues but for the ready queue; no thread but `i` has changed. */
  ghost predicate OnlyMoves(s: Sim, s': Sim, i: int)
  {
    && 0 <= i < |s.threads| && s' == s.(threads := s'.threads, core := s'.core, ready := s'.ready)
    && |s'.threads| == |s.threads| && forall j :: 0 <= j < |s.threads| && j != i ==> s'.threads[j] == s.threads[j]
  }

  /** Thread `i` goes from the ready queue to idle core `c`. */
  ghost predicate TakesCore(s: Sim, s': Sim, i: int, c: int)
  {
    && OnlyMoves(s, s', i) && 0 <= c < |s.core| && s.core[c] == -1 && s'.core == s.core[c := i]
    && i in s.ready && i !in s.core && i !in s'.ready && (forall j :: j in s'.ready ==> j in s.ready)
    && i !in s.waiting && i !in s.finished && i !in s.workload
    && s'.threads[i].state == Running
    && s'.threads[i].startTime == if s.threads[i].startTime < 0 then s.now else s.threads[i].startTime
  }

  lemma TakingStamps(s0: Sim, s: Sim, s': Sim, i: int, c: int)
    requires AllStamped(s0, s) && TakesCore(s, s', i, c)
    ensures AllStamped(s0, s')
  {
    forall j | 0 <= j < |s0.threads|
      ensures Stamped(s0, s', j)
    {
      assert Stamped(s0, s, j);
      CoreMembers(s.core, c, i, j);
    }
  }

  lemma CoreMembers(core: seq<int>, c: nat, i: int, j: int)
    requires c < |core|
    ensures j in core[c := i] ==> j == i || j in core
    ensures i in core[c := i]
    ensures j in core && j != core[c] ==> j in core[c := i]
  {
    assert core[c := i][c] == i;
    if j in core && j != core[c] {
      var d :| 0 <= d < |core| && core[d] == j;
      assert core[c := i][d] == j;
    }
  }

  lemma PlacedTakes(s: Sim, s': Sim, select: Select, k: int, c: int)
    requires EachOnce(s) && Placed(s, s', select, k, c)
    ensures TakesCore(s, s', s.ready[k], c)
  {
    var i := s.ready[k];
    assert i in s.ready;
    PlacedOnce(s, i);
    Removed(s.ready, k);
  }

  /** The thread on core `c`, which was on a core at `s0`, goes back to the ready queue. */
  lemma UnbindingStamps(s0: Sim, s: Sim, c: nat)
    requires AllStamped(s0, s) && EachOnce(s)
    requires c < |s.core| && 0 <= s.core[c] < |s.threads| && s.core[c] in s0.core
    ensures AllStamped(s0, Unbind(s, c))
  {
    var s', i := Unbind(s, c), s.core[c];
    assert i in s.core;
    PlacedOnce(s, i);
    CoreFreed(s, c);
    forall j | 0 <= j < |s0.threads|
      ensures Stamped(s0, s', j)
    {
      assert Stamped(s0, s, j);
      if j != i {
        OthersStayOn(s.core, c, j);
      }
    }
  }

  lemma CoreFreed(s: Sim, c: nat)
    requires EachOnce(s) && c < |s.core| && 0 <= s.core[c]
    ensures s.core[c] !in s.core[c := -1]
  {
    NoThreadTwice(s);
    assert forall d :: 0 <= d < |s.core| && d != c ==> s.core[d] != s.core[c];
  }

  lemma PutBackStamps(s0: Sim, s: Sim, s': Sim, key: Key, k: int)
    requires AllStamped(s0, s) && PutBack(s, s', key, k)
    ensures AllStamped(s0, s')
  {
    forall j | 0 <= j < |s0.threads|
      ensures Stamped(s0, s', j)
    {
      assert Stamped(s0, s, j);
      assert j in s'.ready ==> j in s.ready;
    }
  }

  // ----- Nobody gets a core and loses it in the same dispatch

  /** Whoever is new on a core has no larger key than anybody ready. */
  ghost predicate Newcomers(s0: Sim, s: Sim, key: Key)
  {
    forall c, j :: 0 <= c < |s.core| && s.core[c] != -1 && s.core[c] !in s0.core && j in s.ready ==>
      RunKey(s.threads, s.core[c], key) <= RunKey(s.threads, j, key)
  }

  lemma FilledNewcomers(s0: Sim, s: Sim, key: Key)
    requires Filling(s0, s, Smallest(key))
    ensures Newcomers(s0, s, key)
  {
    forall c, j | 0 <= c < |s.core| && s.core[c] != -1 && s.core[c] !in s0.core && j in s.ready
      ensures RunKey(s.threads, s.core[c], key) <= RunKey(s.threads, j, key)
    {
      assert s0.core[c] in s0.core;
      SameKeys(s0, s, s.core[c], key);
      SameKeys(s0, s, j, key);
    }
  }

  lemma ReplacedNewcomers(s0: Sim, s: Sim, s': Sim, key: Key, k: int, c: int)
    requires Newcomers(s0, s, key) && Replaced(s, s', key, k, c)
    ensures Newcomers(s0, s', key)
  {
    forall d, j | 0 <= d < |s'.core| && s'.core[d] != -1 && s'.core[d] !in s0.core && j in s'.ready
      ensures RunKey(s'.threads, s'.core[d], key) <= RunKey(s'.threads, j, key)
    {
      assert j in s.ready || j == s.core[c];
      assert s.ready[k] in s.ready;
    }
  }

  lemma PlacedNewcomers(s0: Sim, s: Sim, s': Sim, key: Key, k: int, c: int)
    requires Newcomers(s0, s, key) && Placed(s, s', Smallest(key), k, c)
    ensures Newcomers(s0, s', key)
  {
    forall d, j | 0 <= d < |s'.core| && s'.core[d] != -1 && s'.core[d] !in s0.core && j in s'.ready
      ensures RunKey(s'.threads, s'.core[d], key) <= RunKey(s'.threads, j, key)
    {
      assert j in s.ready;
    }
  }

  /** A preemption takes its core from a thread that had it before the dispatch. */
  lemma VictimWasRunning(s0: Sim, s: Sim, s': Sim, key: Key, k: int, c: int)
    requires Newcomers(s0, s, key) && Replaced(s, s', key, k, c)
    ensures s.core[c] in s0.core
  {
    assert s.ready[k] in s.ready;
  }

  lemma ReplacedStamps(s0: Sim, s: Sim, s': Sim, key: Key, k: int, c: int)
    requires EachOnce(s0) && Dispatched(s0, s) && AllStamped(s0, s) && Newcomers(s0, s, key)
    requires Replaced(s, s', key, k, c)
    ensures AllStamped(s0, s')
  {
    VictimWasRunning(s0, s, s', key, k, c);
    DispatchOnce(s0, s);
    var i, v, rest := s.ready[k], s.core[c], s.ready[..k] + s.ready[k + 1..];
    // The same two threads change places if the running one gives up its core first.
    UnbindingStamps(s0, s, c);
    var u := Unbind(s, c);
    assert i in s.ready && v in s.core;
    PlacedOnce(s, i);
    PlacedOnce(s, v);
    Removed(s.ready, k);
    assert i !in rest;
    OthersStayOn(s.core, c, i);
    assert s'.core == u.core[c := i];
    TakingStamps(s0, u, s', i, c);
  }

  lemma PlacedStamps(s0: Sim, s: Sim, s': Sim, select: Select, k: int, c: int)
    requires EachOnce(s0) && Dispatched(s0, s) && AllStamped(s0, s) && Placed(s, s', select, k, c)
    ensures AllStamped(s0, s')
  {
    DispatchOnce(s0, s);
    PlacedTakes(s, s', select, k, c);
    TakingStamps(s0, s, s', s.ready[k], c);
  }

  // ----- Round robin

  /** The cores before `c` have either lost their thread or kept it. */
  ghost predicate OnlyFreed(s0: Sim, s: Sim)
  {
    |s.core| == |s0.core| && forall d :: 0 <= d < |s.core| ==> s.core[d] == -1 || s.core[d] == s0.core[d]
  }

  lemma {:induction false} PreemptedStamps(s: Sim, c: nat)
    requires c <= |s.core| && EachOnce(s) && Indexed(s)
    ensures AllStamped(s, WithoutExpiredBefore(s, c)) && OnlyFreed(s, WithoutExpiredBefore(s, c))
  {
    if c > 0 {
      PreemptedStamps(s, c - 1);
      AllPreempted(s, c - 1);
      var p := WithoutExpiredBefore(s, c - 1);
      DispatchOnce(s, p);
      if WithoutExpired(p, c - 1) != p {
        assert s.core[c - 1] in s.core;
        UnbindingStamps(s, p, c - 1);
      }
    }
  }

  lemma BindFreshStamps(s0: Sim, s: Sim, c: nat, quantum: int)
    requires AllStamped(s0, s) && EachOnce(s) && c < |s.core| && s.core[c] == -1
    requires s.ready != [] && 0 <= s.ready[0] < |s.threads|
    ensures AllStamped(s0, BindFresh(s, c, quantum))
  {
    var i, s' := s.ready[0], BindFresh(s, c, quantum);
    assert i in s.ready && s.ready == [i] + s.ready[1..];
    PlacedOnce(s, i);
    TakingStamps(s0, s, s', i, c);
  }

  /** Everybody is still in one place, stamped as if by one dispatch from `s0`. */
  ghost predicate OnceStamped(s0: Sim, s: Sim)
  {
    var once := EachOnce(s) && Indexed(s);
    var stamped := AllStamped(s0, s);
    once && stamped
  }

  lemma FilledCoreStamps(s0: Sim, s: Sim, c: nat, quantum: int, s': Sim)
    requires OnceStamped(s0, s) && c < |s.core| && s' == FilledCore(s, c, quantum)
    ensures OnceStamped(s0, s')
  {
    if s' != s {
      BindFreshStamps(s0, s, c, quantum);
      BindFreshOnce(s, c, quantum);
    }
  }

  lemma BindFreshOnce(s: Sim, c: nat, quantum: int)
    requires EachOnce(s) && Indexed(s) && c < |s.core| && s.core[c] == -1
    requires s.ready != [] && 0 <= s.ready[0] < |s.threads|
    ensures EachOnce(BindFresh(s, c, quantum)) && Indexed(BindFresh(s, c, quantum))
  {
    BindFreshDispatches(s, s, c, quantum);
    DispatchOnce(s, BindFresh(s, c, quantum));
    DispatchedIndexed(s, BindFresh(s, c, quantum));
  }

  lemma {:induction false} FillingStamps(s0: Sim, s: Sim, c: nat, quantum: int)
    requires OnceStamped(s0, s) && c <= |s.core|
    ensures OnceStamped(s0, FilledCores(s, c, quantum))
  {
    if c > 0 {
      FillingStamps(s0, s, c - 1, quantum);
      FilledCoreStamps(s0, FilledCores(s, c - 1, quantum), c - 1, quantum, FilledCores(s, c, quantum));
    }
  }

  // ----- The loop of the priority dispatch

  /** What is known in each round. */
  ghost predicate Preempting(s0: Sim, s: Sim)
  {
    var placed := Indexed(s) && Dispatched(s0, s) && (-1 !in s.core || s.ready == []);
    var stamped := AllStamped(s0, s);
    var best := |s.core| == |s0.core| && BestFirst(s0, s, Priority);
    placed && stamped && best
  }

  lemma PreemptingGoesOn(s0: Sim, s: Sim, s': Sim, k: int, c: int)
    requires EachOnce(s0) && Indexed(s0) && Preempting(s0, s) && Newcomers(s0, s, Priority)
    requires Replaced(s, s', Priority, k, c)
    ensures Preempting(s0, s') && Newcomers(s0, s', Priority)
    ensures CoreWeight(s'.threads, s'.core, Priority) < CoreWeight(s.threads, s.core, Priority)
  {
    ReplacedStep(s0, s, s', Priority, k, c);
    ReplacedBestFirst(s0, s, s', Priority, k, c);
    ReplacedStamps(s0, s, s', Priority, k, c);
    ReplacedNewcomers(s0, s, s', Priority, k, c);
    assert -1 !in s.core;
    assert forall d :: 0 <= d < |s'.core| ==> s'.core[d] != -1;
  }

  lemma PreemptingStops(s0: Sim, s: Sim, s': Sim, k: int)
    requires EachOnce(s0) && Indexed(s0) && Preempting(s0, s) && PutBack(s, s', Priority, k)
    ensures Preempting(s0, s') && NothingToPreempt(s', Priority)
  {
    PutBackStep(s0, s, s', Priority, k);
    PutBackBestFirst(s0, s, s', Priority, k);
    PutBackStamps(s0, s, s', Priority, k);
  }
}
