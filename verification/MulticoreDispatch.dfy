/** Dispatching on values: selection, binding and preemption, and what they keep. */
module MulticoreDispatch {
  import opened Distinctness
  import opened MulticoreState

  datatype Key = Burst | Remaining | Priority

  datatype Select = First | Smallest(key: Key)

  function KeyOf(t: Thread, key: Key): int
  {
    match key
    case Burst => t.burst
    case Remaining => t.remaining
    case Priority => t.priority
  }

  // ----- Indices

  /** Every queue entry and every busy core names a thread of the table. */
  ghost predicate Indexed(s: Sim)
  {
    && (forall i :: i in s.ready || i in s.waiting || i in s.workload || i in s.finished ==> 0 <= i < |s.threads|)
    && (forall c :: 0 <= c < |s.core| ==> -1 <= s.core[c] < |s.threads|)
  }

  lemma GoodIsIndexed(s: Sim)
    requires EachOnce(s)
    ensures Indexed(s)
  {
    forall i | i in s.ready || i in s.waiting || i in s.workload || i in s.finished
      ensures 0 <= i < |s.threads|
    {
      PlacedOnce(s, i);
    }
    forall c | 0 <= c < |s.core|
      ensures -1 <= s.core[c] < |s.threads|
    {
      assert s.core[c] in s.core;
      PlacedOnce(s, s.core[c]);
    }
  }

  lemma NoThreadTwice(s: Sim)
    requires EachOnce(s)
    ensures Distinct(s.ready) && Distinct(s.waiting)
    ensures forall c, d :: 0 <= c < d < |s.core| && s.core[c] != -1 ==> s.core[c] != s.core[d]
  {
    forall i | i in s.ready || i in s.waiting
      ensures i in s.ready ==> multiset(s.ready)[i] <= 1
      ensures i in s.waiting ==> multiset(s.waiting)[i] <= 1
    {
      PlacedOnce(s, i);
    }
    OnceIsDistinct(s.ready);
    OnceIsDistinct(s.waiting);
    forall c, d | 0 <= c < d < |s.core| && s.core[c] != -1
      ensures s.core[c] != s.core[d]
    {
      PlacedOnce(s, s.core[c]);
      if s.core[c] == s.core[d] {
        TwiceCounts(s.core, c, d);
      }
    }
  }

  lemma QueuesApart(s: Sim)
    requires EachOnce(s)
    ensures forall i :: i in s.ready ==> i !in s.waiting
  {
    forall i | i in s.ready
      ensures i !in s.waiting
    {
      PlacedOnce(s, i);
    }
  }

  // ----- Dispatch on values

  function RunKey(threads: seq<Thread>, i: int, key: Key): int
  {
    if 0 <= i < |threads| then KeyOf(threads[i], key) else -1
  }

  /** Keys stay put while threads move between queue and cores. */
  lemma SameKeys(s: Sim, s': Sim, i: int, key: Key)
    requires Dispatched(s, s')
    ensures RunKey(s'.threads, i, key) == RunKey(s.threads, i, key)
  {
    if 0 <= i < |s.threads| {
      assert SameWork(s.threads[i], s'.threads[i]);
    }
  }

  function KeyWeight(k: int): nat
  {
    if k < -1 then 0 else k + 1
  }

  /** Progress measure of preemption: keys on the cores, counted from -1. */
  ghost function CoreWeight(threads: seq<Thread>, core: seq<int>, key: Key): nat
  {
    if core == [] then 0
    else CoreWeight(threads, core[..|core| - 1], key) + KeyWeight(RunKey(threads, core[|core| - 1], key))
  }

  lemma {:induction false} WeightAfter(threads: seq<Thread>, core: seq<int>, c: nat, i: int, key: Key)
    requires c < |core|
    ensures CoreWeight(threads, core[c := i], key) + KeyWeight(RunKey(threads, core[c], key))
         == CoreWeight(threads, core, key) + KeyWeight(RunKey(threads, i, key))
  {
    var n := |core| - 1;
    if c == n {
      assert core[c := i][..n] == core[..n];
    } else {
      WeightAfter(threads, core[..n], c, i, key);
      assert core[c := i][..n] == core[..n][c := i];
    }
  }

  lemma {:induction false} WeightSame(threads: seq<Thread>, threads': seq<Thread>, core: seq<int>, key: Key)
    requires forall i :: RunKey(threads, i, key) == RunKey(threads', i, key)
    ensures CoreWeight(threads, core, key) == CoreWeight(threads', core, key)
  {
    if core != [] {
      WeightSame(threads, threads', core[..|core| - 1], key);
    }
  }

  ghost function IdleCount(core: seq<int>): nat
  {
    multiset(core)[-1]
  }

  function Bound(t: Thread, now: int): Thread
  {
    t.(state := Running, startTime := if t.startTime < 0 then now else t.startTime)
  }

  /** `s` with thread `i`, in nobody's queue, put on idle core `c`. */
  function Bind(s: Sim, c: nat, i: int): Sim
    requires c < |s.core| && 0 <= i < |s.threads|
  {
    s.(core := s.core[c := i], threads := s.threads[i := Bound(s.threads[i], s.now)])
  }

  function Unbind(s: Sim, c: nat): Sim
    requires c < |s.core| && 0 <= s.core[c] < |s.threads|
  {
    var i := s.core[c];
    s.(core := s.core[c := -1], ready := s.ready + [i], threads := s.threads[i := s.threads[i].(state := Ready)])
  }

  /** `s'` is a dispatch of `s` except that thread `i` has been taken from the ready queue. */
  ghost predicate DispatchedButFor(s: Sim, s': Sim, i: int)
  {
    && 0 <= i < |s.threads|
    && s' == s.(threads := s'.threads, core := s'.core, ready := s'.ready)
    && |s'.core| == |s.core| && |s'.threads| == |s.threads|
    && multiset(s'.ready) + OnCores(s'.core) + multiset{i} == multiset(s.ready) + OnCores(s.core)
    && (forall j :: 0 <= j < |s.threads| ==> SameWork(s.threads[j], s'.threads[j]))
  }

  lemma BindCompletes(s: Sim, s': Sim, c: nat, i: int)
    requires DispatchedButFor(s, s', i) && c < |s'.core| && s'.core[c] == -1
    ensures Dispatched(s, Bind(s', c, i))
  {
    CoreChange(s'.core, c, i);
    forall j | 0 <= j < |s.threads|
      ensures SameWork(s.threads[j], Bind(s', c, i).threads[j])
    {
      assert SameWork(s.threads[j], s'.threads[j]);
    }
  }

  lemma PutBackCompletes(s: Sim, s': Sim, i: int)
    requires DispatchedButFor(s, s', i)
    ensures Dispatched(s, s'.(ready := s'.ready + [i]))
  {
  }

  lemma UnbindKeeps(s: Sim, s': Sim, c: nat, i: int)
    requires DispatchedButFor(s, s', i) && c < |s'.core| && 0 <= s'.core[c] < |s'.threads|
    ensures DispatchedButFor(s, Unbind(s', c), i)
  {
    CoreChange(s'.core, c, 0);
    forall j | 0 <= j < |s.threads|
      ensures SameWork(s.threads[j], Unbind(s', c).threads[j])
    {
      assert SameWork(s.threads[j], s'.threads[j]);
    }
  }

  lemma OnSomeCore(core: seq<int>, i: int)
    requires i in OnCores(core)
    ensures i in core && i != -1
  {
  }

  lemma DispatchedIndexed(s: Sim, s': Sim)
    requires Indexed(s) && Dispatched(s, s')
    ensures Indexed(s')
  {
    var all := multiset(s'.ready) + OnCores(s'.core);
    forall i | i in all
      ensures 0 <= i < |s.threads|
    {
      assert i in multiset(s.ready) + OnCores(s.core);
      if i !in s.ready {
        OnSomeCore(s.core, i);
      }
    }
    forall i | i in s'.ready
      ensures 0 <= i < |s.threads|
    {
      assert i in all;
    }
    forall c | 0 <= c < |s'.core|
      ensures -1 <= s'.core[c] < |s.threads|
    {
      if s'.core[c] != -1 {
        assert s'.core[c] in multiset(s'.core);
        assert s'.core[c] in all;
      }
    }
  }

  // ----- The selection from the ready queue

  /** `k` is the position taken: the first, or the first with the smallest key. */
  ghost predicate Selected(threads: seq<Thread>, q: seq<int>, select: Select, k: int)
  {
    && 0 <= k < |q|
    && match select
       case First => k == 0
       case Smallest(key) =>
         && (forall j :: 0 <= j < |q| ==> RunKey(threads, q[k], key) <= RunKey(threads, q[j], key))
         && (forall j :: 0 <= j < k ==> RunKey(threads, q[k], key) < RunKey(threads, q[j], key))
  }

  ghost predicate AllInTable(threads: seq<Thread>, q: seq<int>)
  {
    forall j :: j in q ==> 0 <= j < |threads|
  }

  /** The thread taken has the shortest burst, the least remaining time or the lowest priority number in the queue. */
  lemma SelectedIsLeast(threads: seq<Thread>, q: seq<int>, select: Select, k: int)
    requires Selected(threads, q, select, k) && AllInTable(threads, q)
    ensures 0 <= q[k] < |threads|
    ensures select == Smallest(Burst) ==> forall j :: j in q ==> threads[q[k]].burst <= threads[j].burst
    ensures select == Smallest(Remaining) ==> forall j :: j in q ==> threads[q[k]].remaining <= threads[j].remaining
    ensures select == Smallest(Priority) ==> forall j :: j in q ==> threads[q[k]].priority <= threads[j].priority
  {
    assert q[k] in q;
    if select.Smallest? {
      forall j | j in q
        ensures KeyOf(threads[q[k]], select.key) <= KeyOf(threads[j], select.key)
      {
        var m :| 0 <= m < |q| && q[m] == j;
        assert RunKey(threads, q[k], select.key) <= RunKey(threads, q[m], select.key);
      }
    }
  }

  lemma Removed(q: seq<int>, k: nat)
    requires k < |q|
    ensures multiset(q[..k] + q[k + 1..]) + multiset{q[k]} == multiset(q)
  {
    assert q == q[..k] + [q[k]] + q[k + 1..];
  }

  lemma TakeFrom(s: Sim, s': Sim, k: nat)
    requires Indexed(s) && Dispatched(s, s') && k < |s'.ready|
    ensures DispatchedButFor(s, s'.(ready := s'.ready[..k] + s'.ready[k + 1..]), s'.ready[k])
  {
    DispatchedIndexed(s, s');
    Removed(s'.ready, k);
    assert s'.ready[k] in s'.ready;
    var rest := s'.ready[..k] + s'.ready[k + 1..];
    assert multiset(rest) + OnCores(s'.core) + multiset{s'.ready[k]} == multiset(s'.ready) + OnCores(s'.core);
  }

  // ----- What filling idle cores achieves

  /** Busy cores are left alone; the queue is taken from its front, or smallest keys first. */
  ghost predicate Filled(s: Sim, s': Sim, select: Select)
    requires Dispatched(s, s')
  {
    && (forall c :: 0 <= c < |s.core| && s.core[c] != -1 ==> s'.core[c] == s.core[c])
    && match select
       case First => |s'.ready| <= |s.ready| && s'.ready == s.ready[|s.ready| - |s'.ready|..]
       case Smallest(key) =>
         forall c, j :: 0 <= c < |s.core| && s.core[c] == -1 && s'.core[c] != -1 && j in s'.ready ==>
           RunKey(s.threads, s'.core[c], key) <= RunKey(s.threads, j, key)
  }

  /** Whoever is put on an idle core has no larger burst, remaining time or priority number than anybody left ready. */
  lemma FilledWithLeast(s: Sim, s': Sim, select: Select, c: nat, j: int)
    requires Indexed(s) && Dispatched(s, s') && Filled(s, s', select)
    requires c < |s.core| && s.core[c] == -1 && s'.core[c] != -1 && j in s'.ready
    ensures 0 <= s'.core[c] < |s'.threads| && 0 <= j < |s'.threads|
    ensures select == Smallest(Burst) ==> s'.threads[s'.core[c]].burst <= s'.threads[j].burst
    ensures select == Smallest(Remaining) ==> s'.threads[s'.core[c]].remaining <= s'.threads[j].remaining
    ensures select == Smallest(Priority) ==> s'.threads[s'.core[c]].priority <= s'.threads[j].priority
  {
    DispatchedIndexed(s, s');
    assert SameWork(s.threads[j], s'.threads[j]) && SameWork(s.threads[s'.core[c]], s'.threads[s'.core[c]]);
    if select.Smallest? {
      assert RunKey(s.threads, s'.core[c], select.key) <= RunKey(s.threads, j, select.key);
    }
  }

  lemma FilledStep(s: Sim, s': Sim, select: Select, k: nat, c: nat)
    requires Indexed(s) && Dispatched(s, s') && Filled(s, s', select)
    requires k < |s'.ready| && Selected(s'.threads, s'.ready, select, k) && 0 <= s'.ready[k] < |s'.threads|
    requires c < |s'.core| && s'.core[c] == -1
    ensures var next := Bind(s'.(ready := s'.ready[..k] + s'.ready[k + 1..]), c, s'.ready[k]);
            Dispatched(s, next) && Filled(s, next, select)
  {
    TakeFrom(s, s', k);
    var rest := s'.ready[..k] + s'.ready[k + 1..];
    BindCompletes(s, s'.(ready := rest), c, s'.ready[k]);
    var next := Bind(s'.(ready := rest), c, s'.ready[k]);
    if select.Smallest? {
      var key := select.key;
      forall d, j | 0 <= d < |s.core| && s.core[d] == -1 && next.core[d] != -1 && j in rest
        ensures RunKey(s.threads, next.core[d], key) <= RunKey(s.threads, j, key)
      {
        assert j in s'.ready;
        if d == c {
          SameKeys(s, s', s'.ready[k], key);
          SameKeys(s, s', j, key);
        }
      }
    }
  }

  /** One thread, selected from the ready queue, goes to an idle core. */
  ghost predicate Placed(s: Sim, s': Sim, select: Select, k: int, c: int)
  {
    && Selected(s.threads, s.ready, select, k) && 0 <= s.ready[k] < |s.threads|
    && 0 <= c < |s.core| && s.core[c] == -1
    && s' == Bind(s.(ready := s.ready[..k] + s.ready[k + 1..]), c, s.ready[k])
  }

  ghost predicate Filling(s: Sim, s': Sim, select: Select)
  {
    Dispatched(s, s') && Filled(s, s', select)
  }

  lemma FillingGoesOn(s0: Sim, s: Sim, s': Sim, select: Select, k: int, c: int)
    requires Indexed(s0) && Filling(s0, s, select) && Placed(s, s', select, k, c)
    ensures Filling(s0, s', select) && Indexed(s') && IdleCount(s'.core) < IdleCount(s.core)
  {
    FilledStep(s0, s, select, k, c);
    DispatchedIndexed(s0, s');
    IdleChange(s.core, c, s.ready[k]);
  }

  // ----- What preemption achieves

  /** No thread that is running, with a key above -1, has a larger key than one that is ready. */
  ghost predicate NothingToPreempt(s: Sim, key: Key)
  {
    forall c, j :: 0 <= c < |s.core| && s.core[c] != -1 && j in s.ready ==>
      RunKey(s.threads, s.core[c], key) <= RunKey(s.threads, j, key) || RunKey(s.threads, s.core[c], key) <= -1
  }

  /** Core `c`'s thread is put back in the queue and thread `i` takes its place. */
  function Replace(s: Sim, c: nat, i: int): Sim
    requires c < |s.core| && 0 <= s.core[c] < |s.threads| && 0 <= i < |s.threads|
  {
    Bind(Unbind(s, c), c, i)
  }

  lemma ReplaceCompletes(s: Sim, s': Sim, c: nat, i: int)
    requires DispatchedButFor(s, s', i) && c < |s'.core| && 0 <= s'.core[c] < |s'.threads|
    ensures Dispatched(s, Replace(s', c, i))
  {
    UnbindKeeps(s, s', c, i);
    BindCompletes(s, Unbind(s', c), c, i);
  }

  lemma KeyAfterBind(s: Sim, c: nat, i: int, key: Key)
    requires c < |s.core| && 0 <= i < |s.threads|
    ensures CoreWeight(Bind(s, c, i).threads, Bind(s, c, i).core, key) + KeyWeight(RunKey(s.threads, s.core[c], key))
         == CoreWeight(s.threads, s.core, key) + KeyWeight(RunKey(s.threads, i, key))
  {
    WeightAfter(s.threads, s.core, c, i, key);
    WeightSame(s.threads, Bind(s, c, i).threads, s.core[c := i], key);
  }

  lemma ReplaceFalls(s: Sim, c: nat, i: int, key: Key)
    requires c < |s.core| && 0 <= s.core[c] < |s.threads| && 0 <= i < |s.threads|
    requires RunKey(s.threads, i, key) < RunKey(s.threads, s.core[c], key) && -1 < RunKey(s.threads, s.core[c], key)
    ensures CoreWeight(Replace(s, c, i).threads, Replace(s, c, i).core, key) < CoreWeight(s.threads, s.core, key)
    ensures IdleCount(Replace(s, c, i).core) == IdleCount(s.core)
  {
    var u := Unbind(s, c);
    WeightAfter(s.threads, s.core, c, -1, key);
    WeightSame(s.threads, u.threads, u.core, key);
    KeyAfterBind(u, c, i, key);
    IdleChange(s.core, c, -1);
    IdleChange(u.core, c, i);
  }

  lemma IdleChange(core: seq<int>, c: nat, x: int)
    requires c < |core|
    ensures IdleCount(core[c := x]) + (if core[c] == -1 then 1 else 0) == IdleCount(core) + if x == -1 then 1 else 0
  {
    assert core == core[..c] + [core[c]] + core[c + 1..];
    assert core[c := x] == core[..c] + [x] + core[c + 1..];
  }

  /** One thread, with the smallest key of the ready queue, replaces the thread on core `c`, which has a larger key. */
  ghost predicate Replaced(s: Sim, s': Sim, key: Key, k: int, c: int)
  {
    && Selected(s.threads, s.ready, Smallest(key), k) && 0 <= s.ready[k] < |s.threads|
    && 0 <= c < |s.core| && 0 <= s.core[c] < |s.threads|
    && RunKey(s.threads, s.ready[k], key) < RunKey(s.threads, s.core[c], key)
    && -1 < RunKey(s.threads, s.core[c], key)
    && s' == Replace(s.(ready := s.ready[..k] + s.ready[k + 1..]), c, s.ready[k])
  }

  /** The thread with the smallest key goes back to the end of the queue: no running thread has to make way for it. */
  ghost predicate PutBack(s: Sim, s': Sim, key: Key, k: int)
  {
    && Selected(s.threads, s.ready, Smallest(key), k) && 0 <= s.ready[k] < |s.threads|
    && (forall c :: 0 <= c < |s.core| && s.core[c] != -1 ==>
         RunKey(s.threads, s.core[c], key) <= RunKey(s.threads, s.ready[k], key)
             || RunKey(s.threads, s.core[c], key) <= -1)
    && s' == s.(ready := s.ready[..k] + s.ready[k + 1..] + [s.ready[k]])
  }

  lemma PlacedStep(s0: Sim, s: Sim, s': Sim, select: Select, k: int, c: int)
    requires Indexed(s0) && Dispatched(s0, s) && Placed(s, s', select, k, c)
    ensures Dispatched(s0, s') && Indexed(s') && IdleCount(s'.core) < IdleCount(s.core)
  {
    TakeFrom(s0, s, k);
    BindCompletes(s0, s.(ready := s.ready[..k] + s.ready[k + 1..]), c, s.ready[k]);
    DispatchedIndexed(s0, s');
    IdleChange(s.core, c, s.ready[k]);
  }

  lemma ReplacedStep(s0: Sim, s: Sim, s': Sim, key: Key, k: int, c: int)
    requires Indexed(s0) && Dispatched(s0, s) && Replaced(s, s', key, k, c)
    ensures Dispatched(s0, s') && Indexed(s') && IdleCount(s'.core) == IdleCount(s.core)
    ensures CoreWeight(s'.threads, s'.core, key) < CoreWeight(s.threads, s.core, key)
  {
    TakeFrom(s0, s, k);
    ReplaceCompletes(s0, s.(ready := s.ready[..k] + s.ready[k + 1..]), c, s.ready[k]);
    ReplaceFalls(s.(ready := s.ready[..k] + s.ready[k + 1..]), c, s.ready[k], key);
    DispatchedIndexed(s0, s');
  }

  lemma PutBackStep(s0: Sim, s: Sim, s': Sim, key: Key, k: int)
    requires Indexed(s0) && Dispatched(s0, s) && PutBack(s, s', key, k)
    ensures Dispatched(s0, s') && Indexed(s') && NothingToPreempt(s', key)
  {
    TakeFrom(s0, s, k);
    PutBackCompletes(s0, s.(ready := s.ready[..k] + s.ready[k + 1..]), s.ready[k]);
    DispatchedIndexed(s0, s');
    forall c, j | 0 <= c < |s'.core| && s'.core[c] != -1 && j in s'.ready
      ensures RunKey(s.threads, s.core[c], key) <= RunKey(s.threads, j, key) || RunKey(s.threads, s.core[c], key) <= -1
    {
      assert j in s.ready;
    }
  }

  lemma DispatchOnce(s: Sim, s': Sim)
    requires EachOnce(s) && Dispatched(s, s')
    ensures EachOnce(s')
  {
    var rest := multiset(s.workload) + multiset(s.waiting) + multiset(s.finished);
    assert Everyone(s) == rest + (multiset(s.ready) + OnCores(s.core));
    assert Everyone(s') == rest + (multiset(s'.ready) + OnCores(s'.core));
  }

  lemma DispatchedTwice(s: Sim, t: Sim, u: Sim)
    requires Dispatched(s, t) && Dispatched(t, u)
    ensures Dispatched(s, u)
  {
    forall i | 0 <= i < |s.threads|
      ensures SameWork(s.threads[i], u.threads[i])
    {
      assert SameWork(s.threads[i], t.threads[i]) && SameWork(t.threads[i], u.threads[i]);
    }
  }

  // ----- Who is never preempted

  /** The search for a victim starts from -1: the thread on core `c` is never found. */
  ghost predicate Shielded(s: Sim, c: int, key: Key)
  {
    0 <= c < |s.core| && s.core[c] != -1 && RunKey(s.threads, s.core[c], key) <= -1
  }

  ghost predicate Outranked(d: Sim, c: int, j: int)
  {
    && 0 <= c < |d.core| && d.core[c] != -1 && j in d.ready
    && RunKey(d.threads, j, Priority) < RunKey(d.threads, d.core[c], Priority)
  }

  ghost predicate SomebodyOutranked(d: Sim)
  {
    exists c, j :: Outranked(d, c, j)
  }

  /** Shielded threads stay; of the others, those with negative keys were the best of the ready queue when they were
      bound. */
  ghost predicate BestFirst(s: Sim, s': Sim, key: Key)
    requires |s'.core| == |s.core|
  {
    && (forall c :: 0 <= c < |s.core| && Shielded(s, c, key) ==> s'.core[c] == s.core[c])
    && (forall c, j :: 0 <= c < |s.core| && !Shielded(s, c, key) && s'.core[c] != -1 && j in s'.ready ==>
         RunKey(s'.threads, s'.core[c], key) > -1
         || RunKey(s'.threads, s'.core[c], key) <= RunKey(s'.threads, j, key))
  }

  lemma FilledBestFirst(s: Sim, s': Sim, key: Key)
    requires Filling(s, s', Smallest(key))
    ensures BestFirst(s, s', key)
  {
    forall c, j | 0 <= c < |s.core| && !Shielded(s, c, key) && s'.core[c] != -1 && j in s'.ready
      ensures RunKey(s'.threads, s'.core[c], key) > -1
              || RunKey(s'.threads, s'.core[c], key) <= RunKey(s'.threads, j, key)
    {
      SameKeys(s, s', s'.core[c], key);
      SameKeys(s, s', j, key);
    }
  }

  lemma ReplacedBestFirst(s0: Sim, s: Sim, s': Sim, key: Key, k: int, c: int)
    requires Dispatched(s0, s) && BestFirst(s0, s, key) && Replaced(s, s', key, k, c)
    ensures |s'.core| == |s0.core| && BestFirst(s0, s', key)
  {
    SameKeys(s0, s, s.core[c], key);
    forall d, j | 0 <= d < |s0.core| && !Shielded(s0, d, key) && s'.core[d] != -1 && j in s'.ready
      ensures RunKey(s'.threads, s'.core[d], key) > -1
              || RunKey(s'.threads, s'.core[d], key) <= RunKey(s'.threads, j, key)
    {
      assert RunKey(s'.threads, j, key) == RunKey(s.threads, j, key);
      assert RunKey(s'.threads, s'.core[d], key) == RunKey(s.threads, s'.core[d], key);
      assert j in s.ready || j == s.core[c];
    }
  }

  lemma PutBackBestFirst(s0: Sim, s: Sim, s': Sim, key: Key, k: int)
    requires |s.core| == |s0.core| && BestFirst(s0, s, key) && PutBack(s, s', key, k)
    ensures BestFirst(s0, s', key)
  {
    forall j | j in s'.ready
      ensures j in s.ready
    {
    }
  }

  // ----- Sequence bookkeeping

  lemma OthersStay(core: seq<int>, c: nat, i: int)
    requires c < |core| && i != -1 && -1 !in core[..c]
    ensures -1 !in core[c := i][..c + 1]
  {
    assert core[c := i][..c + 1] == core[..c] + [i];
  }

  function MadeReady(s: Sim, i: int): Sim
    requires 0 <= i < |s.threads|
  {
    s.(ready := s.ready + [i], threads := s.threads[i := s.threads[i].(state := Ready)])
  }

  /** The first `n` entries of `q` that pass the test have been made ready, in order. */
  function Moved(s: Sim, q: seq<int>, test: int -> bool, n: nat): Sim
    requires n <= |q|
  {
    s.(ready := s.ready + Filter(q[..n], test), threads := Marked(s.threads, Filter(q[..n], test), Ready))
  }

  lemma MovedNext(s: Sim, q: seq<int>, test: int -> bool, n: nat)
    requires n < |q| && 0 <= q[n] < |s.threads|
    ensures Moved(s, q, test, n + 1) == if test(q[n]) then MadeReady(Moved(s, q, test, n), q[n])
            else Moved(s, q, test, n)
  {
    assert q[..n + 1][..n] == q[..n];
    var before, after := Filter(q[..n], test), Filter(q[..n + 1], test);
    if test(q[n]) {
      assert after == before + [q[n]];
      assert forall j :: j in after <==> j in before || j == q[n];
      var marked := Marked(s.threads, before, Ready);
      assert Marked(s.threads, after, Ready) == marked[q[n] := marked[q[n]].(state := Ready)];
    } else {
      assert after == before;
    }
  }

  lemma OthersNext(q: seq<int>, test: int -> bool, n: nat)
    requires n < |q|
    ensures Others(q[..n + 1], test) == Others(q[..n], test) + if test(q[n]) then [] else [q[n]]
  {
    assert q[..n + 1][..n] == q[..n];
  }

  lemma MovedThread(s: Sim, q: seq<int>, test: int -> bool, n: nat, i: int)
    requires n <= |q| && 0 <= i < |s.threads|
    ensures Moved(s, q, test, n).threads[i] == s.threads[i].(state := Moved(s, q, test, n).threads[i].state)
  {
  }
}
