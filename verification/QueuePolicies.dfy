/** FIFO and LRU seen as a queue of distinct pages, oldest first: both are
    `k`-competitive, and LRU alone obeys the stack (inclusion) property. */
module QueuePolicies {
  import opened DemandPaging
  import opened Distinctness

  function IndexOf(q: seq<int>, page: int): (i: nat)
    requires page in q
    ensures i < |q| && q[i] == page
    ensures page !in q[..i]
  {
    if q[0] == page then 0 else 1 + IndexOf(q[1..], page)
  }

  function RemoveAt(q: seq<int>, i: nat): seq<int>
    requires i < |q|
  {
    q[..i] + q[i + 1..]
  }

  function WithoutFirst(q: seq<int>, page: int): seq<int>
  {
    if page in q then RemoveAt(q, IndexOf(q, page)) else q
  }

  function Admit(q: seq<int>, page: int, k: nat): seq<int>
  {
    (if |q| < k || q == [] then q else q[1..]) + [page]
  }

  datatype Policy = Fifo | Lru

  function Next(policy: Policy, q: seq<int>, page: int, k: nat): seq<int>
  {
    if page !in q then Admit(q, page, k)
    else match policy
      case Fifo => q
      case Lru => WithoutFirst(q, page) + [page]
  }

  /** A queue policy may or may not refresh a page on a hit; on a miss it drops the oldest. */
  ghost predicate QueueStep(q: seq<int>, page: int, q': seq<int>, k: nat)
  {
    if page in q then q' == q || q' == WithoutFirst(q, page) + [page]
    else q' == Admit(q, page, k)
  }

  ghost predicate QueueStepAt(refs: seq<int>, k: nat, queues: seq<seq<int>>, t: nat)
    requires t < |refs| && |queues| == |refs| + 1
  {
    QueueStep(queues[t], refs[t], queues[t + 1], k)
  }

  ghost predicate QueueRun(refs: seq<int>, k: nat, queues: seq<seq<int>>)
  {
    && |queues| == |refs| + 1
    && queues[0] == []
    && forall t :: 0 <= t < |refs| ==> QueueStepAt(refs, k, queues, t)
  }

  ghost function QueueMisses(refs: seq<int>, queues: seq<seq<int>>, t: nat): nat
    requires t <= |refs| && t <= |queues|
  {
    if t == 0 then 0
    else QueueMisses(refs, queues, t - 1) + if refs[t - 1] in queues[t - 1] then 0 else 1
  }

  // ----- The queue keeps at most k distinct pages

  lemma WithoutFirstFacts(q: seq<int>, page: int)
    requires Distinct(q)
    ensures Distinct(WithoutFirst(q, page))
    ensures |WithoutFirst(q, page)| == |q| - if page in q then 1 else 0
    ensures Pages(WithoutFirst(q, page)) == Pages(q) - {page}
  {
    if page in q {
      var i := IndexOf(q, page);
      assert q == q[..i] + [page] + q[i + 1..];
      assert page !in q[i + 1..];
    }
  }

  ghost predicate GoodQueue(q: seq<int>, k: nat)
  {
    Distinct(q) && |q| <= k
  }

  lemma StepKeepsGood(q: seq<int>, page: int, q': seq<int>, k: nat)
    requires k >= 1 && GoodQueue(q, k) && QueueStep(q, page, q', k)
    ensures GoodQueue(q', k)
    ensures Pages(q') <= Pages(q) + {page} && page in q'
  {
    WithoutFirstFacts(q, page);
  }

  lemma {:induction false} RunKeepsGood(refs: seq<int>, k: nat, queues: seq<seq<int>>, t: nat)
    requires k >= 1 && QueueRun(refs, k, queues) && t <= |refs|
    ensures GoodQueue(queues[t], k)
  {
    if t > 0 {
      RunKeepsGood(refs, k, queues, t - 1);
      assert QueueStepAt(refs, k, queues, t - 1);
      StepKeepsGood(queues[t - 1], refs[t - 1], queues[t], k);
    }
  }

  lemma {:induction false} PagesSize(q: seq<int>)
    requires Distinct(q)
    ensures |Pages(q)| == |q|
  {
    if q != [] {
      var init := q[..|q| - 1];
      PagesSize(init);
      assert q == init + [q[|q| - 1]];
      assert Pages(q) == Pages(init) + {q[|q| - 1]};
    }
  }

  /** A queue run is a demand-paging schedule with the same faults. */
  lemma RunIsSchedule(refs: seq<int>, k: nat, queues: seq<seq<int>>) returns (caches: seq<set<int>>)
    requires k >= 1 && QueueRun(refs, k, queues)
    ensures caches == seq(|refs| + 1, t requires 0 <= t <= |refs| => Pages(queues[t]))
    ensures Schedule(refs, k, caches)
    ensures Misses(refs, caches, |refs|) == QueueMisses(refs, queues, |refs|)
  {
    caches := seq(|refs| + 1, t requires 0 <= t <= |refs| => Pages(queues[t]));
    forall t | 0 <= t < |refs|
      ensures ServedAt(refs, k, caches, t)
    {
      RunKeepsGood(refs, k, queues, t);
      assert QueueStepAt(refs, k, queues, t);
      StepKeepsGood(queues[t], refs[t], queues[t + 1], k);
      PagesSize(queues[t + 1]);
    }
    SameMisses(refs, queues, caches, |refs|);
  }

  lemma {:induction false} SameMisses(refs: seq<int>, queues: seq<seq<int>>, caches: seq<set<int>>, t: nat)
    requires t <= |refs| && |queues| == |caches| == |refs| + 1
    requires forall i :: 0 <= i <= |refs| ==> caches[i] == Pages(queues[i])
    ensures Misses(refs, caches, t) == QueueMisses(refs, queues, t)
  {
    if t > 0 {
      SameMisses(refs, queues, caches, t - 1);
    }
  }

  // ----- Competitiveness

  /** Each queued page that the other cache lacks weighs its rank, 1 for the oldest. */
  ghost function Weight(q: seq<int>, cache: set<int>): nat
  {
    if q == [] then 0
    else Weight(q[..|q| - 1], cache) + if q[|q| - 1] in cache then 0 else |q|
  }

  lemma {:induction false} WeightOfAppend(q: seq<int>, page: int, cache: set<int>)
    requires page in cache
    ensures Weight(q + [page], cache) == Weight(q, cache)
  {
    assert (q + [page])[..|q|] == q;
  }

  lemma {:induction false} WeightAfterLoad(q: seq<int>, cache: set<int>, page: int)
    ensures Weight(q, cache + {page}) <= Weight(q, cache)
  {
    if q != [] {
      WeightAfterLoad(q[..|q| - 1], cache, page);
    }
  }

  lemma {:induction false} WeightAfterDrop(q: seq<int>, cache: set<int>, page: int)
    requires Distinct(q)
    ensures page !in q ==> Weight(q, cache - {page}) == Weight(q, cache)
    ensures Weight(q, cache - {page}) <= Weight(q, cache) + |q|
  {
    if q != [] {
      WeightAfterDrop(q[..|q| - 1], cache, page);
    }
  }

  lemma {:induction false} WeightAfterShift(q: seq<int>, cache: set<int>)
    requires q != []
    ensures Weight(q[1..], cache) <= Weight(q, cache)
    ensures (exists p :: p in q && p !in cache) ==> Weight(q[1..], cache) < Weight(q, cache)
  {
    if |q| > 1 {
      var init := q[..|q| - 1];
      WeightAfterShift(init, cache);
      assert q[1..][..|q| - 2] == init[1..];
      assert q == init + [q[|q| - 1]];
    }
  }

  lemma {:induction false} WeightAfterRemoval(q: seq<int>, i: nat, cache: set<int>)
    requires i < |q|
    ensures Weight(RemoveAt(q, i), cache) <= Weight(q, cache)
  {
    if i == |q| - 1 {
      assert RemoveAt(q, i) == q[..i];
    } else {
      var init := q[..|q| - 1];
      WeightAfterRemoval(init, i, cache);
      assert RemoveAt(q, i)[..|q| - 2] == RemoveAt(init, i);
    }
  }

  /** `k * n`, kept out of the solver's non-linear arithmetic. */
  ghost function Times(k: nat, n: nat): nat
  {
    if n == 0 then 0 else Times(k, n - 1) + k
  }

  lemma {:induction false} TimesIsProduct(k: nat, n: nat)
    ensures Times(k, n) == k * n
  {
    if n > 0 {
      TimesIsProduct(k, n - 1);
    }
  }

  /** The queue's faults are paid for: `k` per fault of the other cache, less
      the weight still to be worked off and `k` for each page it has yet to drop. */
  ghost predicate Covered(k: nat, q: seq<int>, qFaults: nat, cache: set<int>, faults: nat)
  {
    qFaults + Weight(q, cache) + Times(k, |cache|) <= Times(k, faults) + |q|
  }

  lemma CoveredAfterLoad(k: nat, q: seq<int>, qFaults: nat, cache: set<int>, faults: nat, page: int)
    requires Covered(k, q, qFaults, cache, faults) && page !in cache
    ensures Covered(k, q, qFaults, cache + {page}, faults + 1)
  {
    WeightAfterLoad(q, cache, page);
    assert |cache + {page}| == |cache| + 1;
  }

  lemma CoveredAfterDrop(k: nat, q: seq<int>, qFaults: nat, cache: set<int>, faults: nat, page: int)
    requires Covered(k, q, qFaults, cache, faults) && page in cache && GoodQueue(q, k)
    ensures Covered(k, q, qFaults, cache - {page}, faults)
  {
    WeightAfterDrop(q, cache, page);
    assert |cache - {page}| == |cache| - 1;
  }

  lemma {:induction false} CoveredAfterDrops(k: nat, q: seq<int>, qFaults: nat, cache: set<int>, faults: nat,
                                             cache': set<int>)
    requires Covered(k, q, qFaults, cache, faults) && cache' <= cache && GoodQueue(q, k)
    ensures Covered(k, q, qFaults, cache', faults)
    decreases |cache|
  {
    if cache' != cache {
      var page := Leftover(cache, cache');
      CoveredAfterDrop(k, q, qFaults, cache, faults, page);
      CoveredAfterDrops(k, q, qFaults, cache - {page}, faults, cache');
    }
  }

  lemma HitPaysNothing(q: seq<int>, page: int, cache: set<int>)
    requires Distinct(q) && page in q && page in cache
    ensures |WithoutFirst(q, page) + [page]| == |q|
    ensures Weight(WithoutFirst(q, page) + [page], cache) <= Weight(q, cache)
  {
    WeightAfterRemoval(q, IndexOf(q, page), cache);
    WeightOfAppend(WithoutFirst(q, page), page, cache);
  }

  /** A full queue about to load a page the other cache holds lists some page that cache lacks. */
  lemma FullQueueHasOutsider(k: nat, q: seq<int>, page: int, cache: set<int>) returns (p: int)
    requires Distinct(q) && |q| == k && page !in q && page in cache && |cache| <= k
    ensures p in q && p !in cache
  {
    PagesSize(q);
    assert page !in Pages(q);
    if Pages(q) <= cache {
      SubsetSize(Pages(q), cache);
    }
    p :| p in Pages(q) && p !in cache;
  }

  lemma MissPaysOne(k: nat, q: seq<int>, page: int, cache: set<int>)
    requires k >= 1 && GoodQueue(q, k) && page !in q && page in cache && |cache| <= k
    ensures Weight(Admit(q, page, k), cache) + 1 <= Weight(q, cache) + |Admit(q, page, k)| - |q|
  {
    if |q| < k {
      WeightOfAppend(q, page, cache);
    } else {
      var p := FullQueueHasOutsider(k, q, page, cache);
      WeightAfterShift(q, cache);
      WeightOfAppend(q[1..], page, cache);
    }
  }

  lemma QueueServes(k: nat, q: seq<int>, page: int, q': seq<int>, cache: set<int>)
    requires k >= 1 && GoodQueue(q, k) && QueueStep(q, page, q', k)
    requires page in cache && |cache| <= k
    ensures Weight(q', cache) + (if page in q then 0 else 1) <= Weight(q, cache) + |q'| - |q|
  {
    if page in q {
      HitPaysNothing(q, page, cache);
    } else {
      MissPaysOne(k, q, page, cache);
    }
  }

  lemma CoveredStep(k: nat, q: seq<int>, qFaults: nat, q': seq<int>, page: int,
                    cache: set<int>, faults: nat, cache': set<int>)
    requires k >= 1 && GoodQueue(q, k) && QueueStep(q, page, q', k) && Serves(cache, page, cache', k)
    requires Covered(k, q, qFaults, cache, faults)
    ensures Covered(k, q', qFaults + (if page in q then 0 else 1), cache', faults + Cost(page, cache))
  {
    if page in cache {
      assert cache + {page} == cache;
    } else {
      CoveredAfterLoad(k, q, qFaults, cache, faults, page);
    }
    CoveredAfterDrops(k, q, qFaults, cache + {page}, faults + Cost(page, cache), cache');
    QueueServes(k, q, page, q', cache');
  }

  lemma {:induction false} StaysCovered(refs: seq<int>, k: nat, queues: seq<seq<int>>, caches: seq<set<int>>, t: nat)
    requires k >= 1 && QueueRun(refs, k, queues) && Schedule(refs, k, caches) && t <= |refs|
    ensures Covered(k, queues[t], QueueMisses(refs, queues, t), caches[t], Misses(refs, caches, t))
  {
    if t > 0 {
      StaysCovered(refs, k, queues, caches, t - 1);
      RunKeepsGood(refs, k, queues, t - 1);
      assert QueueStepAt(refs, k, queues, t - 1);
      assert ServedAt(refs, k, caches, t - 1);
      CoveredStep(k, queues[t - 1], QueueMisses(refs, queues, t - 1), queues[t], refs[t - 1],
                  caches[t - 1], Misses(refs, caches, t - 1), caches[t]);
    }
  }

  /** Sleator and Tarjan: a queue policy faults at most `k` times as often as
      any schedule with the same `k` frames. */
  lemma Competitive(refs: seq<int>, k: nat, queues: seq<seq<int>>, caches: seq<set<int>>)
    requires k >= 1 && QueueRun(refs, k, queues) && Schedule(refs, k, caches)
    ensures QueueMisses(refs, queues, |refs|) <= k * Misses(refs, caches, |refs|)
  {
    StaysCovered(refs, k, queues, caches, |refs|);
    RunKeepsGood(refs, k, queues, |refs|);
    if |refs| > 0 {
      assert ServedAt(refs, k, caches, |refs| - 1);
      assert Times(k, |caches[|refs|]|) >= k;
      TimesIsProduct(k, Misses(refs, caches, |refs|));
    }
  }

  // ----- The two policies

  ghost predicate NextAt(policy: Policy, refs: seq<int>, k: nat, queues: seq<seq<int>>, t: nat)
    requires t < |refs| && t + 1 < |queues|
  {
    queues[t + 1] == Next(policy, queues[t], refs[t], k)
  }

  /** The queue before each reference and after the last. */
  ghost predicate Runs(policy: Policy, refs: seq<int>, k: nat, queues: seq<seq<int>>)
  {
    && |queues| == |refs| + 1
    && queues[0] == []
    && forall t :: 0 <= t < |refs| ==> NextAt(policy, refs, k, queues, t)
  }

  lemma ExtendRun(policy: Policy, refs: seq<int>, k: nat, before: seq<seq<int>>, queues: seq<seq<int>>)
    requires refs != [] && Runs(policy, refs[..|refs| - 1], k, before)
    requires queues == before + [Next(policy, before[|refs| - 1], refs[|refs| - 1], k)]
    ensures Runs(policy, refs, k, queues)
  {
    var init := refs[..|refs| - 1];
    forall t | 0 <= t < |refs|
      ensures NextAt(policy, refs, k, queues, t)
    {
      if t < |init| {
        assert NextAt(policy, init, k, before, t);
      }
    }
  }

  ghost function Queues(policy: Policy, refs: seq<int>, k: nat): (queues: seq<seq<int>>)
    ensures Runs(policy, refs, k, queues)
  {
    if refs == [] then [[]]
    else
      var n := |refs| - 1;
      var before := Queues(policy, refs[..n], k);
      var queues := before + [Next(policy, before[n], refs[n], k)];
      ExtendRun(policy, refs, k, before, queues);
      queues
  }

  ghost function Faults(policy: Policy, refs: seq<int>, k: nat): nat
  {
    QueueMisses(refs, Queues(policy, refs, k), |refs|)
  }

  lemma {:induction false} RunIsUnique(policy: Policy, refs: seq<int>, k: nat, queues: seq<seq<int>>, t: nat)
    requires Runs(policy, refs, k, queues) && t <= |refs|
    ensures queues[..t + 1] == Queues(policy, refs, k)[..t + 1]
  {
    if t > 0 {
      RunIsUnique(policy, refs, k, queues, t - 1);
      var other := Queues(policy, refs, k);
      assert queues[t - 1] == queues[..t][t - 1] == other[..t][t - 1] == other[t - 1];
      assert NextAt(policy, refs, k, queues, t - 1) && NextAt(policy, refs, k, other, t - 1);
    }
  }

  lemma FaultsOfRun(policy: Policy, refs: seq<int>, k: nat, queues: seq<seq<int>>)
    requires Runs(policy, refs, k, queues)
    ensures QueueMisses(refs, queues, |refs|) == Faults(policy, refs, k)
  {
    RunIsUnique(policy, refs, k, queues, |refs|);
    assert queues == queues[..|refs| + 1] == Queues(policy, refs, k);
  }

  // A run built up reference by reference

  ghost predicate RunSoFar(policy: Policy, refs: seq<int>, k: nat, queues: seq<seq<int>>, t: nat, faults: nat)
    requires t <= |refs|
  {
    && |queues| == t + 1
    && queues[0] == []
    && QueueMisses(refs, queues, t) == faults
    && forall i :: 0 <= i < t ==> NextAt(policy, refs, k, queues, i)
  }

  lemma {:induction false} QueueMissesDependOnPrefix(refs: seq<int>, queues: seq<seq<int>>, after: seq<int>, t: nat)
    requires t <= |refs| && t <= |queues|
    ensures QueueMisses(refs, queues + [after], t) == QueueMisses(refs, queues, t)
  {
    if t > 0 {
      QueueMissesDependOnPrefix(refs, queues, after, t - 1);
    }
  }

  lemma RunExtend(policy: Policy, refs: seq<int>, k: nat, queues: seq<seq<int>>, t: nat, faults: nat, after: seq<int>)
    requires t < |refs| && RunSoFar(policy, refs, k, queues, t, faults)
    requires after == Next(policy, queues[t], refs[t], k)
    ensures RunSoFar(policy, refs, k, queues + [after], t + 1, faults + if refs[t] in queues[t] then 0 else 1)
  {
    var queues' := queues + [after];
    QueueMissesDependOnPrefix(refs, queues, after, t);
    forall i | 0 <= i <= t
      ensures NextAt(policy, refs, k, queues', i)
    {
      if i < t {
        assert NextAt(policy, refs, k, queues, i);
      }
    }
  }

  /** FIFO and LRU fault at most `k` times as often as the best schedule for `k` frames. */
  lemma PolicyCompetitive(policy: Policy, refs: seq<int>, k: nat, best: nat)
    requires k >= 1 && IsMinimum(refs, k, best)
    ensures best <= Faults(policy, refs, k) <= k * best
  {
    var queues := Queues(policy, refs, k);
    assert forall t :: 0 <= t < |refs| ==> NextAt(policy, refs, k, queues, t) ==> QueueStepAt(refs, k, queues, t);
    var caches :| Schedule(refs, k, caches) && Misses(refs, caches, |refs|) == best;
    Competitive(refs, k, queues, caches);
    var own := RunIsSchedule(refs, k, queues);
  }

  // ----- LRU holds exactly the k most recently used distinct pages

  /** The pages referenced from `u` on, up to but excluding `t`. */
  ghost function Since(refs: seq<int>, u: int, t: int): set<int>
    requires 0 <= u <= t <= |refs|
  {
    set w | u <= w < t :: refs[w]
  }

  ghost function Tail(q: seq<int>, i: int): set<int>
    requires 0 <= i <= |q|
  {
    Since(q, i, |q|)
  }

  /** `u` is the last reference to `page` before `t`; since then exactly `pages` were referenced. */
  ghost predicate LastUse(refs: seq<int>, t: int, page: int, u: int, pages: set<int>)
    requires 0 <= t <= |refs|
  {
    0 <= u < t && refs[u] == page && (forall w :: u < w < t ==> refs[w] != page) && Since(refs, u, t) == pages
  }

  /** From position `i` on the queue holds exactly what was referenced since the last use of `q[i]`. */
  ghost predicate TailIsRecent(refs: seq<int>, t: int, q: seq<int>, i: int)
    requires 0 <= t <= |refs| && 0 <= i < |q|
  {
    exists u :: LastUse(refs, t, q[i], u, Tail(q, i))
  }

  ghost predicate ByRecency(refs: seq<int>, t: int, q: seq<int>)
    requires 0 <= t <= |refs|
  {
    forall i :: 0 <= i < |q| ==> TailIsRecent(refs, t, q, i)
  }

  /** Pages referenced since `u` are all in the queue, unless there are more than `k` of them. */
  ghost predicate HoldsSince(refs: seq<int>, t: int, q: seq<int>, k: nat, u: int)
    requires 0 <= u <= t <= |refs|
  {
    |Since(refs, u, t)| <= k ==> Since(refs, u, t) <= Pages(q)
  }

  ghost predicate HoldsRecent(refs: seq<int>, t: int, q: seq<int>, k: nat)
    requires 0 <= t <= |refs|
  {
    forall u :: 0 <= u < t ==> HoldsSince(refs, t, q, k, u)
  }

  lemma SinceExtends(refs: seq<int>, u: nat, t: nat)
    requires u <= t < |refs|
    ensures Since(refs, u, t + 1) == Since(refs, u, t) + {refs[t]}
  {
    assert refs[t] in Since(refs, u, t + 1);
  }

  /** Where the page at position `j` of the new queue stood in the old one. */
  function OldPosition(q: seq<int>, page: int, k: nat, j: nat): nat
  {
    if page in q then (if j < IndexOf(q, page) then j else j + 1)
    else if |q| < k then j else j + 1
  }

  lemma TailAfterRemoval(q: seq<int>, at: nat, j: nat)
    requires at < |q| && j < |q| - 1
    ensures var i := if j < at then j else j + 1; var rest := RemoveAt(q, at);
            rest[j] == q[i] && Tail(rest, j) + {q[at]} == Tail(q, i) + {q[at]}
  {
    var rest := RemoveAt(q, at);
    var i := if j < at then j else j + 1;
    forall x | x in Tail(q, i) && x != q[at]
      ensures x in Tail(rest, j)
    {
      var w :| i <= w < |q| && q[w] == x;
      assert rest[if w < at then w else w - 1] == x;
    }
    forall x | x in Tail(rest, j)
      ensures x in Tail(q, i) + {q[at]}
    {
      var w :| j <= w < |rest| && rest[w] == x;
      assert q[if w < at then w else w + 1] == x;
    }
  }

  lemma TailOfAppend(q: seq<int>, page: int, j: nat)
    requires j <= |q|
    ensures Tail(q + [page], j) == Tail(q, j) + {page}
  {
    var next := q + [page];
    assert next[|q|] == page;
    SinceExtends(next, j, |q|);
    assert forall w :: 0 <= w < |q| ==> next[w] == q[w];
    assert Since(next, j, |q|) == Tail(q, j);
  }

  lemma TailOfRest(q: seq<int>, j: nat)
    requires q != [] && j <= |q| - 1
    ensures Tail(q[1..], j) == Tail(q, j + 1)
  {
    var rest := q[1..];
    forall x | x in Tail(q, j + 1)
      ensures x in Tail(rest, j)
    {
      var w :| j + 1 <= w < |q| && q[w] == x;
      assert rest[w - 1] == x;
    }
  }

  lemma TailAfterStep(q: seq<int>, page: int, k: nat, next: seq<int>, j: nat)
    requires k >= 1 && GoodQueue(q, k)
    requires next == Next(Lru, q, page, k) && j < |next| - 1
    ensures var i := OldPosition(q, page, k, j);
            i < |q| && q[i] == next[j] && q[i] != page && Tail(next, j) == Tail(q, i) + {page}
  {
    if page in q {
      var rest := WithoutFirst(q, page);
      TailAfterRemoval(q, IndexOf(q, page), j);
      TailOfAppend(rest, page, j);
    } else if |q| < k {
      TailOfAppend(q, page, j);
    } else {
      TailOfRest(q, j);
      TailOfAppend(q[1..], page, j);
    }
  }

  lemma LastUseAfter(refs: seq<int>, t: nat, page: int, u: int, pages: set<int>)
    requires t < |refs| && LastUse(refs, t, page, u, pages) && refs[t] != page
    ensures LastUse(refs, t + 1, page, u, pages + {refs[t]})
  {
    SinceExtends(refs, u, t);
  }

  lemma RecencyAt(refs: seq<int>, t: nat, q: seq<int>, next: seq<int>, k: nat, j: nat) returns (u: int)
    requires t < |refs| && k >= 1 && GoodQueue(q, k) && ByRecency(refs, t, q)
    requires next == Next(Lru, q, refs[t], k) && j < |next|
    ensures LastUse(refs, t + 1, next[j], u, Tail(next, j))
  {
    if j == |next| - 1 {
      u := t;
      assert next[j] == refs[t];
      assert Since(refs, t, t + 1) == {refs[t]} == Tail(next, j);
    } else {
      var i := OldPosition(q, refs[t], k, j);
      TailAfterStep(q, refs[t], k, next, j);
      assert TailIsRecent(refs, t, q, i);
      u :| LastUse(refs, t, q[i], u, Tail(q, i));
      LastUseAfter(refs, t, q[i], u, Tail(q, i));
    }
  }

  lemma RecencyStep(refs: seq<int>, t: nat, q: seq<int>, next: seq<int>, k: nat)
    requires t < |refs| && k >= 1 && GoodQueue(q, k) && ByRecency(refs, t, q)
    requires next == Next(Lru, q, refs[t], k)
    ensures ByRecency(refs, t + 1, next)
  {
    var now := t + 1;
    forall j | 0 <= j < |next|
      ensures TailIsRecent(refs, now, next, j)
    {
      var u := RecencyAt(refs, t, q, next, k, j);
    }
  }

  lemma TailSize(q: seq<int>, i: nat)
    requires Distinct(q) && i <= |q|
    ensures |Tail(q, i)| == |q| - i
    decreases |q| - i
  {
    if i == |q| {
      assert Tail(q, i) == {};
    } else {
      TailSize(q, i + 1);
      assert Tail(q, i) == {q[i]} + Tail(q, i + 1);
    }
  }

  /** A page still among the `k` most recent is not the one LRU drops. */
  lemma DroppedIsOld(refs: seq<int>, t: nat, q: seq<int>, k: nat, u: nat)
    requires t <= |refs| && k >= 1 && GoodQueue(q, k) && ByRecency(refs, t, q)
    requires |q| == k && u < t && |Since(refs, u, t)| < k
    ensures q[0] !in Since(refs, u, t)
  {
    var i := 0;
    assert TailIsRecent(refs, t, q, i);
    var u0 :| LastUse(refs, t, q[i], u0, Tail(q, i));
    TailSize(q, 0);
    if u <= u0 {
      SubsetSize(Since(refs, u0, t), Since(refs, u, t));
    }
  }

  /** What is resident after the step: all that was, but for the oldest page when LRU drops it. */
  lemma PagesAfterStep(q: seq<int>, page: int, k: nat, next: seq<int>)
    requires k >= 1 && GoodQueue(q, k) && next == Next(Lru, q, page, k)
    ensures page in q || |q| < k ==> Pages(next) == Pages(q) + {page}
    ensures page !in q && |q| == k ==> Pages(next) == Pages(q) - {q[0]} + {page}
  {
    if page in q {
      WithoutFirstFacts(q, page);
      assert Pages(next) == Pages(WithoutFirst(q, page)) + {page};
    } else if |q| < k {
      assert next == q + [page];
    } else {
      assert q == [q[0]] + q[1..];
      assert next == q[1..] + [page];
    }
  }

  lemma HoldsRecentAt(refs: seq<int>, t: nat, q: seq<int>, next: seq<int>, k: nat, u: nat)
    requires t < |refs| && k >= 1 && GoodQueue(q, k) && ByRecency(refs, t, q) && HoldsRecent(refs, t, q, k)
    requires next == Next(Lru, q, refs[t], k)
    requires u < t
    ensures HoldsSince(refs, t + 1, next, k, u)
  {
    var page := refs[t];
    var before := Since(refs, u, t);
    SinceExtends(refs, u, t);
    SubsetSize(before, before + {page});
    PagesAfterStep(q, page, k, next);
    assert HoldsSince(refs, t, q, k, u);
    if page !in Pages(q) && |q| == k && |before + {page}| <= k {
      assert |before + {page}| == |before| + 1;
      DroppedIsOld(refs, t, q, k, u);
    }
  }

  lemma HoldsRecentStep(refs: seq<int>, t: nat, q: seq<int>, next: seq<int>, k: nat)
    requires t < |refs| && k >= 1 && GoodQueue(q, k) && ByRecency(refs, t, q) && HoldsRecent(refs, t, q, k)
    requires next == Next(Lru, q, refs[t], k)
    ensures HoldsRecent(refs, t + 1, next, k)
  {
    var now := t + 1;
    forall u | 0 <= u < now
      ensures HoldsSince(refs, now, next, k, u)
    {
      if u < t {
        HoldsRecentAt(refs, t, q, next, k, u);
      } else {
        PagesAfterStep(q, refs[t], k, next);
        assert Since(refs, u, t + 1) == {refs[t]};
      }
    }
  }

  lemma {:induction false} LruInvariant(refs: seq<int>, k: nat, queues: seq<seq<int>>, t: nat)
    requires k >= 1 && t <= |refs| && Runs(Lru, refs, k, queues)
    ensures GoodQueue(queues[t], k)
    ensures ByRecency(refs, t, queues[t])
    ensures HoldsRecent(refs, t, queues[t], k)
  {
    if t > 0 {
      LruInvariant(refs, k, queues, t - 1);
      assert NextAt(Lru, refs, k, queues, t - 1);
      StepKeepsGood(queues[t - 1], refs[t - 1], queues[t], k);
      RecencyStep(refs, t - 1, queues[t - 1], queues[t], k);
      HoldsRecentStep(refs, t - 1, queues[t - 1], queues[t], k);
    }
  }

  /** At most `k` distinct pages were referenced since some use of `page`, that one included. */
  ghost predicate WithinStackDistance(refs: seq<int>, k: nat, t: nat, page: int)
    requires t <= |refs|
  {
    exists u :: 0 <= u < t && refs[u] == page && |Since(refs, u, t)| <= k
  }

  lemma QueueIsStackDistance(refs: seq<int>, k: nat, t: nat, q: seq<int>, page: int)
    requires t <= |refs| && GoodQueue(q, k) && ByRecency(refs, t, q) && HoldsRecent(refs, t, q, k)
    ensures page in q <==> WithinStackDistance(refs, k, t, page)
  {
    if page in q {
      var i :| 0 <= i < |q| && q[i] == page;
      assert TailIsRecent(refs, t, q, i);
      var u :| LastUse(refs, t, q[i], u, Tail(q, i));
      TailSize(q, i);
    }
    if WithinStackDistance(refs, k, t, page) {
      var u :| 0 <= u < t && refs[u] == page && |Since(refs, u, t)| <= k;
      assert HoldsSince(refs, t, q, k, u);
      assert page in Since(refs, u, t);
    }
  }

  /** `k`-frame LRU holds exactly the pages within stack distance `k`. */
  lemma LruHoldsMostRecent(refs: seq<int>, k: nat, t: nat, page: int)
    requires k >= 1 && t <= |refs|
    ensures page in Queues(Lru, refs, k)[t] <==> WithinStackDistance(refs, k, t, page)
  {
    var queues := Queues(Lru, refs, k);
    LruInvariant(refs, k, queues, t);
    QueueIsStackDistance(refs, k, t, queues[t], page);
  }

  /** Inclusion: with more frames LRU holds at least the same pages. */
  lemma LruInclusion(refs: seq<int>, k: nat, k': nat, t: nat)
    requires 1 <= k <= k' && t <= |refs|
    ensures Pages(Queues(Lru, refs, k)[t]) <= Pages(Queues(Lru, refs, k')[t])
  {
    forall page | page in Pages(Queues(Lru, refs, k)[t])
      ensures page in Pages(Queues(Lru, refs, k')[t])
    {
      LruHoldsMostRecent(refs, k, t, page);
      LruHoldsMostRecent(refs, k', t, page);
    }
  }

  lemma {:induction false} FewerMisses(refs: seq<int>, queues: seq<seq<int>>, queues': seq<seq<int>>, t: nat)
    requires t <= |refs| && |queues| == |queues'| == |refs| + 1
    requires forall i :: 0 <= i < |refs| ==> Pages(queues[i]) <= Pages(queues'[i])
    ensures QueueMisses(refs, queues', t) <= QueueMisses(refs, queues, t)
  {
    if t > 0 {
      FewerMisses(refs, queues, queues', t - 1);
      assert refs[t - 1] in queues[t - 1] ==> refs[t - 1] in Pages(queues[t - 1]);
    }
  }

  /** No Belady anomaly: more frames never give LRU more faults. */
  lemma LruMoreFramesNoMoreFaults(refs: seq<int>, k: nat, k': nat)
    requires 1 <= k <= k'
    ensures Faults(Lru, refs, k') <= Faults(Lru, refs, k)
  {
    var queues, queues' := Queues(Lru, refs, k), Queues(Lru, refs, k');
    forall i | 0 <= i < |refs|
      ensures Pages(queues[i]) <= Pages(queues'[i])
    {
      LruInclusion(refs, k, k', i);
    }
    FewerMisses(refs, queues, queues', |refs|);
  }
}
