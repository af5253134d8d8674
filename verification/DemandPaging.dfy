/** Demand paging on a reference string: what any replacement policy may do,
    and why evicting the page used farthest in the future is optimal. */
module DemandPaging {
  import opened Distinctness

  /** One reference served with at most `k` frames: the page ends up resident,
      nothing but that page is loaded, any pages may be dropped. */
  ghost predicate Serves(before: set<int>, page: int, after: set<int>, k: nat)
  {
    page in after && after <= before + {page} && |after| <= k
  }

  ghost predicate ServedAt(refs: seq<int>, k: nat, caches: seq<set<int>>, t: nat)
    requires t < |refs| && t + 1 < |caches|
  {
    Serves(caches[t], refs[t], caches[t + 1], k)
  }

  /** `caches[t]` is what is resident just before reference `t`. */
  ghost predicate Schedule(refs: seq<int>, k: nat, caches: seq<set<int>>)
  {
    && |caches| == |refs| + 1
    && caches[0] == {}
    && forall t :: 0 <= t < |refs| ==> ServedAt(refs, k, caches, t)
  }

  /** Faults among the first `t` references. */
  ghost function Misses(refs: seq<int>, caches: seq<set<int>>, t: nat): nat
    requires t <= |refs| && t <= |caches|
  {
    if t == 0 then 0
    else Misses(refs, caches, t - 1) + if refs[t - 1] in caches[t - 1] then 0 else 1
  }

  /** `faults` is the least number of faults with which `k` frames can serve `refs`. */
  ghost predicate IsMinimum(refs: seq<int>, k: nat, faults: nat)
  {
    && (exists caches :: Schedule(refs, k, caches) && Misses(refs, caches, |refs|) == faults)
    && (forall caches :: Schedule(refs, k, caches) ==> faults <= Misses(refs, caches, |refs|))
  }

  lemma {:induction false} MissesDependOnPrefix(refs: seq<int>, caches: seq<set<int>>, caches': seq<set<int>>, t: nat)
    requires t <= |refs| && t <= |caches| && t <= |caches'| && caches[..t] == caches'[..t]
    ensures Misses(refs, caches, t) == Misses(refs, caches', t)
  {
    if t > 0 {
      assert caches[t - 1] == caches[..t][t - 1] == caches'[..t][t - 1] == caches'[t - 1];
      assert caches[..t - 1] == caches[..t][..t - 1] == caches'[..t][..t - 1] == caches'[..t - 1];
      MissesDependOnPrefix(refs, caches, caches', t - 1);
    }
  }

  /** First reference to `page` at or after `t`; `|refs|` when there is none. */
  function NextUse(refs: seq<int>, t: nat, page: int): (u: nat)
    requires t <= |refs|
    ensures t <= u <= |refs|
    ensures u < |refs| ==> refs[u] == page
    ensures page !in refs[t..u]
    decreases |refs| - t
  {
    if t == |refs| || refs[t] == page then t else NextUse(refs, t + 1, page)
  }

  // ----- Distinct pages of a stretch of references

  ghost function Pages(refs: seq<int>): set<int>
  {
    set p | p in refs
  }

  lemma PagesExtend(refs: seq<int>, t: nat)
    requires t < |refs|
    ensures Pages(refs[..t + 1]) == Pages(refs[..t]) + {refs[t]}
  {
    assert refs[..t + 1] == refs[..t] + [refs[t]];
  }

  lemma {:induction false} EveryPageMissesOnce(refs: seq<int>, k: nat, caches: seq<set<int>>, t: nat)
    requires Schedule(refs, k, caches) && t <= |refs|
    ensures caches[t] <= Pages(refs[..t])
    ensures |Pages(refs[..t])| <= Misses(refs, caches, t)
  {
    if t == 0 {
      assert Pages(refs[..0]) == {};
    } else {
      EveryPageMissesOnce(refs, k, caches, t - 1);
      assert ServedAt(refs, k, caches, t - 1);
      PagesExtend(refs, t - 1);
      var before := Pages(refs[..t - 1]);
      if refs[t - 1] in caches[t - 1] {
        assert before + {refs[t - 1]} == before;
      }
    }
  }

  // ----- Farthest-in-the-future eviction

  ghost predicate Farthest(refs: seq<int>, t: nat, cache: set<int>, victim: int)
    requires t < |refs|
  {
    victim in cache && forall p :: p in cache ==> NextUse(refs, t + 1, p) <= NextUse(refs, t + 1, victim)
  }

  ghost predicate FarthestStep(refs: seq<int>, k: nat, t: nat, before: set<int>, after: set<int>)
    requires t < |refs|
  {
    if refs[t] in before then after == before
    else if |before| < k then after == before + {refs[t]}
    else exists victim :: Farthest(refs, t, before, victim) && after == before - {victim} + {refs[t]}
  }

  ghost predicate FarthestAt(refs: seq<int>, k: nat, caches: seq<set<int>>, t: nat)
    requires t < |refs| && t + 1 < |caches|
  {
    FarthestStep(refs, k, t, caches[t], caches[t + 1])
  }

  /** The schedule of a policy that always evicts the page used farthest in the future. */
  ghost predicate FarthestSchedule(refs: seq<int>, k: nat, caches: seq<set<int>>)
  {
    && |caches| == |refs| + 1
    && caches[0] == {}
    && forall t :: 0 <= t < |refs| ==> FarthestAt(refs, k, caches, t)
  }

  /** Pages of `cache` whose next use is no later than `horizon`. */
  ghost function Soon(refs: seq<int>, t: nat, cache: set<int>, horizon: int): set<int>
    requires t <= |refs|
  {
    set p | p in cache && NextUse(refs, t, p) <= horizon
  }

  /** The potential argument: `m` is ahead of `o` when, for every horizon, the
      faults `o` has spent so far cover those of `m` and the surplus of soon
      needed pages that `o` holds. */
  ghost predicate Ahead(refs: seq<int>, t: nat, m: set<int>, mFaults: int, o: set<int>, oFaults: int)
    requires t <= |refs|
  {
    && mFaults <= oFaults
    && forall h :: mFaults + |Soon(refs, t, o, h)| <= oFaults + |Soon(refs, t, m, h)|
  }

  ghost function Cost(page: int, cache: set<int>): int
  {
    if page in cache then 0 else 1
  }

  /** What serving `refs[t]` does to the pages needed within `h`, apart from `refs[t]` itself. */
  lemma SoonShift(refs: seq<int>, t: nat, cache: set<int>, h: int)
    requires t < |refs| && t < h
    ensures var rest := Soon(refs, t + 1, cache - {refs[t]}, h);
            |Soon(refs, t, cache, h)| == |rest| + 1 - Cost(refs[t], cache)
  {
    var p := refs[t];
    var rest := Soon(refs, t + 1, cache - {p}, h);
    if p in cache {
      assert Soon(refs, t, cache, h) == rest + {p};
    } else {
      assert Soon(refs, t, cache, h) == rest;
    }
  }

  lemma SoonOfLoaded(refs: seq<int>, t: nat, cache: set<int>, h: int)
    requires t < |refs| && refs[t] in cache
    ensures var rest := Soon(refs, t + 1, cache - {refs[t]}, h);
            |Soon(refs, t + 1, cache, h)| == |rest| + if NextUse(refs, t + 1, refs[t]) <= h then 1 else 0
  {
    var p := refs[t];
    var rest := Soon(refs, t + 1, cache - {p}, h);
    if NextUse(refs, t + 1, p) <= h {
      assert Soon(refs, t + 1, cache, h) == rest + {p};
    } else {
      assert Soon(refs, t + 1, cache, h) == rest;
    }
  }

  /** Faults never favour the other schedule, whatever the next reference. */
  lemma FaultsStayBehind(refs: seq<int>, t: nat, m: set<int>, mFaults: int, o: set<int>, oFaults: int)
    requires t < |refs| && Ahead(refs, t, m, mFaults, o, oFaults)
    ensures mFaults + Cost(refs[t], m) <= oFaults + Cost(refs[t], o)
  {
    var p := refs[t];
    if p in o && p !in m {
      assert Soon(refs, t, o, t) == {p};
      assert Soon(refs, t, m, t) == {};
      assert |Soon(refs, t, o, t)| == 1;
    }
  }

  /** With the victim's next use inside the horizon, the farthest-first cache is
      full of pages needed within it, so no other cache can hold more. */
  lemma FullWithinHorizon(refs: seq<int>, k: nat, t: nat, m: set<int>, victim: int, m': set<int>, o': set<int>, h: int)
    requires t < |refs| && refs[t] !in m && k <= |m| && Farthest(refs, t, m, victim)
    requires m' == m - {victim} + {refs[t]} && NextUse(refs, t + 1, victim) <= h
    requires refs[t] in o' && |o'| <= k
    ensures |Soon(refs, t + 1, o', h)| <= |Soon(refs, t + 1, m', h)|
  {
    var p := refs[t];
    SoonOfLoaded(refs, t, m', h);
    SoonOfLoaded(refs, t, o', h);
    assert Soon(refs, t + 1, m' - {p}, h) == m - {victim};
    SubsetSize(Soon(refs, t + 1, o' - {p}, h), o' - {p});
  }

  lemma AheadAtHorizon(refs: seq<int>, k: nat, t: nat, m: set<int>, mFaults: int, m': set<int>,
                       o: set<int>, oFaults: int, o': set<int>, h: int)
    requires t < |refs| && Ahead(refs, t, m, mFaults, o, oFaults)
    requires FarthestStep(refs, k, t, m, m') && Serves(o, refs[t], o', k)
    ensures mFaults + Cost(refs[t], m) + |Soon(refs, t + 1, o', h)|
         <= oFaults + Cost(refs[t], o) + |Soon(refs, t + 1, m', h)|
  {
    var p := refs[t];
    FaultsStayBehind(refs, t, m, mFaults, o, oFaults);
    if h <= t {
      assert Soon(refs, t + 1, o', h) == {};
      return;
    }
    if p !in m && |m| >= k {
      var victim :| Farthest(refs, t, m, victim) && m' == m - {victim} + {p};
      if NextUse(refs, t + 1, victim) <= h {
        FullWithinHorizon(refs, k, t, m, victim, m', o', h);
        return;
      }
    }
    assert Soon(refs, t + 1, m' - {p}, h) == Soon(refs, t + 1, m - {p}, h);
    SubsetSize(Soon(refs, t + 1, o' - {p}, h), Soon(refs, t + 1, o - {p}, h));
    SoonShift(refs, t, m, h);
    SoonShift(refs, t, o, h);
    SoonOfLoaded(refs, t, m', h);
    SoonOfLoaded(refs, t, o', h);
    assert mFaults + |Soon(refs, t, o, h)| <= oFaults + |Soon(refs, t, m, h)|;
  }

  lemma AheadStep(refs: seq<int>, k: nat, t: nat, m: set<int>, mFaults: int, m': set<int>,
                  o: set<int>, oFaults: int, o': set<int>)
    requires t < |refs| && Ahead(refs, t, m, mFaults, o, oFaults)
    requires FarthestStep(refs, k, t, m, m') && Serves(o, refs[t], o', k)
    ensures Ahead(refs, t + 1, m', mFaults + Cost(refs[t], m), o', oFaults + Cost(refs[t], o))
  {
    FaultsStayBehind(refs, t, m, mFaults, o, oFaults);
    var now, mNow, oNow := t + 1, mFaults + Cost(refs[t], m), oFaults + Cost(refs[t], o);
    forall h
      ensures mNow + |Soon(refs, now, o', h)| <= oNow + |Soon(refs, now, m', h)|
    {
      AheadAtHorizon(refs, k, t, m, mFaults, m', o, oFaults, o', h);
    }
  }

  lemma AheadAtStart(refs: seq<int>)
    ensures Ahead(refs, 0, {}, 0, {}, 0)
  {
  }

  lemma AheadNext(refs: seq<int>, k: nat, m: seq<set<int>>, o: seq<set<int>>, t: nat)
    requires t < |refs| && FarthestSchedule(refs, k, m) && Schedule(refs, k, o)
    requires Ahead(refs, t, m[t], Misses(refs, m, t), o[t], Misses(refs, o, t))
    ensures Ahead(refs, t + 1, m[t + 1], Misses(refs, m, t + 1), o[t + 1], Misses(refs, o, t + 1))
  {
    assert FarthestAt(refs, k, m, t) && ServedAt(refs, k, o, t);
    AheadStep(refs, k, t, m[t], Misses(refs, m, t), m[t + 1], o[t], Misses(refs, o, t), o[t + 1]);
  }

  lemma {:induction false} StaysAhead(refs: seq<int>, k: nat, m: seq<set<int>>, o: seq<set<int>>, t: nat)
    requires t <= |refs| && FarthestSchedule(refs, k, m) && Schedule(refs, k, o)
    ensures Ahead(refs, t, m[t], Misses(refs, m, t), o[t], Misses(refs, o, t))
  {
    if t == 0 {
      AheadAtStart(refs);
    } else {
      StaysAhead(refs, k, m, o, t - 1);
      AheadNext(refs, k, m, o, t - 1);
    }
  }

  /** Belady: no schedule with `k` frames faults less often. */
  lemma FarthestIsOptimal(refs: seq<int>, k: nat, m: seq<set<int>>, o: seq<set<int>>)
    requires FarthestSchedule(refs, k, m) && Schedule(refs, k, o)
    ensures Misses(refs, m, |refs|) <= Misses(refs, o, |refs|)
  {
    StaysAhead(refs, k, m, o, |refs|);
  }

  lemma {:induction false} FarthestIsSchedule(refs: seq<int>, k: nat, m: seq<set<int>>, t: nat)
    requires k >= 1 && FarthestSchedule(refs, k, m) && t <= |refs|
    ensures |m[t]| <= k
    ensures t < |refs| ==> ServedAt(refs, k, m, t)
  {
    if t > 0 {
      FarthestIsSchedule(refs, k, m, t - 1);
    }
    if t < |refs| {
      assert FarthestAt(refs, k, m, t);
    }
  }

  /** The faults of a farthest-first schedule are the minimum for its frames. */
  lemma FarthestIsMinimum(refs: seq<int>, k: nat, m: seq<set<int>>)
    requires k >= 1 && FarthestSchedule(refs, k, m)
    ensures IsMinimum(refs, k, Misses(refs, m, |refs|))
  {
    forall t | 0 <= t < |refs|
      ensures ServedAt(refs, k, m, t)
    {
      FarthestIsSchedule(refs, k, m, t);
    }
    forall o | Schedule(refs, k, o)
      ensures Misses(refs, m, |refs|) <= Misses(refs, o, |refs|)
    {
      FarthestIsOptimal(refs, k, m, o);
    }
  }
}
