/** A frame array in which -1 marks an empty frame: what a simulator's count means
    when the marker itself is referenced. */
module MarkedFrames {
  import opened Distinctness
  import opened DemandPaging
  import opened QueuePolicies

  const EMPTY := -1

  // ----- The frame array as a set of resident pages

  ghost function Resident(frame: seq<int>): set<int>
  {
    set p | p in frame && p != EMPTY
  }

  ghost predicate NoPageTwice(frame: seq<int>)
  {
    forall i, j :: 0 <= i < j < |frame| && frame[i] != EMPTY ==> frame[i] != frame[j]
  }

  lemma {:induction false} ResidentSize(frame: seq<int>)
    requires NoPageTwice(frame)
    ensures |Resident(frame)| <= |frame|
    ensures EMPTY in frame <==> |Resident(frame)| < |frame|
  {
    if frame != [] {
      var init, last := frame[..|frame| - 1], frame[|frame| - 1];
      ResidentSize(init);
      assert frame == init + [last];
      if last == EMPTY {
        assert Resident(frame) == Resident(init);
      } else {
        assert Resident(frame) == Resident(init) + {last};
        assert forall i :: 0 <= i < |init| ==> init[i] != last;
      }
    }
  }

  lemma ResidentAfter(frame: seq<int>, i: nat, page: int)
    requires NoPageTwice(frame) && i < |frame| && page !in frame
    ensures NoPageTwice(frame[i := page])
    ensures page != EMPTY ==> Resident(frame[i := page]) == Resident(frame) - {frame[i]} + {page}
  {
    var frame' := frame[i := page];
    forall p | p in Resident(frame) && p != frame[i]
      ensures p in frame'
    {
      var j :| 0 <= j < |frame| && frame[j] == p;
      assert frame'[j] == p;
    }
    assert frame'[i] == page;
  }

  /** How many distinct pages are referenced, not counting the empty-frame marker. */
  ghost function RealPages(refs: seq<int>): nat
  {
    |Pages(refs) - {EMPTY}|
  }

  /** As long as no page has been evicted: a reference to the empty-frame marker counts as a hit. */
  ghost predicate NeverFull(refs: seq<int>, t: nat, frame: seq<int>, faults: nat)
    requires t <= |refs|
  {
    Resident(frame) == Pages(refs[..t]) - {EMPTY} && faults == |Resident(frame)|
  }

  ghost predicate Undercounts(refs: seq<int>, k: nat, faults: nat)
  {
    forall caches :: Schedule(refs, k, caches) ==> faults < Misses(refs, caches, |refs|)
  }

  lemma NeverFullHit(refs: seq<int>, t: nat, frame: seq<int>, faults: nat)
    requires t < |refs| && NeverFull(refs, t, frame, faults) && refs[t] in frame
    ensures NeverFull(refs, t + 1, frame, faults)
  {
    PagesExtend(refs, t);
    if refs[t] != EMPTY {
      assert refs[t] in Resident(frame);
    }
    assert Resident(frame) == Pages(refs[..t + 1]) - {EMPTY};
  }

  lemma NeverFullMiss(refs: seq<int>, t: nat, frame: seq<int>, faults: nat, i: nat)
    requires t < |refs| && NoPageTwice(frame) && NeverFull(refs, t, frame, faults)
    requires refs[t] !in frame && i < |frame| && frame[i] == EMPTY
    ensures NeverFull(refs, t + 1, frame[i := refs[t]], faults + 1)
  {
    PagesExtend(refs, t);
    ResidentAfter(frame, i, refs[t]);
    assert refs[t] != EMPTY;
    assert Resident(frame[i := refs[t]]) == Resident(frame) + {refs[t]};
    assert Resident(frame[i := refs[t]]) == Pages(refs[..t + 1]) - {EMPTY};
  }

  lemma NeverFullUndercounts(refs: seq<int>, k: nat, frame: seq<int>, faults: nat)
    requires NeverFull(refs, |refs|, frame, faults) && EMPTY in refs
    ensures Undercounts(refs, k, faults)
  {
    assert refs[..|refs|] == refs;
    assert EMPTY in Pages(refs);
    assert |Pages(refs) - {EMPTY}| == |Pages(refs)| - 1;
    forall caches | Schedule(refs, k, caches)
      ensures faults < Misses(refs, caches, |refs|)
    {
      EveryPageMissesOnce(refs, k, caches, |refs|);
    }
  }

  // ----- Before and after all frames have been filled

  /** Until as many faults as frames, nothing has been evicted; from then on the frames hold different pages, the marker
      counting as one, and at least as many real pages have been referenced as there are frames. */
  ghost predicate Consistent(refs: seq<int>, t: nat, frame: seq<int>, faults: nat)
    requires t <= |refs|
  {
    && NoPageTwice(frame)
    && if faults < |frame| then NeverFull(refs, t, frame, faults)
       else
         && Distinct(frame) && RealPages(refs[..t]) >= |frame|
         && (EMPTY in frame ==> EMPTY in refs[..t])
  }

  lemma ConsistentStart(refs: seq<int>, frame: seq<int>)
    requires |frame| >= 1 && forall i :: 0 <= i < |frame| ==> frame[i] == EMPTY
    ensures Consistent(refs, 0, frame, 0) && Held(frame, 0) == {}
  {
    assert Resident(frame) == {} == Pages(refs[..0]);
  }

  lemma HasRoom(refs: seq<int>, t: nat, frame: seq<int>, faults: nat)
    requires t <= |refs| && Consistent(refs, t, frame, faults) && faults < |frame|
    ensures EMPTY in frame && RealPages(refs[..t]) == faults
  {
    ResidentSize(frame);
  }

  lemma RealPagesGrow(refs: seq<int>, t: nat)
    requires t < |refs|
    ensures RealPages(refs[..t]) <= RealPages(refs[..t + 1])
  {
    PagesExtend(refs, t);
    SubsetSize(Pages(refs[..t]) - {EMPTY}, Pages(refs[..t + 1]) - {EMPTY});
  }

  lemma ConsistentHit(refs: seq<int>, t: nat, frame: seq<int>, faults: nat)
    requires t < |refs| && Consistent(refs, t, frame, faults) && refs[t] in frame
    ensures Consistent(refs, t + 1, frame, faults)
  {
    if faults < |frame| {
      NeverFullHit(refs, t, frame, faults);
    } else {
      RealPagesGrow(refs, t);
      PagesExtend(refs, t);
      assert EMPTY in frame ==> EMPTY in Pages(refs[..t + 1]);
    }
  }

  lemma ReplaceKeepsDistinct(frame: seq<int>, slot: nat, page: int)
    requires Distinct(frame) && slot < |frame| && page !in frame
    ensures Distinct(frame[slot := page]) && Pages(frame[slot := page]) <= Pages(frame) + {page}
  {
  }

  lemma NowFull(refs: seq<int>, t: nat, frame: seq<int>, faults: nat)
    requires t <= |refs| && NoPageTwice(frame) && NeverFull(refs, t, frame, faults) && faults == |frame|
    ensures Distinct(frame) && RealPages(refs[..t]) >= |frame| && EMPTY !in frame && Pages(frame) == Resident(frame)
  {
    ResidentSize(frame);
  }

  lemma FaultWhileFilling(refs: seq<int>, t: nat, frame: seq<int>, faults: nat, slot: nat)
    requires t < |refs| && Consistent(refs, t, frame, faults) && refs[t] !in frame
    requires slot < |frame| && faults < |frame| && frame[slot] == EMPTY
    ensures Consistent(refs, t + 1, frame[slot := refs[t]], faults + 1)
  {
    ResidentAfter(frame, slot, refs[t]);
    NeverFullMiss(refs, t, frame, faults, slot);
    if faults + 1 == |frame| {
      NowFull(refs, t + 1, frame[slot := refs[t]], faults + 1);
    }
  }

  lemma FaultWhenFull(refs: seq<int>, t: nat, frame: seq<int>, faults: nat, slot: nat)
    requires t < |refs| && Consistent(refs, t, frame, faults) && refs[t] !in frame
    requires slot < |frame| <= faults
    ensures Consistent(refs, t + 1, frame[slot := refs[t]], faults + 1)
  {
    ResidentAfter(frame, slot, refs[t]);
    RealPagesGrow(refs, t);
    ReplaceKeepsDistinct(frame, slot, refs[t]);
    PagesExtend(refs, t);
    assert EMPTY in frame[slot := refs[t]] ==> EMPTY in Pages(refs[..t + 1]);
  }

  lemma ConsistentFault(refs: seq<int>, t: nat, frame: seq<int>, faults: nat, slot: nat)
    requires t < |refs| && Consistent(refs, t, frame, faults) && refs[t] !in frame
    requires slot < |frame| && (faults < |frame| ==> frame[slot] == EMPTY)
    ensures Consistent(refs, t + 1, frame[slot := refs[t]], faults + 1)
  {
    if faults < |frame| {
      FaultWhileFilling(refs, t, frame, faults, slot);
    } else {
      FaultWhenFull(refs, t, frame, faults, slot);
    }
  }

  /** With more frames than real pages, and the marker referenced, the count is too low. */
  lemma ConsistentUndercounts(refs: seq<int>, frame: seq<int>, faults: nat)
    requires Consistent(refs, |refs|, frame, faults) && EMPTY in refs && |frame| > RealPages(refs)
    ensures Undercounts(refs, |frame|, faults)
  {
    assert refs[..|refs|] == refs;
    NeverFullUndercounts(refs, |frame|, frame, faults);
  }

  // ----- When every reference is counted right

  /** The marker is only referenced once all frames are filled: every -1 comes after `k` distinct other pages. */
  ghost predicate LateMarkers(refs: seq<int>, k: nat)
  {
    forall t :: 0 <= t < |refs| && refs[t] == EMPTY ==> RealPages(refs[..t]) >= k
  }

  /** Otherwise there is a prefix that references the marker, and fewer real pages than there are frames. */
  lemma LateMarkersIff(refs: seq<int>, k: nat)
    ensures LateMarkers(refs, k) <==>
              forall n: nat :: n <= |refs| && EMPTY in refs[..n] ==> RealPages(refs[..n]) >= k
  {
    if LateMarkers(refs, k) {
      forall n: nat | n <= |refs| && EMPTY in refs[..n]
        ensures RealPages(refs[..n]) >= k
      {
        var t :| 0 <= t < n && refs[..n][t] == EMPTY;
        MoreReferences(refs, t, n);
      }
    } else {
      var t :| 0 <= t < |refs| && refs[t] == EMPTY && RealPages(refs[..t]) < k;
      PagesExtend(refs, t);
      assert refs[..t + 1][t] == EMPTY;
      assert Pages(refs[..t + 1]) - {EMPTY} == Pages(refs[..t]) - {EMPTY};
    }
  }

  lemma MoreReferences(refs: seq<int>, t: nat, n: nat)
    requires t <= n <= |refs|
    ensures RealPages(refs[..t]) <= RealPages(refs[..n])
  {
    assert refs[..t] == refs[..n][..t];
    SubsetSize(Pages(refs[..t]) - {EMPTY}, Pages(refs[..n]) - {EMPTY});
  }

  /** The pages held, the marker being one once all frames are filled. */
  ghost function Held(frame: seq<int>, faults: nat): set<int>
  {
    if faults < |frame| then Resident(frame) else Pages(frame)
  }

  lemma HeldIff(refs: seq<int>, t: nat, frame: seq<int>, faults: nat)
    requires t < |refs| && Consistent(refs, t, frame, faults)
    requires refs[t] == EMPTY ==> RealPages(refs[..t]) >= |frame|
    ensures refs[t] in Held(frame, faults) <==> refs[t] in frame
  {
    if faults < |frame| {
      HasRoom(refs, t, frame, faults);
    }
  }

  ghost predicate ServedSoFar(refs: seq<int>, k: nat, caches: seq<set<int>>, t: nat, faults: nat)
    requires t <= |refs|
  {
    && |caches| == t + 1
    && caches[0] == {}
    && Misses(refs, caches, t) == faults
    && forall i :: 0 <= i < t ==> ServedAt(refs, k, caches, i)
  }

  lemma ServedExtend(refs: seq<int>, k: nat, caches: seq<set<int>>, t: nat, faults: nat, after: set<int>)
    requires t < |refs| && ServedSoFar(refs, k, caches, t, faults)
    requires Serves(caches[t], refs[t], after, k)
    ensures ServedSoFar(refs, k, caches + [after], t + 1, faults + if refs[t] in caches[t] then 0 else 1)
  {
    var caches' := caches + [after];
    assert caches'[..t] == caches[..t];
    MissesDependOnPrefix(refs, caches, caches', t);
    forall i | 0 <= i <= t
      ensures ServedAt(refs, k, caches', i)
    {
      if i < t {
        assert ServedAt(refs, k, caches, i);
      }
    }
  }

  /** While markers come late, the frames have followed a schedule with these faults. */
  ghost predicate Counted(late: bool, refs: seq<int>, t: nat, frame: seq<int>, caches: seq<set<int>>, faults: nat)
    requires t <= |refs|
  {
    late ==> ServedSoFar(refs, |frame|, caches, t, faults) && caches[t] == Held(frame, faults)
  }

  lemma NoMarkerHeld(refs: seq<int>, t: nat, frame: seq<int>, faults: nat)
    requires t <= |refs| && Consistent(refs, t, frame, faults) && EMPTY !in refs
    ensures Held(frame, faults) == Resident(frame)
  {
  }

  lemma HeldSize(refs: seq<int>, t: nat, frame: seq<int>, faults: nat)
    requires t <= |refs| && Consistent(refs, t, frame, faults)
    ensures |Held(frame, faults)| <= |frame|
  {
    if faults < |frame| {
      ResidentSize(frame);
    } else {
      PagesSize(frame);
    }
  }

  lemma CountedHit(late: bool, refs: seq<int>, t: nat, frame: seq<int>, caches: seq<set<int>>, faults: nat)
    requires t < |refs| && Consistent(refs, t, frame, faults) && Counted(late, refs, t, frame, caches, faults)
    requires (late ==> LateMarkers(refs, |frame|)) && refs[t] in frame
    ensures Counted(late, refs, t + 1, frame, caches + [Held(frame, faults)], faults)
  {
    if late {
      HeldIff(refs, t, frame, faults);
      HeldSize(refs, t, frame, faults);
      ServedExtend(refs, |frame|, caches, t, faults, Held(frame, faults));
    }
  }

  lemma HeldAfterFault(refs: seq<int>, t: nat, frame: seq<int>, faults: nat, slot: nat)
    requires t < |refs| && Consistent(refs, t, frame, faults) && refs[t] !in frame
    requires slot < |frame| && (faults < |frame| ==> frame[slot] == EMPTY)
    ensures Serves(Held(frame, faults), refs[t], Held(frame[slot := refs[t]], faults + 1), |frame|)
  {
    var frame' := frame[slot := refs[t]];
    ConsistentFault(refs, t, frame, faults, slot);
    HeldSize(refs, t + 1, frame', faults + 1);
    if faults < |frame| {
      HasRoom(refs, t, frame, faults);
      ResidentAfter(frame, slot, refs[t]);
      if faults + 1 == |frame| {
        NeverFullMiss(refs, t, frame, faults, slot);
        NowFull(refs, t + 1, frame', faults + 1);
      }
    } else {
      ReplaceKeepsDistinct(frame, slot, refs[t]);
      assert frame'[slot] == refs[t];
    }
  }

  lemma CountedFault(late: bool, refs: seq<int>, t: nat, frame: seq<int>, slot: nat, caches: seq<set<int>>, faults: nat)
    requires t < |refs| && Consistent(refs, t, frame, faults) && Counted(late, refs, t, frame, caches, faults)
    requires (late ==> LateMarkers(refs, |frame|)) && refs[t] !in frame
    requires slot < |frame| && (faults < |frame| ==> frame[slot] == EMPTY)
    ensures var frame' := frame[slot := refs[t]];
            Counted(late, refs, t + 1, frame', caches + [Held(frame', faults + 1)], faults + 1)
  {
    if late {
      HeldIff(refs, t, frame, faults);
      HeldAfterFault(refs, t, frame, faults, slot);
      ServedExtend(refs, |frame|, caches, t, faults, Held(frame[slot := refs[t]], faults + 1));
    }
  }

  /** The count is that of some schedule. */
  ghost predicate Attained(refs: seq<int>, k: nat, faults: nat)
  {
    exists caches :: Schedule(refs, k, caches) && Misses(refs, caches, |refs|) == faults
  }

  lemma CountedEnd(refs: seq<int>, frame: seq<int>, caches: seq<set<int>>, faults: nat)
    requires Counted(true, refs, |refs|, frame, caches, faults)
    ensures Attained(refs, |frame|, faults)
  {
    assert Schedule(refs, |frame|, caches);
  }
}
