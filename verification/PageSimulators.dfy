/** The frame array's searches, and MIN. */
module PageSimulators {
  import opened DemandPaging
  import opened MarkedFrames

  // ----- Searching the frame array

  method InitFrames(frames: nat) returns (frame: array<int>)
    ensures fresh(frame) && frame.Length == frames
    ensures forall i :: 0 <= i < frames ==> frame[i] == EMPTY
  {
    frame := new int[frames];
    for i := 0 to frames
      invariant forall j :: 0 <= j < i ==> frame[j] == EMPTY
    {
      frame[i] := EMPTY;
    }
  }

  method FindPage(frame: array<int>, page: int) returns (pos: int)
    ensures -1 <= pos < frame.Length
    ensures pos == -1 <==> page !in frame[..]
    ensures pos >= 0 ==> frame[pos] == page && page !in frame[..pos]
  {
    for i := 0 to frame.Length
      invariant page !in frame[..i]
    {
      if frame[i] == page {
        return i;
      }
    }
    assert frame[..frame.Length] == frame[..];
    return -1;
  }

  /** Position of the next reference to `page` from `t` on, -1 when there is none. */
  method FindNextUse(refs: seq<int>, t: nat, page: int) returns (u: int)
    requires t <= |refs|
    ensures (if u == -1 then |refs| else u) == NextUse(refs, t, page)
    ensures u == -1 || t <= u < |refs|
  {
    for j := t to |refs|
      invariant NextUse(refs, t, page) == NextUse(refs, j, page)
    {
      if refs[j] == page {
        return j;
      }
    }
    return -1;
  }

  /** The frame holding the page used farthest in the future after reference `t`. */
  method FarthestFrame(refs: seq<int>, t: nat, frame: array<int>) returns (evict: nat)
    requires t < |refs| && frame.Length >= 1
    ensures evict < frame.Length
    ensures forall i :: 0 <= i < frame.Length ==> NextUse(refs, t + 1, frame[i]) <= NextUse(refs, t + 1, frame[evict])
  {
    var evictIndex, farthest := -1, -1;
    var i := 0;
    while i < frame.Length
      invariant 0 <= i <= frame.Length && -1 <= evictIndex < i
      invariant evictIndex == -1 ==> i == 0 && farthest == -1
      invariant evictIndex >= 0 ==> farthest == NextUse(refs, t + 1, frame[evictIndex])
      invariant forall j :: 0 <= j < i ==> NextUse(refs, t + 1, frame[j]) <= farthest
    {
      var nextUse := FindNextUse(refs, t + 1, frame[i]);
      if nextUse == -1 {
        evictIndex := i;
        break;
      }
      if nextUse > farthest {
        farthest := nextUse;
        evictIndex := i;
      }
      i := i + 1;
    }
    if evictIndex < 0 {
      evictIndex := 0;
    }
    evict := evictIndex;
  }

  // ----- MIN

  ghost predicate FarthestSoFar(refs: seq<int>, k: nat, caches: seq<set<int>>, t: nat, faults: nat)
    requires t <= |refs|
  {
    && |caches| == t + 1
    && caches[0] == {}
    && Misses(refs, caches, t) == faults
    && forall i :: 0 <= i < t ==> FarthestAt(refs, k, caches, i)
  }

  lemma FarthestExtend(refs: seq<int>, k: nat, caches: seq<set<int>>, t: nat, faults: nat, after: set<int>)
    requires t < |refs| && FarthestSoFar(refs, k, caches, t, faults)
    requires FarthestStep(refs, k, t, caches[t], after)
    ensures FarthestSoFar(refs, k, caches + [after], t + 1, faults + if refs[t] in caches[t] then 0 else 1)
  {
    var caches' := caches + [after];
    assert caches'[..t] == caches[..t];
    MissesDependOnPrefix(refs, caches, caches', t);
    forall i | 0 <= i <= t
      ensures FarthestAt(refs, k, caches', i)
    {
      if i < t {
        assert FarthestAt(refs, k, caches, i);
      }
    }
  }

  /** The frame MIN loads into: an empty one if any, else the one whose page is used last. */
  ghost predicate MinSlot(refs: seq<int>, t: nat, frame: seq<int>, slot: nat)
    requires t < |refs| && slot < |frame|
  {
    if EMPTY in frame then frame[slot] == EMPTY
    else forall j :: 0 <= j < |frame| ==> NextUse(refs, t + 1, frame[j]) <= NextUse(refs, t + 1, frame[slot])
  }

  lemma MinMiss(refs: seq<int>, t: nat, frame: seq<int>, i: nat)
    requires t < |refs| && NoPageTwice(frame) && refs[t] !in frame && refs[t] != EMPTY && i < |frame|
    requires MinSlot(refs, t, frame, i)
    ensures FarthestStep(refs, |frame|, t, Resident(frame), Resident(frame[i := refs[t]]))
  {
    ResidentSize(frame);
    ResidentAfter(frame, i, refs[t]);
    if EMPTY !in frame {
      assert frame[i] in frame;
      assert Farthest(refs, t, Resident(frame), frame[i]);
    }
  }

  /** What holds before reference `t`, the frames then being `frame`. */
  ghost predicate MinInvariant(late: bool, refs: seq<int>, t: nat, frame: seq<int>, caches: seq<set<int>>, faults: nat)
    requires t <= |refs|
  {
    && Consistent(refs, t, frame, faults) && Counted(late, refs, t, frame, caches, faults)
    && (EMPTY !in refs ==> FarthestSoFar(refs, |frame|, caches, t, faults) && caches[t] == Resident(frame))
  }

  lemma MinStart(late: bool, refs: seq<int>, frame: seq<int>)
    requires |frame| >= 1 && forall i :: 0 <= i < |frame| ==> frame[i] == EMPTY
    ensures MinInvariant(late, refs, 0, frame, [{}], 0)
  {
    ConsistentStart(refs, frame);
  }

  lemma MinHit(late: bool, refs: seq<int>, t: nat, frame: seq<int>, caches: seq<set<int>>, faults: nat)
    requires t < |refs| && MinInvariant(late, refs, t, frame, caches, faults) && refs[t] in frame
    requires late ==> LateMarkers(refs, |frame|)
    ensures MinInvariant(late, refs, t + 1, frame, caches + [Held(frame, faults)], faults)
  {
    ConsistentHit(refs, t, frame, faults);
    CountedHit(late, refs, t, frame, caches, faults);
    if EMPTY !in refs {
      NoMarkerHeld(refs, t, frame, faults);
      FarthestExtend(refs, |frame|, caches, t, faults, Resident(frame));
    }
  }

  lemma MinFault(late: bool, refs: seq<int>, t: nat, frame: seq<int>, slot: nat, caches: seq<set<int>>, faults: nat)
    requires t < |refs| && MinInvariant(late, refs, t, frame, caches, faults) && refs[t] !in frame
    requires slot < |frame| && MinSlot(refs, t, frame, slot) && (late ==> LateMarkers(refs, |frame|))
    ensures var frame' := frame[slot := refs[t]];
            MinInvariant(late, refs, t + 1, frame', caches + [Held(frame', faults + 1)], faults + 1)
  {
    var frame' := frame[slot := refs[t]];
    SlotIsFree(refs, t, frame, faults, slot);
    ConsistentFault(refs, t, frame, faults, slot);
    CountedFault(late, refs, t, frame, slot, caches, faults);
    if EMPTY !in refs {
      MinMiss(refs, t, frame, slot);
      NoMarkerHeld(refs, t + 1, frame', faults + 1);
      FarthestExtend(refs, |frame|, caches, t, faults, Resident(frame'));
    }
  }

  lemma SlotIsFree(refs: seq<int>, t: nat, frame: seq<int>, faults: nat, slot: nat)
    requires t < |refs| && Consistent(refs, t, frame, faults)
    requires slot < |frame| && (EMPTY in frame ==> frame[slot] == EMPTY)
    ensures faults < |frame| ==> frame[slot] == EMPTY
  {
    if faults < |frame| {
      HasRoom(refs, t, frame, faults);
    }
  }

  lemma MinEnd(late: bool, refs: seq<int>, frame: seq<int>, caches: seq<set<int>>, faults: nat)
    requires |frame| >= 1 && MinInvariant(late, refs, |refs|, frame, caches, faults)
    ensures EMPTY !in refs ==> IsMinimum(refs, |frame|, faults)
    ensures late ==> Attained(refs, |frame|, faults)
    ensures EMPTY in refs && |frame| > RealPages(refs) ==> Undercounts(refs, |frame|, faults)
  {
    if EMPTY !in refs {
      FarthestIsMinimum(refs, |frame|, caches);
    } else if |frame| > RealPages(refs) {
      ConsistentUndercounts(refs, frame, faults);
    }
    if late {
      CountedEnd(refs, frame, caches, faults);
    }
  }

  /** Loads the missing page of reference `t` into a free frame if there is one, else over the farthest page. */
  method MinReplace(refs: seq<int>, t: nat, frame: array<int>) returns (slot: nat)
    requires t < |refs| && frame.Length >= 1
    modifies frame
    ensures slot < frame.Length && MinSlot(refs, t, old(frame[..]), slot)
    ensures frame[..] == old(frame[..])[slot := refs[t]]
  {
    var freeIndex := FindPage(frame, EMPTY);
    if freeIndex != -1 {
      slot := freeIndex;
    } else {
      slot := FarthestFrame(refs, t, frame);
    }
    frame[slot] := refs[t];
  }

  /** Serves reference `t`. */
  method MinReference(ghost late: bool, refs: seq<int>, t: nat, frame: array<int>, hits: nat, faults: nat,
                      ghost caches: seq<set<int>>)
    returns (hits': nat, faults': nat, ghost caches': seq<set<int>>)
    requires late ==> LateMarkers(refs, frame.Length)
    requires t < |refs| && frame.Length >= 1 && MinInvariant(late, refs, t, frame[..], caches, faults)
    modifies frame
    ensures hits' + faults' == hits + faults + 1
    ensures faults' == faults + if refs[t] in old(frame[..]) then 0 else 1
    ensures MinInvariant(late, refs, t + 1, frame[..], caches', faults')
  {
    var pos := FindPage(frame, refs[t]);
    ghost var before := frame[..];
    if pos != -1 {
      hits', faults' := hits + 1, faults;
      MinHit(late, refs, t, before, caches, faults);
    } else {
      hits', faults' := hits, faults + 1;
      var slot := MinReplace(refs, t, frame);
      MinFault(late, refs, t, before, slot, caches, faults);
    }
    caches' := caches + [Held(frame[..], faults')];
  }

  method MinLoop(ghost late: bool, refs: seq<int>, frame: array<int>)
    returns (hits: nat, faults: nat, ghost caches: seq<set<int>>)
    requires late ==> LateMarkers(refs, frame.Length)
    requires frame.Length >= 1 && MinInvariant(late, refs, 0, frame[..], [{}], 0)
    modifies frame
    ensures hits + faults == |refs| && MinInvariant(late, refs, |refs|, frame[..], caches, faults)
  {
    hits, faults := 0, 0;
    caches := [{}];
    for t := 0 to |refs|
      invariant hits + faults == t
      invariant MinInvariant(late, refs, t, frame[..], caches, faults)
    {
      hits, faults, caches := MinReference(late, refs, t, frame, hits, faults, caches);
    }
  }

  /** MIN counts the least possible number of faults, for every number of frames,
      exactly when no reference is the empty-frame marker. */
  method SimulateMin(refs: seq<int>, frames: nat) returns (hits: nat, faults: nat)
    requires frames >= 1
    ensures hits + faults == |refs|
    ensures EMPTY !in refs ==> IsMinimum(refs, frames, faults)
    ensures LateMarkers(refs, frames) ==> Attained(refs, frames, faults)
    ensures EMPTY in refs && frames > RealPages(refs) ==> Undercounts(refs, frames, faults)
    ensures frames > RealPages(refs) ==> (IsMinimum(refs, frames, faults) <==> EMPTY !in refs)
  {
    var frame := InitFrames(frames);
    ghost var late := LateMarkers(refs, frames);
    MinStart(late, refs, frame[..]);
    ghost var caches;
    hits, faults, caches := MinLoop(late, refs, frame);
    MinEnd(late, refs, frame[..], caches, faults);
  }
}
