/** The FIFO, LRU and random simulators over frame arrays, against their abstract policies. */
module QueueSimulators {
  import opened DemandPaging
  import opened QueuePolicies
  import opened MarkedFrames
  import opened PageSimulators

  /** A count below every schedule's is not that of a queue policy. */
  lemma UndercountIsWrong(policy: Policy, refs: seq<int>, k: nat, faults: nat)
    requires k >= 1
    ensures Undercounts(refs, k, faults) ==> faults < Faults(policy, refs, k)
  {
    var queues := Queues(policy, refs, k);
    assert forall t :: 0 <= t < |refs| ==> NextAt(policy, refs, k, queues, t) ==> QueueStepAt(refs, k, queues, t);
    var caches := RunIsSchedule(refs, k, queues);
  }

  // ----- FIFO: the frame array is a ring whose oldest page is at `next`

  /** Until all frames are filled, those before `next` are. */
  ghost predicate Ring(frame: seq<int>, next: nat, faults: nat)
  {
    && next < |frame|
    && (faults < |frame| ==>
          next == faults && (forall i :: 0 <= i < |frame| ==> (frame[i] == EMPTY <==> next <= i)))
  }

  ghost function RingQueue(frame: seq<int>, next: nat, faults: nat): seq<int>
    requires next < |frame|
  {
    if faults < |frame| then frame[..next] else frame[next..] + frame[..next]
  }

  /** The ring's next position, `(next + 1) % n`. */
  ghost function Bump(next: nat, n: nat): nat
    requires next < n
  {
    if next + 1 == n then 0 else next + 1
  }

  lemma BumpIsModulo(next: nat, n: nat)
    requires next < n
    ensures (next + 1) % n == Bump(next, n)
  {
  }

  ghost predicate FifoInvariant(late: bool, refs: seq<int>, t: nat, frame: seq<int>, next: nat, queues: seq<seq<int>>,
                                faults: nat)
    requires t <= |refs|
  {
    var placed := Consistent(refs, t, frame, faults) && Ring(frame, next, faults);
    var followed := placed && (late ==>
      RunSoFar(Fifo, refs, |frame|, queues, t, faults) && queues[t] == RingQueue(frame, next, faults));
    followed
  }

  lemma RingFaultFilling(frame: seq<int>, next: nat, faults: nat, page: int)
    requires Ring(frame, next, faults) && page != EMPTY && page !in frame && faults < |frame|
    ensures var frame' := frame[next := page]; var next' := Bump(next, |frame|);
            Ring(frame', next', faults + 1)
            && RingQueue(frame', next', faults + 1) == RingQueue(frame, next, faults) + [page]
  {
    var frame' := frame[next := page];
    if next + 1 == |frame| {
      assert frame'[0..] + frame'[..0] == frame[..next] + [page];
    } else {
      assert frame'[..next + 1] == frame[..next] + [page];
    }
  }

  lemma RingFaultFull(frame: seq<int>, next: nat, faults: nat, page: int)
    requires Ring(frame, next, faults) && faults >= |frame|
    ensures var frame' := frame[next := page]; var next' := Bump(next, |frame|);
            Ring(frame', next', faults + 1)
            && RingQueue(frame', next', faults + 1) == RingQueue(frame, next, faults)[1..] + [page]
  {
    var frame' := frame[next := page];
    var q := frame[next..] + frame[..next];
    assert q[1..] == frame[next + 1..] + frame[..next];
    if next + 1 == |frame| {
      assert frame'[0..] + frame'[..0] == frame[..next] + [page];
    } else {
      assert frame'[next + 1..] == frame[next + 1..];
      assert frame'[..next + 1] == frame[..next] + [page];
    }
  }

  lemma RingMembers(frame: seq<int>, next: nat, faults: nat, page: int)
    requires Ring(frame, next, faults) && (faults < |frame| ==> page != EMPTY)
    ensures page in RingQueue(frame, next, faults) <==> page in frame
    ensures |RingQueue(frame, next, faults)| == if faults < |frame| then faults else |frame|
  {
    assert frame == frame[..next] + frame[next..];
  }

  lemma FilledBeforeMarker(refs: seq<int>, t: nat, frame: seq<int>, faults: nat)
    requires t < |refs| && Consistent(refs, t, frame, faults) && LateMarkers(refs, |frame|)
    ensures faults < |frame| ==> refs[t] != EMPTY
  {
    if faults < |frame| {
      HasRoom(refs, t, frame, faults);
    }
  }

  lemma FifoHit(late: bool, refs: seq<int>, t: nat, frame: seq<int>, next: nat, queues: seq<seq<int>>, faults: nat)
    requires t < |refs| && FifoInvariant(late, refs, t, frame, next, queues, faults) && refs[t] in frame
    requires next < |frame| && (late ==> LateMarkers(refs, |frame|))
    ensures FifoInvariant(late, refs, t + 1, frame, next, queues + [RingQueue(frame, next, faults)], faults)
  {
    ConsistentHit(refs, t, frame, faults);
    if late {
      FilledBeforeMarker(refs, t, frame, faults);
      RingMembers(frame, next, faults, refs[t]);
      RunExtend(Fifo, refs, |frame|, queues, t, faults, RingQueue(frame, next, faults));
    }
  }

  lemma RingFault(refs: seq<int>, t: nat, frame: seq<int>, next: nat, faults: nat)
    requires t < |refs| && Consistent(refs, t, frame, faults) && Ring(frame, next, faults) && refs[t] !in frame
    ensures var frame' := frame[next := refs[t]]; var next' := Bump(next, |frame|);
            Consistent(refs, t + 1, frame', faults + 1) && Ring(frame', next', faults + 1)
            && RingQueue(frame', next', faults + 1) == Admit(RingQueue(frame, next, faults), refs[t], |frame|)
    ensures refs[t] !in RingQueue(frame, next, faults)
  {
    var page := refs[t];
    ConsistentFault(refs, t, frame, faults, next);
    if faults < |frame| {
      HasRoom(refs, t, frame, faults);
      RingFaultFilling(frame, next, faults, page);
    } else {
      RingFaultFull(frame, next, faults, page);
    }
    RingMembers(frame, next, faults, page);
  }

  lemma FifoFault(late: bool, refs: seq<int>, t: nat, frame: seq<int>, next: nat, queues: seq<seq<int>>, faults: nat)
    requires t < |refs| && FifoInvariant(late, refs, t, frame, next, queues, faults) && refs[t] !in frame
    requires next < |frame|
    ensures var frame' := frame[next := refs[t]]; var next' := Bump(next, |frame|);
            FifoInvariant(late, refs, t + 1, frame', next', queues + [RingQueue(frame', next', faults + 1)], faults + 1)
  {
    RingFault(refs, t, frame, next, faults);
    if late {
      RunExtend(Fifo, refs, |frame|, queues, t, faults,
                RingQueue(frame[next := refs[t]], Bump(next, |frame|), faults + 1));
    }
  }

  lemma FifoStart(late: bool, refs: seq<int>, frame: seq<int>)
    requires |frame| >= 1 && forall i :: 0 <= i < |frame| ==> frame[i] == EMPTY
    ensures FifoInvariant(late, refs, 0, frame, 0, [[]], 0)
  {
    ConsistentStart(refs, frame);
  }

  lemma FifoEnd(late: bool, refs: seq<int>, frame: seq<int>, next: nat, queues: seq<seq<int>>, faults: nat)
    requires FifoInvariant(late, refs, |refs|, frame, next, queues, faults)
    ensures late ==> faults == Faults(Fifo, refs, |frame|)
    ensures EMPTY in refs && |frame| > RealPages(refs) ==> Undercounts(refs, |frame|, faults)
  {
    if late {
      FaultsOfRun(Fifo, refs, |frame|, queues);
    }
    if EMPTY in refs && |frame| > RealPages(refs) {
      ConsistentUndercounts(refs, frame, faults);
    }
  }

  /** Loads `page` over the oldest frame. */
  method FifoReplace(frame: array<int>, next: nat, page: int) returns (next': nat)
    requires next < frame.Length
    modifies frame
    ensures frame[..] == old(frame[..])[next := page]
    ensures next' == Bump(next, frame.Length)
  {
    frame[next] := page;
    BumpIsModulo(next, frame.Length);
    next' := (next + 1) % frame.Length;
  }

  /** Serves reference `t`. */
  method FifoReference(ghost late: bool, refs: seq<int>, t: nat, frame: array<int>, next: nat, hits: nat, faults: nat,
                       ghost queues: seq<seq<int>>)
    returns (next': nat, hits': nat, faults': nat, ghost queues': seq<seq<int>>)
    requires late ==> LateMarkers(refs, frame.Length)
    requires t < |refs| && next < frame.Length && FifoInvariant(late, refs, t, frame[..], next, queues, faults)
    modifies frame
    ensures hits' + faults' == hits + faults + 1
    ensures faults' == faults + if refs[t] in old(frame[..]) then 0 else 1
    ensures next' < frame.Length && FifoInvariant(late, refs, t + 1, frame[..], next', queues', faults')
  {
    var pos := FindPage(frame, refs[t]);
    ghost var before := frame[..];
    if pos != -1 {
      hits', faults', next' := hits + 1, faults, next;
      FifoHit(late, refs, t, before, next, queues, faults);
    } else {
      hits', faults' := hits, faults + 1;
      FifoFault(late, refs, t, before, next, queues, faults);
      next' := FifoReplace(frame, next, refs[t]);
    }
    queues' := queues + [RingQueue(frame[..], next', faults')];
  }

  method FifoLoop(ghost late: bool, refs: seq<int>, frame: array<int>)
    returns (hits: nat, faults: nat, ghost next: nat, ghost queues: seq<seq<int>>)
    requires late ==> LateMarkers(refs, frame.Length)
    requires frame.Length >= 1 && FifoInvariant(late, refs, 0, frame[..], 0, [[]], 0)
    modifies frame
    ensures hits + faults == |refs| && FifoInvariant(late, refs, |refs|, frame[..], next, queues, faults)
  {
    hits, faults := 0, 0;
    var hand: nat := 0;
    queues := [[]];
    for t := 0 to |refs|
      invariant hits + faults == t && hand < frame.Length
      invariant FifoInvariant(late, refs, t, frame[..], hand, queues, faults)
    {
      hand, hits, faults, queues := FifoReference(late, refs, t, frame, hand, hits, faults, queues);
    }
    next := hand;
  }

  /** FIFO treats the marker as a page like any other once all frames are filled: the count is right as long as every
      marker comes after that, and too low at the first one that does not. */
  method SimulateFifo(refs: seq<int>, frames: nat) returns (hits: nat, faults: nat)
    requires frames >= 1
    ensures hits + faults == |refs|
    ensures EMPTY !in refs ==> faults == Faults(Fifo, refs, frames)
    ensures LateMarkers(refs, frames) ==> faults == Faults(Fifo, refs, frames)
    ensures EMPTY in refs && frames > RealPages(refs) ==> Undercounts(refs, frames, faults)
    ensures frames > RealPages(refs) ==> (faults == Faults(Fifo, refs, frames) <==> EMPTY !in refs)
  {
    var frame := InitFrames(frames);
    ghost var late := LateMarkers(refs, frames);
    FifoStart(late, refs, frame[..]);
    ghost var next, queues;
    hits, faults, next, queues := FifoLoop(late, refs, frame);
    FifoEnd(late, refs, frame[..], next, queues, faults);
    UndercountIsWrong(Fifo, refs, frames, faults);
  }

  // ----- LRU: the queue holds the resident pages in order of `lastUsed`

  ghost predicate Before(q: seq<int>, x: int, y: int)
  {
    exists a, b :: 0 <= a < b < |q| && q[a] == x && q[b] == y
  }

  ghost predicate ByLastUse(frame: seq<int>, lastUsed: seq<int>, q: seq<int>, t: int)
  {
    && |lastUsed| == |frame|
    && GoodQueue(q, |frame|)
    && Pages(q) == Resident(frame)
    && (forall i :: 0 <= i < |frame| ==> lastUsed[i] < t)
    && (forall i, j :: 0 <= i < |frame| && 0 <= j < |frame| && Before(q, frame[i], frame[j]) ==>
        lastUsed[i] < lastUsed[j])
  }

  lemma BeforeInAppend(q: seq<int>, page: int, x: int, y: int)
    requires Before(q + [page], x, y)
    ensures y == page || Before(q, x, y)
    ensures x in q
  {
    var q' := q + [page];
    var a, b :| 0 <= a < b < |q'| && q'[a] == x && q'[b] == y;
    assert q'[a] == q[a];
    if b < |q| {
      assert q[b] == y;
    }
  }

  lemma BeforeInRemoval(q: seq<int>, at: nat, x: int, y: int)
    requires at < |q| && Before(RemoveAt(q, at), x, y)
    ensures Before(q, x, y)
  {
    var r := RemoveAt(q, at);
    var a, b :| 0 <= a < b < |r| && r[a] == x && r[b] == y;
    var a', b' := if a < at then a else a + 1, if b < at then b else b + 1;
    assert q[a'] == x && q[b'] == y;
  }

  lemma BeforeInRest(q: seq<int>, x: int, y: int)
    requires q != [] && Before(q[1..], x, y)
    ensures Before(q, x, y)
  {
    var r := q[1..];
    var a, b :| 0 <= a < b < |r| && r[a] == x && r[b] == y;
    assert q[a + 1] == x && q[b + 1] == y;
  }

  /** Any queue whose order agrees with the old one but for `page` moved last. */
  ghost predicate MovedLast(q: seq<int>, page: int, q': seq<int>)
  {
    forall x, y :: Before(q', x, y) ==> x != page && (y == page || Before(q, x, y))
  }

  lemma NextMovesLast(q: seq<int>, page: int, k: nat, q': seq<int>)
    requires k >= 1 && GoodQueue(q, k) && q' == Next(Lru, q, page, k)
    ensures MovedLast(q, page, q')
  {
    forall x, y | Before(q', x, y)
      ensures x != page && (y == page || Before(q, x, y))
    {
      var rest := if page in q then WithoutFirst(q, page) else if |q| < k then q else q[1..];
      if page in q {
        WithoutFirstFacts(q, page);
      }
      assert page !in Pages(rest);
      assert q' == rest + [page];
      BeforeInAppend(rest, page, x, y);
      if y != page && page in q {
        BeforeInRemoval(q, IndexOf(q, page), x, y);
      } else if y != page && |q| >= k {
        BeforeInRest(q, x, y);
      }
    }
  }

  lemma UseKeepsOrder(frame: seq<int>, lastUsed: seq<int>, q: seq<int>, t: int, slot: nat, page: int, q': seq<int>)
    requires ByLastUse(frame, lastUsed, q, t) && slot < |frame| && NoPageTwice(frame[slot := page]) && page != EMPTY
    requires MovedLast(q, page, q') && GoodQueue(q', |frame|)
    requires Pages(q') == Resident(frame[slot := page])
    ensures ByLastUse(frame[slot := page], lastUsed[slot := t], q', t + 1)
  {
    var frame', lastUsed' := frame[slot := page], lastUsed[slot := t];
    forall i, j | 0 <= i < |frame| && 0 <= j < |frame| && Before(q', frame'[i], frame'[j])
      ensures lastUsed'[i] < lastUsed'[j]
    {
      assert frame'[i] != page;
      if frame'[j] == page {
        assert frame'[slot] == page;
        assert j == slot;
      } else {
        assert Before(q, frame[i], frame[j]);
      }
    }
  }

  /** The slot LRU loads into: an empty frame if any, else the one least recently used. */
  ghost predicate LruSlot(frame: seq<int>, lastUsed: seq<int>, slot: nat)
    requires |lastUsed| == |frame| && slot < |frame|
  {
    if EMPTY in frame then frame[slot] == EMPTY
    else forall i :: 0 <= i < |frame| ==> lastUsed[slot] <= lastUsed[i]
  }

  lemma OldestIsLeastUsed(frame: seq<int>, lastUsed: seq<int>, q: seq<int>, t: int, slot: nat)
    requires ByLastUse(frame, lastUsed, q, t) && NoPageTwice(frame) && slot < |frame|
    requires EMPTY !in frame && LruSlot(frame, lastUsed, slot)
    ensures |q| == |frame| && q[0] == frame[slot]
  {
    PagesSize(q);
    ResidentSize(frame);
    assert q[0] in Pages(q);
    var i :| 0 <= i < |frame| && frame[i] == q[0];
    assert frame[slot] in frame;
    assert frame[slot] in Pages(q);
    var b :| 0 <= b < |q| && q[b] == frame[slot];
    if b > 0 {
      assert Before(q, frame[i], frame[slot]);
    }
  }

  lemma LruResident(frame: seq<int>, lastUsed: seq<int>, q: seq<int>, t: int, slot: nat, page: int)
    requires ByLastUse(frame, lastUsed, q, t) && NoPageTwice(frame) && slot < |frame| && page != EMPTY
    requires if page in frame then frame[slot] == page else LruSlot(frame, lastUsed, slot)
    ensures NoPageTwice(frame[slot := page])
    ensures Pages(Next(Lru, q, page, |frame|)) == Resident(frame[slot := page])
  {
    var q' := Next(Lru, q, page, |frame|);
    PagesAfterStep(q, page, |frame|, q');
    if page in frame {
      assert page in Resident(frame);
      assert frame[slot := page] == frame;
    } else {
      assert page !in Pages(q);
      ResidentAfter(frame, slot, page);
      PagesSize(q);
      ResidentSize(frame);
      if EMPTY !in frame {
        OldestIsLeastUsed(frame, lastUsed, q, t, slot);
      }
    }
  }

  /** One reference: the page ends up in `slot`, whose time of use becomes `t`. */
  lemma LruUse(frame: seq<int>, lastUsed: seq<int>, q: seq<int>, t: int, slot: nat, page: int)
    requires ByLastUse(frame, lastUsed, q, t) && NoPageTwice(frame) && slot < |frame| && page != EMPTY
    requires if page in frame then frame[slot] == page else LruSlot(frame, lastUsed, slot)
    ensures ByLastUse(frame[slot := page], lastUsed[slot := t], Next(Lru, q, page, |frame|), t + 1)
  {
    var q' := Next(Lru, q, page, |frame|);
    LruResident(frame, lastUsed, q, t, slot, page);
    StepKeepsGood(q, page, q', |frame|);
    NextMovesLast(q, page, |frame|, q');
    UseKeepsOrder(frame, lastUsed, q, t, slot, page, q');
  }

  ghost predicate LruInvariant(late: bool, refs: seq<int>, t: nat, frame: seq<int>, lastUsed: seq<int>,
                               queues: seq<seq<int>>, caches: seq<set<int>>, faults: nat)
    requires t <= |refs|
  {
    && Consistent(refs, t, frame, faults) && Counted(late, refs, t, frame, caches, faults)
    && |lastUsed| == |frame|
    && |queues| == t + 1
    && (EMPTY !in refs ==> RunSoFar(Lru, refs, |frame|, queues, t, faults) && ByLastUse(frame, lastUsed, queues[t], t))
  }

  lemma LruStart(late: bool, refs: seq<int>, frame: seq<int>, lastUsed: seq<int>)
    requires |lastUsed| == |frame| >= 1
    requires forall i :: 0 <= i < |frame| ==> frame[i] == EMPTY && lastUsed[i] == -1
    ensures LruInvariant(late, refs, 0, frame, lastUsed, [[]], [{}], 0)
  {
    ConsistentStart(refs, frame);
    assert Resident(frame) == {} == Pages([]);
  }

  /** The pages held and the faults after reference `t` has been loaded into `slot`. */
  lemma SlotCounted(late: bool, refs: seq<int>, t: nat, frame: seq<int>, slot: nat, caches: seq<set<int>>, faults: nat)
    requires t < |refs| && Consistent(refs, t, frame, faults) && Counted(late, refs, t, frame, caches, faults)
    requires slot < |frame| && (late ==> LateMarkers(refs, |frame|))
    requires if refs[t] in frame then frame[slot] == refs[t] else EMPTY in frame ==> frame[slot] == EMPTY
    ensures var frame' := frame[slot := refs[t]];
            var faults' := faults + if refs[t] in frame then 0 else 1;
            Consistent(refs, t + 1, frame', faults')
            && Counted(late, refs, t + 1, frame', caches + [Held(frame', faults')], faults')
  {
    if refs[t] in frame {
      assert frame[slot := refs[t]] == frame;
      ConsistentHit(refs, t, frame, faults);
      CountedHit(late, refs, t, frame, caches, faults);
    } else {
      SlotIsFree(refs, t, frame, faults, slot);
      ConsistentFault(refs, t, frame, faults, slot);
      CountedFault(late, refs, t, frame, slot, caches, faults);
    }
  }

  lemma LruStep(late: bool, refs: seq<int>, t: nat, frame: seq<int>, lastUsed: seq<int>, queues: seq<seq<int>>,
                caches: seq<set<int>>, faults: nat, slot: nat)
    returns (queues': seq<seq<int>>, caches': seq<set<int>>)
    requires late ==> LateMarkers(refs, |frame|)
    requires t < |refs| && |frame| == |lastUsed| && LruInvariant(late, refs, t, frame, lastUsed, queues, caches, faults)
    requires slot < |frame|
    requires if refs[t] in frame then frame[slot] == refs[t] else LruSlot(frame, lastUsed, slot)
    ensures LruInvariant(late, refs, t + 1, frame[slot := refs[t]], lastUsed[slot := t], queues', caches',
                         faults + if refs[t] in frame then 0 else 1)
  {
    var page, q' := refs[t], Next(Lru, queues[t], refs[t], |frame|);
    queues' := queues + [q'];
    caches' := caches + [Held(frame[slot := page], faults + if page in frame then 0 else 1)];
    SlotCounted(late, refs, t, frame, slot, caches, faults);
    if EMPTY !in refs {
      LruUse(frame, lastUsed, queues[t], t, slot, page);
      assert page in Pages(queues[t]) <==> page in Resident(frame);
      RunExtend(Lru, refs, |frame|, queues, t, faults, q');
    }
  }

  lemma LruEnd(late: bool, refs: seq<int>, frame: seq<int>, lastUsed: seq<int>, queues: seq<seq<int>>,
               caches: seq<set<int>>, faults: nat)
    requires LruInvariant(late, refs, |refs|, frame, lastUsed, queues, caches, faults)
    ensures EMPTY !in refs ==> faults == Faults(Lru, refs, |frame|)
    ensures late ==> Attained(refs, |frame|, faults)
    ensures EMPTY in refs && |frame| > RealPages(refs) ==> Undercounts(refs, |frame|, faults)
  {
    if EMPTY !in refs {
      FaultsOfRun(Lru, refs, |frame|, queues);
    } else if |frame| > RealPages(refs) {
      ConsistentUndercounts(refs, frame, faults);
    }
    if late {
      CountedEnd(refs, frame, caches, faults);
    }
  }

  method LeastRecentlyUsed(lastUsed: array<int>) returns (lruIndex: nat)
    requires lastUsed.Length >= 1
    ensures lruIndex < lastUsed.Length
    ensures forall i :: 0 <= i < lastUsed.Length ==> lastUsed[lruIndex] <= lastUsed[i]
  {
    lruIndex := 0;
    var lruTime := lastUsed[0];
    for i := 1 to lastUsed.Length
      invariant lruIndex < lastUsed.Length && lruTime == lastUsed[lruIndex]
      invariant forall j :: 0 <= j < i ==> lruTime <= lastUsed[j]
    {
      if lastUsed[i] < lruTime {
        lruTime := lastUsed[i];
        lruIndex := i;
      }
    }
  }

  /** The frame reference `t` goes to: where its page is, else a free frame, else the least recently used. */
  method LruFrame(frame: array<int>, lastUsed: array<int>, page: int) returns (hit: bool, slot: nat)
    requires 1 <= frame.Length == lastUsed.Length
    ensures hit <==> page in frame[..]
    ensures slot < frame.Length
    ensures if hit then frame[slot] == page else LruSlot(frame[..], lastUsed[..], slot)
  {
    var pos := FindPage(frame, page);
    hit := pos != -1;
    if !hit {
      pos := FindPage(frame, EMPTY);
      if pos == -1 {
        pos := LeastRecentlyUsed(lastUsed);
      }
    }
    slot := pos;
  }

  /** Serves reference `t`. */
  method LruReference(ghost late: bool, refs: seq<int>, t: nat, frame: array<int>, lastUsed: array<int>, hits: nat,
                      faults: nat, ghost queues: seq<seq<int>>, ghost caches: seq<set<int>>)
    returns (hits': nat, faults': nat, ghost queues': seq<seq<int>>, ghost caches': seq<set<int>>)
    requires late ==> LateMarkers(refs, frame.Length)
    requires t < |refs| && 1 <= frame.Length == lastUsed.Length && frame != lastUsed
    requires LruInvariant(late, refs, t, frame[..], lastUsed[..], queues, caches, faults)
    modifies frame, lastUsed
    ensures hits' + faults' == hits + faults + 1
    ensures faults' == faults + if refs[t] in old(frame[..]) then 0 else 1
    ensures LruInvariant(late, refs, t + 1, frame[..], lastUsed[..], queues', caches', faults')
  {
    ghost var before, usedBefore := frame[..], lastUsed[..];
    var hit, slot := LruFrame(frame, lastUsed, refs[t]);
    queues', caches' := LruStep(late, refs, t, before, usedBefore, queues, caches, faults, slot);
    if hit {
      hits', faults' := hits + 1, faults;
    } else {
      hits', faults' := hits, faults + 1;
      frame[slot] := refs[t];
    }
    lastUsed[slot] := t;
    assert frame[..] == before[slot := refs[t]];
    assert lastUsed[..] == usedBefore[slot := t];
  }

  method LruLoop(ghost late: bool, refs: seq<int>, frame: array<int>, lastUsed: array<int>)
    returns (hits: nat, faults: nat, ghost queues: seq<seq<int>>, ghost caches: seq<set<int>>)
    requires late ==> LateMarkers(refs, frame.Length)
    requires 1 <= frame.Length == lastUsed.Length && frame != lastUsed
    requires LruInvariant(late, refs, 0, frame[..], lastUsed[..], [[]], [{}], 0)
    modifies frame, lastUsed
    ensures hits + faults == |refs| && LruInvariant(late, refs, |refs|, frame[..], lastUsed[..], queues, caches, faults)
  {
    hits, faults := 0, 0;
    queues, caches := [[]], [{}];
    for t := 0 to |refs|
      invariant hits + faults == t
      invariant LruInvariant(late, refs, t, frame[..], lastUsed[..], queues, caches, faults)
    {
      hits, faults, queues, caches := LruReference(late, refs, t, frame, lastUsed, hits, faults, queues, caches);
    }
  }

  /** Without markers the count is that of LRU; with late ones, of some schedule, as the marker's frame is then refilled
      first. */
  method SimulateLru(refs: seq<int>, frames: nat) returns (hits: nat, faults: nat)
    requires frames >= 1
    ensures hits + faults == |refs|
    ensures EMPTY !in refs ==> faults == Faults(Lru, refs, frames)
    ensures LateMarkers(refs, frames) ==> Attained(refs, frames, faults)
    ensures EMPTY in refs && frames > RealPages(refs) ==> Undercounts(refs, frames, faults)
    ensures frames > RealPages(refs) ==> (faults == Faults(Lru, refs, frames) <==> EMPTY !in refs)
  {
    var frame := InitFrames(frames);
    ghost var late := LateMarkers(refs, frames);
    var lastUsed := new int[frames](_ => -1);
    LruStart(late, refs, frame[..], lastUsed[..]);
    ghost var queues, caches;
    hits, faults, queues, caches := LruLoop(late, refs, frame, lastUsed);
    LruEnd(late, refs, frame[..], lastUsed[..], queues, caches, faults);
    UndercountIsWrong(Lru, refs, frames, faults);
  }

  // ----- Random

  ghost predicate RandomInvariant(late: bool, refs: seq<int>, t: nat, frame: seq<int>, caches: seq<set<int>>,
                                  faults: nat)
    requires t <= |refs|
  {
    Consistent(refs, t, frame, faults) && Counted(late, refs, t, frame, caches, faults)
  }

  lemma RandomEnd(late: bool, refs: seq<int>, frame: seq<int>, caches: seq<set<int>>, faults: nat)
    requires RandomInvariant(late, refs, |refs|, frame, caches, faults)
    ensures late ==> Attained(refs, |frame|, faults)
    ensures EMPTY in refs && |frame| > RealPages(refs) ==> Undercounts(refs, |frame|, faults)
  {
    if late {
      CountedEnd(refs, frame, caches, faults);
    }
    if EMPTY in refs && |frame| > RealPages(refs) {
      ConsistentUndercounts(refs, frame, faults);
    }
  }

  /** Loads the missing page into a free frame if there is one, else over the frame drawn. */
  method RandomReplace(frame: array<int>, drawn: nat, page: int) returns (slot: nat)
    requires drawn < frame.Length
    modifies frame
    ensures slot < frame.Length && (EMPTY in old(frame[..]) ==> old(frame[..])[slot] == EMPTY)
    ensures frame[..] == old(frame[..])[slot := page]
  {
    var free := FindPage(frame, EMPTY);
    slot := if free != -1 then free else drawn;
    frame[slot] := page;
  }

  method RandomReference(ghost late: bool, refs: seq<int>, t: nat, frame: array<int>, drawn: nat, hits: nat,
                         faults: nat, ghost caches: seq<set<int>>)
    returns (hits': nat, faults': nat, ghost caches': seq<set<int>>)
    requires late ==> LateMarkers(refs, frame.Length)
    requires t < |refs| && drawn < frame.Length && RandomInvariant(late, refs, t, frame[..], caches, faults)
    modifies frame
    ensures hits' + faults' == hits + faults + 1
    ensures faults' == faults + if refs[t] in old(frame[..]) then 0 else 1
    ensures RandomInvariant(late, refs, t + 1, frame[..], caches', faults')
  {
    var pos := FindPage(frame, refs[t]);
    ghost var before := frame[..];
    if pos != -1 {
      hits', faults' := hits + 1, faults;
      SlotCounted(late, refs, t, before, pos, caches, faults);
      assert before[pos := refs[t]] == before;
    } else {
      hits', faults' := hits, faults + 1;
      var slot := RandomReplace(frame, drawn, refs[t]);
      SlotCounted(late, refs, t, before, slot, caches, faults);
    }
    caches' := caches + [Held(frame[..], faults')];
  }

  /** `draw(t)` stands for the random number drawn at reference `t`. */
  method RandomLoop(ghost late: bool, refs: seq<int>, frame: array<int>, draw: nat -> nat)
    returns (hits: nat, faults: nat, ghost caches: seq<set<int>>)
    requires late ==> LateMarkers(refs, frame.Length)
    requires frame.Length >= 1 && RandomInvariant(late, refs, 0, frame[..], [{}], 0)
    modifies frame
    ensures hits + faults == |refs| && RandomInvariant(late, refs, |refs|, frame[..], caches, faults)
  {
    hits, faults := 0, 0;
    caches := [{}];
    for t := 0 to |refs|
      invariant hits + faults == t
      invariant RandomInvariant(late, refs, t, frame[..], caches, faults)
    {
      hits, faults, caches := RandomReference(late, refs, t, frame, draw(t) % frame.Length, hits, faults, caches);
    }
  }

  /** Whatever the draws, the count is that of some schedule, so never below MIN's, as long as every marker comes after
      all frames have been filled, and too low at the first one that does not. */
  method SimulateRandom(refs: seq<int>, frames: nat, draw: nat -> nat) returns (hits: nat, faults: nat)
    requires frames >= 1
    ensures hits + faults == |refs|
    ensures EMPTY !in refs ==> Attained(refs, frames, faults)
    ensures LateMarkers(refs, frames) ==> Attained(refs, frames, faults)
    ensures EMPTY in refs && frames > RealPages(refs) ==> Undercounts(refs, frames, faults)
  {
    var frame := InitFrames(frames);
    ghost var late := LateMarkers(refs, frames);
    ConsistentStart(refs, frame[..]);
    ghost var caches;
    hits, faults, caches := RandomLoop(late, refs, frame, draw);
    RandomEnd(late, refs, frame[..], caches, faults);
  }
}
