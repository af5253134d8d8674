/** The simulator's intrusive singly linked queue, against the sequence it stands for. */
module LinkedQueue {
  import Dispatch = MulticoreDispatch

  /** The thread fields the queue reads or links through. */
  class Thread {
    var burst: int
    var remaining: int
    var priority: int
    var next: Thread?

    constructor (burst: int, remaining: int, priority: int)
      ensures this.burst == burst && this.remaining == remaining && this.priority == priority && next == null
    {
      this.burst, this.remaining, this.priority := burst, remaining, priority;
      next := null;
    }
  }

  function KeyOf(t: Thread, key: Dispatch.Key): int
    reads t`burst, t`remaining, t`priority
  {
    match key
    case Burst => t.burst
    case Remaining => t.remaining
    case Priority => t.priority
  }

  const INT_MAX := 2147483647

  /** `best` is the smallest key before position `i`, first found at `k`. */
  ghost predicate BestBefore(keys: seq<int>, i: nat, k: nat, best: int)
  {
    && k < |keys| && i <= |keys| && (k == 0 || k < i)
    && (if i == 0 then best == INT_MAX else best == keys[k])
    && (forall j :: 0 <= j < i ==> best <= keys[j])
    && (forall j :: 0 <= j < k ==> best < keys[j])
  }

  lemma BestNext(keys: seq<int>, i: nat, k: nat, best: int)
    requires BestBefore(keys, i, k, best) && i < |keys| && keys[i] <= INT_MAX
    ensures if keys[i] < best then BestBefore(keys, i + 1, i, keys[i]) else BestBefore(keys, i + 1, k, best)
  {
  }

  class Queue {
    var front: Thread?
    var rear: Thread?
    var size: int
    ghost var contents: seq<Thread>

    /** The thread at position `i`, null at either end. */
    ghost function At(i: int): Thread?
      reads this
    {
      if 0 <= i < |contents| then contents[i] else null
    }

    ghost predicate Valid()
      reads this, contents`next
    {
      && size == |contents|
      && (forall i, j :: 0 <= i < j < |contents| ==> contents[i] != contents[j])
      && front == At(0) && rear == At(|contents| - 1)
      && (forall i {:trigger contents[i].next} :: 0 <= i < |contents| ==> contents[i].next == At(i + 1))
    }

    constructor ()
      ensures Valid() && contents == []
    {
      front, rear, size := null, null, 0;
      contents := [];
    }

    method Push(t: Thread)
      requires Valid() && t !in contents
      modifies this, contents`next, t`next
      ensures Valid() && contents == old(contents) + [t]
    {
      t.next := null;
      if rear == null {
        front, rear := t, t;
      } else {
        rear.next := t;
        rear := t;
      }
      size := size + 1;
      contents := contents + [t];
    }

    method Pop() returns (t: Thread?)
      requires Valid()
      modifies this, contents`next
      ensures Valid()
      ensures old(contents) == [] ==> t == null && contents == []
      ensures old(contents) != [] ==> t == old(contents)[0] && contents == old(contents)[1..] && t.next == null
    {
      if front == null {
        return null;
      }
      t := front;
      assert t == contents[0] && t.next == At(1);
      front := t.next;
      if front == null {
        rear := null;
      }
      t.next := null;
      size := size - 1;
      contents := contents[1..];
      assert forall i :: 0 <= i < |contents| ==> contents[i] == old(contents)[i + 1];
    }

    /** Unlinks the thread at position `k`, which follows `prev`. */
    method UnlinkAfter(prev: Thread, ghost k: nat) returns (removed: Thread)
      requires Valid() && 1 <= k < |contents| && prev == contents[k - 1]
      modifies this, contents`next
      ensures Valid()
      ensures removed == old(contents)[k] && removed.next == null
      ensures contents == old(contents)[..k] + old(contents)[k + 1..]
    {
      assert prev.next == At(k) && contents[k].next == At(k + 1);
      removed := prev.next;
      prev.next := removed.next;
      if removed == rear {
        rear := prev;
      }
      size := size - 1;
      removed.next := null;
      ghost var before := contents;
      contents := before[..k] + before[k + 1..];
      UnlinkedIsValid(before, k);
    }

    lemma UnlinkedIsValid(before: seq<Thread>, k: nat)
      requires 1 <= k < |before| && contents == before[..k] + before[k + 1..] && size == |contents|
      requires forall i, j :: 0 <= i < j < |before| ==> before[i] != before[j]
      requires front == before[0] && rear == if k == |before| - 1 then before[k - 1] else before[|before| - 1]
      requires before[k - 1].next == if k + 1 < |before| then before[k + 1] else null
      requires forall i :: 0 <= i < |before| && i != k - 1 && i != k ==>
        before[i].next == if i + 1 < |before| then before[i + 1] else null
      ensures Valid()
    {
      forall i | 0 <= i < |contents|
        ensures contents[i] == before[if i < k then i else i + 1] && contents[i].next == At(i + 1)
      {
        var j := if i < k then i else i + 1;
        assert contents[i] == before[j];
        assert before[j].next == if i == k - 1 then (if k + 1 < |before| then before[k + 1] else null)
                                 else if j + 1 < |before| then before[j + 1] else null;
      }
    }

    /** Unlinks the thread after `prev`, or the first one when `prev` is null. */
    method RemoveAfter(prev: Thread?, ghost k: nat) returns (removed: Thread)
      requires Valid() && k < |contents|
      requires prev == At(k - 1)
      modifies this, contents`next
      ensures Valid()
      ensures removed == old(contents)[k] && removed.next == null
      ensures contents == old(contents)[..k] + old(contents)[k + 1..]
    {
      if prev == null {
        var head := Pop();
        removed := head;
      } else {
        removed := UnlinkAfter(prev, k);
      }
    }

    /** `k` is the first position with the smallest key. */
    ghost predicate FirstSmallest(key: Dispatch.Key, k: int)
      reads this, contents
    {
      && 0 <= k < |contents|
      && (forall i :: 0 <= i < |contents| ==> KeyOf(contents[k], key) <= KeyOf(contents[i], key))
      && (forall i :: 0 <= i < k ==> KeyOf(contents[k], key) < KeyOf(contents[i], key))
    }

    ghost function Keys(key: Dispatch.Key): (keys: seq<int>)
      reads this, contents
      ensures |keys| == |contents| && forall i :: 0 <= i < |contents| ==> keys[i] == KeyOf(contents[i], key)
    {
      seq(|contents|, i requires 0 <= i < |contents| reads this, contents => KeyOf(contents[i], key))
    }

    /** The thread before the first one with the smallest key, null when that is at the front; keys are machine
        integers. */
    method BeforeSmallest(key: Dispatch.Key) returns (bestPrev: Thread?, ghost k: nat)
      requires Valid() && contents != [] && forall i :: 0 <= i < |contents| ==> KeyOf(contents[i], key) <= INT_MAX
      ensures FirstSmallest(key, k) && bestPrev == At(k - 1)
    {
      ghost var keys, i := Keys(key), 0;
      var best := INT_MAX;
      bestPrev, k := null, 0;
      var prev: Thread?, cur := null, front;
      while cur != null
        invariant i <= |contents| && cur == At(i) && prev == At(i - 1) && bestPrev == At(k - 1)
        invariant BestBefore(keys, i, k, best)
        decreases |contents| - i
      {
        LinksOn(i);
        BestNext(keys, i, k, best);
        var candidate := KeyOf(cur, key);
        if candidate < best {
          best := candidate;
          bestPrev := prev;
          k := i;
        }
        prev := cur;
        cur := cur.next;
        i := i + 1;
      }
      BestIsFirst(key, k, best);
    }

    lemma BestIsFirst(key: Dispatch.Key, k: nat, best: int)
      requires contents != [] && BestBefore(Keys(key), |contents|, k, best)
      ensures FirstSmallest(key, k)
    {
    }

    lemma LinksOn(i: int)
      requires Valid() && 0 <= i < |contents|
      ensures contents[i].next == At(i + 1)
    {
    }

    /** Removes the first thread with the smallest key. */
    method PopSmallest(key: Dispatch.Key) returns (t: Thread?)
      requires Valid() && forall i :: 0 <= i < |contents| ==> KeyOf(contents[i], key) <= INT_MAX
      modifies this, contents`next
      ensures Valid()
      ensures old(contents) == [] ==> t == null && contents == []
      ensures old(contents) != [] ==>
                exists k :: old(FirstSmallest(key, k)) && t == old(contents)[k] && t.next == null
                            && contents == old(contents)[..k] + old(contents)[k + 1..]
    {
      if size == 0 {
        return null;
      }
      var bestPrev, k := BeforeSmallest(key);
      var removed := RemoveAfter(bestPrev, k);
      t := removed;
    }
  }
}
