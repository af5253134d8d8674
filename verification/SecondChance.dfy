/** CLOCK gives every page in use a second chance: what operations do to the
    reference bits, which page an eviction takes, and which it spares. */
module SecondChance {
  import opened VirtualMemory

  /** `op` reads or writes the allocated page `v`. */
  ghost predicate Uses(m: Memory, op: Op, v: int)
    requires TableOk(m)
  {
    && 0 <= v < |m.pages| && m.pages[v].valid
    && match op
       case Read(addr) => PageOf(addr, m.pageSize) == v
       case Write(addr, _) => PageOf(addr, m.pageSize) == v
       case Allocate => false
       case Delete(_) => false
  }

  /** `op` deletes page `v`. */
  ghost predicate Deletes(m: Memory, op: Op, v: int)
    requires TableOk(m)
  {
    op.Delete? && PageOf(op.addr, m.pageSize) == v
  }

  /** Page `u` is resident before, and after `op` still allocated but no longer resident. */
  ghost predicate SwapsOut(m: Memory, op: Op, u: int)
    requires TableOk(m)
  {
    var after := Step(m, op).0.pages;
    0 <= u < |m.pages| == |after| && m.pages[u].present && after[u].valid && !after[u].present
  }

  ghost predicate SwapsNothing(m: Memory, op: Op)
    requires TableOk(m)
  {
    forall u :: !SwapsOut(m, op, u)
  }

  ghost predicate SomeUnused(pages: seq<Entry>)
  {
    exists w :: 0 <= w < |pages| && Unused(pages, w)
  }

  ghost predicate Unused(pages: seq<Entry>, w: int)
    requires 0 <= w < |pages|
  {
    pages[w].present && !pages[w].referenced
  }

  /** Going round from `clock`, the hand meets page `w` before page `u`. */
  predicate Before(clock: nat, w: nat, u: nat)
  {
    if w >= clock then u < clock || w < u else u < clock && w < u
  }

  lemma BeforeIsNearer(n: nat, clock: nat, w: nat, u: nat)
    requires clock <= n && w < n && u < n
    ensures Before(clock, w, u) <==> Distance(n, clock, w) < Distance(n, clock, u)
  {
  }

  /** What the hand, on its way to `u`, does to resident page `w`: it takes the bit of a used page it passes. If no page
      is unused it goes all the way round to the first resident page, and every bit is gone. */
  ghost predicate Passed(before: seq<Entry>, after: seq<Entry>, clock: nat, u: nat, w: nat)
    requires u < |before| == |after| && w < |before|
  {
    if !SomeUnused(before) then !Before(clock, w, u) && !after[w].referenced
    else if Before(clock, w, u) then before[w].referenced && !after[w].referenced
    else after[w].referenced == before[w].referenced
  }

  /** The page the hand takes is unused if any is, and the first such page going round. */
  ghost predicate InTurn(before: seq<Entry>, after: seq<Entry>, clock: nat, u: nat)
    requires u < |before| == |after|
  {
    var taken := before[u].present && (SomeUnused(before) ==> !before[u].referenced);
    var others := forall w: nat :: w < |before| && w != u && before[w].present ==> Passed(before, after, clock, u, w);
    taken && others
  }

  /** What happens to a page that is not taken: at most it loses its bit. */
  ghost predicate Stays(e: Entry, e': Entry)
  {
    e' == e.(referenced := e'.referenced) && (e'.referenced ==> e.referenced) && (!e.present ==> e' == e)
  }

  lemma VictimInTurn(pages: seq<Entry>, clock: nat)
    requires clock <= |pages| && SomePresent(pages)
    ensures var n, u, k := |pages|, Victim(pages, clock), HandSteps(pages, clock);
            if SomeUnused(pages) then k < n && k == Distance(n, clock, u) && Unused(pages, u)
            else k >= n && forall i :: 0 <= i < Distance(n, clock, u) ==> !pages[Slot(n, clock, i)].present
  {
    var n, j := |pages|, ToIdle(pages, clock, 0);
    PresentIsReached(pages, clock);
    if SomeUnused(pages) {
      var w :| 0 <= w < n && Unused(pages, w);
      assert Slot(n, clock, Distance(n, clock, w)) == w;
    }
    if j < n {
      assert Unused(pages, Slot(n, clock, j));
    }
  }

  ghost predicate OthersStay(before: seq<Entry>, after: seq<Entry>, u: nat)
  {
    |after| == |before| && forall w: nat :: w < |before| && w != u ==> Stays(before[w], after[w])
  }

  /** From `m` to `m'` the hand has taken frame `f` from the page it now stands behind, whose turn it was. */
  ghost predicate TakenInTurn(m: Memory, m': Memory, f: int)
  {
    && |m'.pages| == |m.pages| && 0 <= m'.clock - 1 < |m.pages|
    && var u := m'.clock - 1;
       && m.pages[u].frame == f && !m'.pages[u].present && m'.pages[u].valid
       && InTurn(m.pages, m'.pages, m.clock, u) && OthersStay(m.pages, m'.pages, u)
  }

  lemma EvictInTurn(m: Memory)
    requires TableOk(m) && SomePresent(m.pages)
    ensures Evict(m).clock == Victim(m.pages, m.clock) + 1
    ensures TakenInTurn(m, Evict(m), m.pages[Victim(m.pages, m.clock)].frame)
  {
    VictimInTurn(m.pages, m.clock);
    EvictPasses(m);
    EvictOnlyClears(m);
  }

  lemma EvictPasses(m: Memory)
    requires TableOk(m) && SomePresent(m.pages)
    ensures |Evict(m).pages| == |m.pages| && InTurn(m.pages, Evict(m).pages, m.clock, Victim(m.pages, m.clock))
  {
    var u, m' := Victim(m.pages, m.clock), Evict(m);
    VictimInTurn(m.pages, m.clock);
    forall w: nat | w < |m.pages| && w != u && m.pages[w].present
      ensures Passed(m.pages, m'.pages, m.clock, u, w)
    {
      EntryInTurn(m, w);
    }
  }

  lemma EvictOnlyClears(m: Memory)
    requires TableOk(m) && SomePresent(m.pages)
    ensures OthersStay(m.pages, Evict(m).pages, Victim(m.pages, m.clock))
  {
    var u, m' := Victim(m.pages, m.clock), Evict(m);
    forall w: nat | w < |m.pages| && w != u
      ensures Stays(m.pages[w], m'.pages[w])
    {
      EntryInTurn(m, w);
    }
  }

  lemma EntryInTurn(m: Memory, w: nat)
    requires TableOk(m) && SomePresent(m.pages) && w < |m.pages| && w != Victim(m.pages, m.clock)
    ensures var u, m' := Victim(m.pages, m.clock), Evict(m);
            && |m'.pages| == |m.pages| && Stays(m.pages[w], m'.pages[w])
            && (m.pages[w].present ==> Passed(m.pages, m'.pages, m.clock, u, w))
  {
    var n, u := |m.pages|, Victim(m.pages, m.clock);
    VictimInTurn(m.pages, m.clock);
    BeforeIsNearer(n, m.clock, w, u);
    assert Slot(n, m.clock, Distance(n, m.clock, w)) == w;
    assert Evict(m).pages[w] == Swept(m.pages[w], Distance(n, m.clock, w) < HandSteps(m.pages, m.clock));
    if SomeUnused(m.pages) && Before(m.clock, w, u) && m.pages[w].present {
      assert !Idle(m.pages[Slot(n, m.clock, Distance(n, m.clock, w))]);
    }
  }

  // ----- Whole operations

  /** Whether `op` needs a frame and there is none free. */
  ghost predicate NeedsRoom(m: Memory, op: Op)
    requires TableOk(m)
  {
    && FirstFree(m.free, 0) == |m.free|
    && if op.Allocate? then FirstInvalid(m.pages, 0) < |m.pages|
       else exists v :: Uses(m, op, v) && !m.pages[v].present
  }

  /** The table from which `op` goes on once it has the frame it needs. */
  ghost function Roomed(m: Memory, op: Op): Memory
    requires TableOk(m)
  {
    if NeedsRoom(m, op) then MakeRoom(m) else m
  }

  /** The page `op` brings in, marks or removes; -1 if there is none. */
  ghost function PageTouched(m: Memory, op: Op): int
    requires TableOk(m)
  {
    match op
    case Allocate => if FirstInvalid(m.pages, 0) < |m.pages| then FirstInvalid(m.pages, 0) else -1
    case Delete(addr) => PageOf(addr, m.pageSize)
    case Write(addr, _) => PageOf(addr, m.pageSize)
    case Read(addr) => PageOf(addr, m.pageSize)
  }

  lemma RoomedTable(m: Memory, op: Op)
    requires TableOk(m)
    ensures var r := Roomed(m, op);
            && |r.pages| == |m.pages| && forall w: nat :: w < |m.pages| ==> r.pages[w].valid == m.pages[w].valid
  {
    RoomTable(m);
  }

  lemma UseIsAccess(m: Memory, op: Op, v: int)
    requires TableOk(m) && Uses(m, op, v)
    ensures Step(m, op).0.pages == Access(m, v, op.Write?).pages && Step(m, op).0.clock == Access(m, v, op.Write?).clock
  {
    AccessTable(m, v, op.Write?);
  }

  lemma AccessEntries(m: Memory, v: nat, write: bool)
    requires TableOk(m) && v < |m.pages| && m.pages[v].valid
    ensures var r, m' := if m.pages[v].present then m else MakeRoom(m), Access(m, v, write);
            && |r.pages| == |m'.pages| == |m.pages| && m'.clock == r.clock
            && m'.pages == r.pages[v := m'.pages[v]] && m'.pages[v].present && m'.pages[v].referenced
            && m'.pages[v].valid == r.pages[v].valid && m'.pages[v].modified == (r.pages[v].modified || write)
  {
    RoomTable(m);
  }

  /** Besides making room an operation changes one entry, and not the hand. */
  lemma OneEntry(m: Memory, op: Op)
    requires TableOk(m)
    ensures var r, m', v := Roomed(m, op), Step(m, op).0, PageTouched(m, op);
            && |m'.pages| == |r.pages| == |m.pages| && m'.clock == r.clock
            && forall w: nat :: w < |m.pages| && w != v ==> m'.pages[w] == r.pages[w]
  {
    RoomedTable(m, op);
    match op
    case Allocate => RoomTable(m);
    case Delete(_) =>
    case Write(addr, _) => UseEntry(m, op, PageOf(addr, m.pageSize));
    case Read(addr) => UseEntry(m, op, PageOf(addr, m.pageSize));
  }

  lemma UseEntry(m: Memory, op: Op, v: int)
    requires TableOk(m) && (op.Read? || op.Write?) && v == PageOf(op.addr, m.pageSize)
    ensures var r, m' := Roomed(m, op), Step(m, op).0;
            && |m'.pages| == |r.pages| == |m.pages| && m'.clock == r.clock
            && forall w: nat :: w < |m.pages| && w != v ==> m'.pages[w] == r.pages[w]
  {
    RoomedTable(m, op);
    if AddressError(m, op.addr).Done? {
      UseIsAccess(m, op, v);
      AccessEntries(m, v, op.Write?);
    }
  }

  /** After a read or a write without error the page is resident and marked as used, after a write as modified too. */
  lemma UseMarks(m: Memory, op: Op, v: int)
    requires TableOk(m) && Uses(m, op, v)
    ensures var after := Step(m, op).0.pages;
            && |after| == |m.pages| && after[v].valid && after[v].present && after[v].referenced
            && (after[v].modified <==> m.pages[v].modified || op.Write?)
  {
    UseIsAccess(m, op, v);
    AccessEntries(m, v, op.Write?);
    if !m.pages[v].present {
      RoomKeepsEntry(m, v);
    }
  }

  /** A page that is not resident is left alone by an eviction. */
  lemma RoomKeepsEntry(m: Memory, v: nat)
    requires TableOk(m) && v < |m.pages| && !m.pages[v].present
    ensures |MakeRoom(m).pages| == |m.pages| && MakeRoom(m).pages[v] == m.pages[v]
  {
    if FirstFree(m.free, 0) == |m.free| {
      FullHasPresent(m);
      EvictOnlyClears(m);
    }
  }

  /** Nothing else sets a bit. */
  lemma OnlyUseMarks(m: Memory, op: Op, w: int)
    requires TableOk(m) && 0 <= w < |m.pages| && !Uses(m, op, w)
    ensures var after := Step(m, op).0.pages; |after| == |m.pages| && (after[w].referenced ==> m.pages[w].referenced)
  {
    OneEntry(m, op);
    RoomSetsNoBit(m, w);
    if w == PageTouched(m, op) {
      OwnEntry(m, op, w);
    }
  }

  lemma RoomSetsNoBit(m: Memory, w: nat)
    requires TableOk(m) && w < |m.pages|
    ensures |MakeRoom(m).pages| == |m.pages| && (MakeRoom(m).pages[w].referenced ==> m.pages[w].referenced)
  {
    if FirstFree(m.free, 0) == |m.free| {
      FullHasPresent(m);
      if w != Victim(m.pages, m.clock) {
        EntryInTurn(m, w);
      }
    }
  }

  /** Page `v` is resident and marked as used, by a write also as modified; no other page has become used. */
  ghost predicate Marked(before: seq<Entry>, after: seq<Entry>, v: int, write: bool)
  {
    && 0 <= v < |before| == |after|
    && after[v].valid && after[v].present && after[v].referenced
    && (after[v].modified <==> before[v].modified || write)
    && forall w :: 0 <= w < |before| && w != v && !before[w].referenced ==> !after[w].referenced
  }

  lemma UseMarksOnly(m: Memory, op: Op, v: int)
    requires TableOk(m) && Uses(m, op, v)
    ensures Marked(m.pages, Step(m, op).0.pages, v, op.Write?)
    ensures Marked(m.pages, Access(m, v, op.Write?).pages, v, op.Write?)
  {
    UseMarks(m, op, v);
    UseIsAccess(m, op, v);
    forall w | 0 <= w < |m.pages| && w != v && !m.pages[w].referenced
      ensures !Step(m, op).0.pages[w].referenced
    {
      OnlyUseMarks(m, op, w);
    }
  }

  /** An allocated page starts unused, and a deleted one ends so. */
  lemma OwnEntry(m: Memory, op: Op, w: int)
    requires TableOk(m) && 0 <= w < |m.pages| && w == PageTouched(m, op) && !Uses(m, op, w)
    ensures var after := Step(m, op).0.pages; |after| == |m.pages| && (after[w].referenced ==> m.pages[w].referenced)
  {
    StepKeepsTable(m, op);
    if op.Allocate? {
      RoomTable(m);
      RoomKeepsEntry(m, w);
    }
  }

  /** The hand, and the pages resident in `m`, are in `m'` as in `r`. */
  ghost predicate ResidentAs(m: Memory, r: Memory, m': Memory)
  {
    && |m'.pages| == |m.pages| == |r.pages| && m'.clock == r.clock
    && forall w: nat :: w < |m.pages| && m.pages[w].present ==> m'.pages[w] == r.pages[w]
  }

  /** Page `u`'s turn has come: it is swapped out, nobody else is, and the hand is left just behind it. */
  ghost predicate TurnOf(m: Memory, m': Memory, u: nat)
  {
    && u < |m.pages| == |m'.pages| && m'.clock == u + 1
    && InTurn(m.pages, m'.pages, m.clock, u)
    && !m'.pages[u].present
    && forall w: nat :: w < |m.pages| && w != u && m.pages[w].present ==> m'.pages[w].present
  }

  /** A page an operation swaps out is the one whose turn it is, and there was no free frame. */
  lemma SwapInTurn(m: Memory, op: Op, u: int)
    requires TableOk(m) && SwapsOut(m, op, u)
    ensures TurnOf(m, Step(m, op).0, u) && forall f :: 0 <= f < |m.free| ==> !m.free[f]
  {
    NotOwnPage(m, op, u);
    FullHasPresent(m);
    EvictInTurn(m);
    LeftByEviction(m, op);
    TurnTaken(m, Evict(m), Step(m, op).0, m.pages[Victim(m.pages, m.clock)].frame, u);
  }

  lemma TurnTaken(m: Memory, r: Memory, m': Memory, f: int, u: nat)
    requires TakenInTurn(m, r, f) && ResidentAs(m, r, m')
    requires u < |m.pages| && m.pages[u].present && !m'.pages[u].present
    ensures TurnOf(m, m', u)
  {
    SameTurn(m, r, m', f);
  }

  lemma SameTurn(m: Memory, r: Memory, m': Memory, f: int)
    requires TakenInTurn(m, r, f) && ResidentAs(m, r, m')
    ensures TurnOf(m, m', r.clock - 1)
  {
    var u := r.clock - 1;
    forall w: nat | w < |m.pages| && w != u && m.pages[w].present
      ensures Passed(m.pages, m'.pages, m.clock, u, w) && m'.pages[w].present
    {
      assert Passed(m.pages, r.pages, m.clock, u, w) && Stays(m.pages[w], r.pages[w]);
    }
  }

  /** What was resident before an operation that needs room is as the eviction leaves it. */
  lemma LeftByEviction(m: Memory, op: Op)
    requires TableOk(m) && NeedsRoom(m, op) && SomePresent(m.pages)
    ensures ResidentAs(m, Evict(m), Step(m, op).0)
  {
    OneEntry(m, op);
    BroughtInWasAbsent(m, op);
  }

  /** Whoever needs room needs it for a page that is not resident. */
  lemma BroughtInWasAbsent(m: Memory, op: Op)
    requires TableOk(m) && NeedsRoom(m, op)
    ensures var v := PageTouched(m, op); 0 <= v < |m.pages| && !m.pages[v].present
  {
  }

  lemma NotOwnPage(m: Memory, op: Op, u: int)
    requires TableOk(m) && SwapsOut(m, op, u)
    ensures u != PageTouched(m, op) && NeedsRoom(m, op)
  {
    OneEntry(m, op);
    if u == PageTouched(m, op) {
      if Uses(m, op, u) {
        UseMarks(m, op, u);
      }
    }
  }

  /** An operation that swaps nothing out makes no room. */
  lemma NoRoomNeeded(m: Memory, op: Op)
    requires TableOk(m) && SwapsNothing(m, op)
    ensures !NeedsRoom(m, op)
  {
    if NeedsRoom(m, op) {
      FullHasPresent(m);
      EvictInTurn(m);
      OneEntry(m, op);
      BroughtInWasAbsent(m, op);
      assert SwapsOut(m, op, Victim(m.pages, m.clock));
    }
  }

  /** What one operation does to the reference bit of page `w`. */
  lemma BitAfter(m: Memory, op: Op, w: int)
    requires TableOk(m) && 0 <= w < |m.pages|
    ensures var m' := Step(m, op).0;
            && |m'.pages| == |m.pages|
            && (Uses(m, op, w) ==> m'.pages[w].referenced)
            && (!Uses(m, op, w) && m'.pages[w].referenced ==> m.pages[w].referenced)
            && (SwapsNothing(m, op) ==> m'.clock == m.clock)
            && (SwapsNothing(m, op) && !Uses(m, op, w) && !Deletes(m, op, w) ==>
                 m'.pages[w].referenced == m.pages[w].referenced)
            && (SwapsNothing(m, op) && !Deletes(m, op, w) && m.pages[w].present ==> m'.pages[w].present)
  {
    if Uses(m, op, w) {
      UseMarks(m, op, w);
    } else {
      OnlyUseMarks(m, op, w);
    }
    OneEntry(m, op);
    if SwapsNothing(m, op) {
      NoRoomNeeded(m, op);
      if w == PageTouched(m, op) && !Uses(m, op, w) && !Deletes(m, op, w) {
        UnusedEntry(m, op, w);
      }
    }
  }

  /** An error, or the allocation of page `w`, leaves its bit. */
  lemma UnusedEntry(m: Memory, op: Op, w: int)
    requires TableOk(m) && 0 <= w < |m.pages| && w == PageTouched(m, op)
    requires !Uses(m, op, w) && !Deletes(m, op, w) && !NeedsRoom(m, op)
    ensures var after := Step(m, op).0.pages;
            |after| == |m.pages| && after[w].referenced == m.pages[w].referenced
            && (m.pages[w].present ==> after[w].present)
  {
    StepKeepsTable(m, op);
    RoomTable(m);
  }

  // ----- From a use to the next eviction

  /** None of the operations swaps a page out or deletes page `v`. */
  ghost predicate Calm(m: Memory, ops: seq<Op>, v: int)
    requires TableOk(m)
    decreases |ops|
  {
    ops == [] ||
    (StepKeepsTable(m, ops[0]);
     SwapsNothing(m, ops[0]) && !Deletes(m, ops[0], v) && Calm(Step(m, ops[0]).0, ops[1..], v))
  }

  lemma {:induction false} StaysUsed(m: Memory, ops: seq<Op>, v: int)
    requires TableOk(m) && 0 <= v < |m.pages| && m.pages[v].present && m.pages[v].referenced && Calm(m, ops, v)
    ensures After(m, ops).pages[v].present && After(m, ops).pages[v].referenced
    decreases |ops|
  {
    if ops != [] {
      StepKeepsTable(m, ops[0]);
      BitAfter(m, ops[0], v);
      StaysUsed(Step(m, ops[0]).0, ops[1..], v);
    }
  }

  /** A page that has been read or written since the last eviction is not taken by the next one, as long as another
      resident page has not been used. */
  lemma UsedIsSpared(m: Memory, use: Op, v: int, s: Memory, ops: seq<Op>, evicting: Op, u: int)
    requires TableOk(m) && Uses(m, use, v)
    requires s == Step(m, use).0 && TableOk(s) && Calm(s, ops, v)
    requires SomeUnused(After(s, ops).pages) && SwapsOut(After(s, ops), evicting, u)
    ensures u != v
  {
    UseMarks(m, use, v);
    StaysUsed(s, ops, v);
    SwapInTurn(After(s, ops), evicting, u);
  }
}
