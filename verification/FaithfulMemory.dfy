/** When demand paging cannot be told from flat memory by any later answer. */
module FaithfulMemory {
  import opened Arithmetic
  import opened Distinctness
  import opened VirtualMemory
  import opened VirtualAddresses

  /** Only allocations and reads. */
  ghost predicate Quiet(ops: seq<Op>)
  {
    forall i :: 0 <= i < |ops| ==> ops[i].Allocate? || ops[i].Read?
  }

  /** A run, one operation at a time. */
  lemma FirstOp(m: Memory, op: Op, rest: seq<Op>)
    requires TableOk(m)
    ensures TableOk(Step(m, op).0) && After(m, [op]) == Step(m, op).0
    ensures After(m, [op] + rest) == After(After(m, [op]), rest)
  {
    var m' := Step(m, op).0;
    StepKeepsTable(m, op);
    assert ([op] + rest)[1..] == rest && [op][1..] == [];
    assert After(m', []) == m';
  }

  // ----- What a page would hold if it were evicted

  /** What page `v` will hold after its next eviction and reload. */
  function Saved(m: Memory, v: nat): (block: seq<byte>)
    requires TableOk(m) && v < |m.pages|
    ensures |block| == m.pageSize
  {
    if m.pages[v].present && m.pages[v].modified then m.frames[m.pages[v].frame] else m.disk[v]
  }

  lemma RoomKeepsSaved(m: Memory, v: nat)
    requires TableOk(m) && v < |m.pages|
    ensures TableOk(MakeRoom(m)) && |MakeRoom(m).pages| == |m.pages| && Saved(MakeRoom(m), v) == Saved(m, v)
  {
    RoomTable(m);
    if FirstFree(m.free, 0) == |m.free| {
      FullHasPresent(m);
      EvictIsEviction(m);
      var w := Victim(m.pages, m.clock);
      assert v != w ==> SameButReferenced(m.pages[v], Evict(m).pages[v]);
    }
  }

  lemma PlaceKeepsSaved(m: Memory, u: nat, f: nat, v: nat)
    requires TableOk(m) && u < |m.pages| && !m.pages[u].valid && f < |m.free| && m.free[f] && v < |m.pages|
    ensures TableOk(Place(m, u, f)) && Saved(Place(m, u, f), v) == Saved(m, v)
  {
    PlaceTable(m, u, f);
  }

  lemma LoadKeepsSaved(m: Memory, u: nat, f: nat, v: nat)
    requires TableOk(m) && u < |m.pages| && m.pages[u].valid && !m.pages[u].present && f < |m.free| && m.free[f]
    requires v < |m.pages|
    ensures TableOk(LoadPage(m, u, f)) && Saved(LoadPage(m, u, f), v) == Saved(m, v)
  {
    LoadTable(m, u, f);
  }

  lemma ReadKeepsSaved(m: Memory, u: nat, v: nat)
    requires TableOk(m) && u < |m.pages| && m.pages[u].valid && v < |m.pages|
    ensures TableOk(Access(m, u, false)) && |Access(m, u, false).pages| == |m.pages|
    ensures Saved(Access(m, u, false), v) == Saved(m, v)
  {
    AccessTable(m, u, false);
    if !m.pages[u].present {
      FaultKeepsSaved(m, u, v);
    }
  }

  lemma FaultKeepsSaved(m: Memory, u: nat, v: nat)
    requires TableOk(m) && u < |m.pages| && m.pages[u].valid && !m.pages[u].present && v < |m.pages|
    ensures TableOk(Fault(m, u)) && |Fault(m, u).pages| == |m.pages| && Saved(Fault(m, u), v) == Saved(m, v)
  {
    FaultTable(m, u);
    RoomTable(m);
    RoomKeepsSaved(m, v);
    LoadKeepsSaved(MakeRoom(m), u, RoomFrame(m), v);
  }

  lemma QuietKeepsSaved(m: Memory, op: Op, v: nat)
    requires TableOk(m) && (op.Allocate? || op.Read?) && v < |m.pages|
    ensures TableOk(Step(m, op).0) && |Step(m, op).0.pages| == |m.pages|
    ensures Saved(Step(m, op).0, v) == Saved(m, v)
  {
    StepKeepsTable(m, op);
    if op.Allocate? {
      var u := FirstInvalid(m.pages, 0);
      if u < |m.pages| {
        RoomTable(m);
        RoomKeepsSaved(m, v);
        PlaceKeepsSaved(MakeRoom(m), u, RoomFrame(m), v);
      }
    } else if AddressError(m, op.addr).Done? {
      ReadKeepsSaved(m, PageOf(op.addr, m.pageSize), v);
    }
  }

  // ----- In step with a flat memory

  /** Same sizes and the same pages allocated, whatever they hold. */
  ghost predicate InStep(m: Memory, flat: Flat)
  {
    && TableOk(m) && WellFormed(flat) && flat.pageSize == m.pageSize && flat.pageCount == |m.pages|
    && forall v :: v in flat.pages <==> 0 <= v < |m.pages| && m.pages[v].valid
  }

  lemma {:induction false} SameFirstInStep(m: Memory, flat: Flat, k: nat)
    requires InStep(m, flat) && k <= |m.pages|
    ensures FirstUnallocated(flat, k) == FirstInvalid(m.pages, k)
    decreases |m.pages| - k
  {
    if k < |m.pages| && m.pages[k].valid {
      SameFirstInStep(m, flat, k + 1);
    }
  }

  lemma AccessKeepsValid(m: Memory, v: nat, write: bool)
    requires TableOk(m) && v < |m.pages| && m.pages[v].valid
    ensures |Access(m, v, write).pages| == |m.pages|
    ensures forall u :: 0 <= u < |m.pages| ==> Access(m, v, write).pages[u].valid == m.pages[u].valid
  {
    RoomTable(m);
  }

  lemma AllocatedPages(m: Memory, v: nat)
    requires TableOk(m) && v < |m.pages|
    ensures var m' := AllocateStep(m).0;
            && |m'.pages| == |m.pages| && m'.pageSize == m.pageSize
            && (m'.pages[v].valid <==> m.pages[v].valid || v == FirstInvalid(m.pages, 0))
  {
    RoomTable(m);
  }

  lemma AllocateInStep(m: Memory, flat: Flat)
    requires InStep(m, flat) && TableOk(AllocateStep(m).0)
    ensures InStep(AllocateStep(m).0, FlatStep(flat, Allocate).0)
  {
    SameFirstInStep(m, flat, 0);
    var m', flat' := AllocateStep(m).0, FlatStep(flat, Allocate).0;
    if |m.pages| > 0 {
      AllocatedPages(m, 0);
    }
    forall v: int
      ensures v in flat'.pages <==> 0 <= v < |m'.pages| && m'.pages[v].valid
    {
      if 0 <= v < |m.pages| {
        AllocatedPages(m, v);
      }
    }
  }

  lemma WriteKeepsValid(m: Memory, addr: int, data: byte)
    requires TableOk(m)
    ensures var m' := WriteStep(m, addr, data).0;
            && |m'.pages| == |m.pages| && m'.pageSize == m.pageSize
            && forall u :: 0 <= u < |m.pages| ==> m'.pages[u].valid == m.pages[u].valid
  {
    if AddressError(m, addr).Done? {
      AccessTable(m, PageOf(addr, m.pageSize), true);
      AccessKeepsValid(m, PageOf(addr, m.pageSize), true);
    }
  }

  lemma WriteInStep(m: Memory, flat: Flat, addr: int, data: byte)
    requires InStep(m, flat) && TableOk(WriteStep(m, addr, data).0)
    ensures InStep(WriteStep(m, addr, data).0, FlatStep(flat, Write(addr, data)).0)
  {
    WriteKeepsValid(m, addr, data);
    SameValidInStep(m, flat, WriteStep(m, addr, data).0, FlatStep(flat, Write(addr, data)).0);
  }

  lemma SameValidInStep(m: Memory, flat: Flat, m': Memory, flat': Flat)
    requires InStep(m, flat) && TableOk(m') && WellFormed(flat') && flat' == flat.(pages := flat'.pages)
    requires |m'.pages| == |m.pages| && m'.pageSize == m.pageSize && flat'.pages.Keys == flat.pages.Keys
    requires forall u :: 0 <= u < |m.pages| ==> m'.pages[u].valid == m.pages[u].valid
    ensures InStep(m', flat')
  {
  }

  lemma ReadInStep(m: Memory, flat: Flat, addr: int)
    requires InStep(m, flat) && TableOk(ReadStep(m, addr).0)
    ensures InStep(ReadStep(m, addr).0, FlatStep(flat, Read(addr)).0)
  {
    if AddressError(m, addr).Done? {
      AccessTable(m, PageOf(addr, m.pageSize), false);
      AccessKeepsValid(m, PageOf(addr, m.pageSize), false);
    }
  }

  lemma DeleteInStep(m: Memory, flat: Flat, addr: int)
    requires InStep(m, flat) && TableOk(DeleteStep(m, addr).0)
    ensures InStep(DeleteStep(m, addr).0, FlatStep(flat, Delete(addr)).0)
  {
  }

  lemma StaysInStep(m: Memory, flat: Flat, op: Op)
    requires InStep(m, flat)
    ensures InStep(Step(m, op).0, FlatStep(flat, op).0)
  {
    StepKeepsTable(m, op);
    match op
    case Allocate => AllocateInStep(m, flat);
    case Write(addr, data) => WriteInStep(m, flat, addr, data);
    case Read(addr) => ReadInStep(m, flat, addr);
    case Delete(addr) => DeleteInStep(m, flat, addr);
  }

  /** What flat memory holds in a cell; unallocated pages are about to hold zeros. */
  ghost function FlatByte(flat: Flat, v: nat, off: nat): byte
    requires WellFormed(flat) && off < flat.pageSize
  {
    if v as int in flat.pages then flat.pages[v as int][off] else 0
  }

  /** The next time page `v` is reloaded its byte at `off` is wrong. */
  ghost predicate Wrong(m: Memory, flat: Flat, v: nat, off: nat)
    requires InStep(m, flat)
  {
    v < |m.pages| && off < m.pageSize && Saved(m, v)[off] != FlatByte(flat, v, off)
  }

  lemma QuietKeepsFlatByte(flat: Flat, op: Op, v: nat, off: nat)
    requires WellFormed(flat) && off < flat.pageSize && (op.Allocate? || op.Read?)
    ensures FlatByte(FlatStep(flat, op).0, v, off) == FlatByte(flat, v, off)
  {
  }

  lemma StaysWrong(m: Memory, flat: Flat, op: Op, v: nat, off: nat)
    requires InStep(m, flat) && Wrong(m, flat, v, off) && (op.Allocate? || op.Read?)
    ensures InStep(Step(m, op).0, FlatStep(flat, op).0)
    ensures Wrong(Step(m, op).0, FlatStep(flat, op).0, v, off)
  {
    StaysInStep(m, flat, op);
    QuietKeepsSaved(m, op, v);
    QuietKeepsFlatByte(flat, op, v, off);
  }

  lemma {:induction false} RemainsWrong(m: Memory, flat: Flat, ops: seq<Op>, v: nat, off: nat)
    requires InStep(m, flat) && Wrong(m, flat, v, off) && Quiet(ops)
    ensures InStep(After(m, ops), FlatAfter(flat, ops)) && Wrong(After(m, ops), FlatAfter(flat, ops), v, off)
    decreases |ops|
  {
    if ops != [] {
      StaysWrong(m, flat, ops[0], v, off);
      RemainsWrong(Step(m, ops[0]).0, FlatStep(flat, ops[0]).0, ops[1..], v, off);
      FlatAfterFirst(flat, ops);
    }
  }

  // ----- Getting a page evicted

  ghost function Homes(pages: seq<Entry>): (r: seq<int>)
    ensures |r| == |pages| && forall v :: 0 <= v < |pages| ==> r[v] == pages[v].frame
  {
    seq(|pages|, v requires 0 <= v < |pages| => pages[v].frame)
  }

  lemma NotAllPresent(m: Memory)
    requires TableOk(m) && forall v :: 0 <= v < |m.pages| ==> m.pages[v].present
    ensures |m.pages| <= |m.frames|
  {
    var n, home := |m.pages|, Homes(m.pages);
    RangeSize(n);
    ImageSize(home, Range(n));
    RangeSize(|m.frames|);
    SubsetSize(Image(home, Range(n)), Range(|m.frames|));
  }

  lemma SomebodyAbsent(m: Memory) returns (u: nat)
    requires TableOk(m) && |m.pages| > |m.frames|
    ensures u < |m.pages| && !m.pages[u].present
  {
    if forall v :: 0 <= v < |m.pages| ==> m.pages[v].present {
      NotAllPresent(m);
    }
    u :| 0 <= u < |m.pages| && !m.pages[u].present;
  }

  ghost function Unallocated(pages: seq<Entry>): set<int>
  {
    set v | 0 <= v < |pages| && !pages[v].valid
  }

  ghost function FreeFrames(free: seq<bool>): set<int>
  {
    set f | 0 <= f < |free| && free[f]
  }

  lemma SmallerSet(a: set<int>, b: set<int>, x: int)
    requires a <= b && x in b && x !in a
    ensures |a| < |b|
  {
    SubsetSize(a, b);
  }

  lemma AllocationAllocates(m: Memory)
    requires TableOk(m) && Unallocated(m.pages) != {}
    ensures TableOk(Step(m, Allocate).0) && |Step(m, Allocate).0.pages| == |m.pages|
    ensures |Unallocated(Step(m, Allocate).0.pages)| < |Unallocated(m.pages)|
  {
    StepKeepsTable(m, Allocate);
    var u := FirstInvalid(m.pages, 0);
    var w :| w in Unallocated(m.pages);
    RoomTable(m);
    SmallerSet(Unallocated(Step(m, Allocate).0.pages), Unallocated(m.pages), u);
  }

  /** The hand passes a page only to clear its reference bit; otherwise it gets closer. */
  lemma HandComesCloser(pages: seq<Entry>, clock: nat, v: nat)
    requires clock <= |pages| && SomePresent(pages) && v < |pages| && pages[v].present && Victim(pages, clock) != v
    ensures var e := Swept(pages[v], Distance(|pages|, clock, v) < HandSteps(pages, clock));
            if pages[v].referenced && !e.referenced then true
            else e == pages[v]
                 && Distance(|pages|, Victim(pages, clock) + 1, v) < Distance(|pages|, clock, v)
  {
    PresentIsReached(pages, clock);
    var j := ToIdle(pages, clock, 0);
    assert Slot(|pages|, clock, Distance(|pages|, clock, v)) == v;
  }

  lemma FaultInto(m: Memory, u: nat)
    requires TableOk(m) && u < |m.pages| && !m.pages[u].present && FirstFree(m.free, 0) < |m.free|
    ensures |FreeFrames(Access(m, u, false).free)| < |FreeFrames(m.free)|
  {
    var m' := Access(m, u, false);
    var f := FirstFree(m.free, 0);
    assert m'.free == m.free[f := false];
    SmallerSet(FreeFrames(m'.free), FreeFrames(m.free), f);
  }

  lemma EvictElsewhere(m: Memory, v: nat)
    requires TableOk(m) && v < |m.pages| && SomePresent(m.pages) && Victim(m.pages, m.clock) != v
    ensures var w := Victim(m.pages, m.clock);
            && Evict(m).free == m.free[m.pages[w].frame := true] && Evict(m).clock == w + 1
            && Evict(m).pages[v] == Swept(m.pages[v], Distance(|m.pages|, m.clock, v) < HandSteps(m.pages, m.clock))
  {
  }

  /** The hand has stopped at the victim, and the frame it freed is in use again. */
  ghost predicate PassedBy(m: Memory, m': Memory, v: nat)
    requires Shape(m) && SomePresent(m.pages) && v < |m.pages|
  {
    && m'.free == m.free && |m'.pages| == |m.pages| && m'.clock == Victim(m.pages, m.clock) + 1
    && m'.pages[v] == Swept(m.pages[v], Distance(|m.pages|, m.clock, v) < HandSteps(m.pages, m.clock))
  }

  /** With no frame free a fault is an eviction and a load into the frame it freed. */
  lemma FaultEvicts(m: Memory, u: nat)
    requires TableOk(m) && u < |m.pages| && !m.pages[u].present
    requires FirstFree(m.free, 0) == |m.free| && SomePresent(m.pages)
    ensures var f := m.pages[Victim(m.pages, m.clock)].frame;
            0 <= f < |m.free| && Access(m, u, false) == Touch(LoadPage(Evict(m), u, f), u, false)
  {
  }

  lemma FaultOver(m: Memory, u: nat, v: nat)
    requires TableOk(m) && u < |m.pages| && m.pages[u].valid && !m.pages[u].present
    requires v < |m.pages| && m.pages[v].present && FirstFree(m.free, 0) == |m.free| && SomePresent(m.pages)
    requires Victim(m.pages, m.clock) != v
    ensures PassedBy(m, Access(m, u, false), v)
  {
    FaultEvicts(m, u);
    LoadPassesBy(m, u, v, m.pages[Victim(m.pages, m.clock)].frame);
  }

  lemma LoadPassesBy(m: Memory, u: nat, v: nat, f: int)
    requires TableOk(m) && u < |m.pages| && v < |m.pages| && u != v && SomePresent(m.pages)
    requires Victim(m.pages, m.clock) != v && f == m.pages[Victim(m.pages, m.clock)].frame && 0 <= f < |m.free|
    requires !m.free[f]
    ensures PassedBy(m, Touch(LoadPage(Evict(m), u, f), u, false), v)
  {
    EvictElsewhere(m, v);
    AfterLoad(m, Evict(m), u, v, f);
  }

  lemma AfterLoad(m: Memory, e: Memory, u: nat, v: nat, f: int)
    requires TableOk(m) && u < |m.pages| && v < |m.pages| && u != v && SomePresent(m.pages)
    requires 0 <= f < |m.free| == |e.frames| && !m.free[f] && e.free == m.free[f := true]
    requires |e.pages| == |e.disk| == |m.pages| && e.clock == Victim(m.pages, m.clock) + 1
    requires e.pages[v] == Swept(m.pages[v], Distance(|m.pages|, m.clock, v) < HandSteps(m.pages, m.clock))
    ensures PassedBy(m, Touch(LoadPage(e, u, f), u, false), v)
  {
  }

  /** Page `v`, resident, has come closer to its own eviction. */
  ghost predicate Closer(m: Memory, m': Memory, v: nat)
    requires Shape(m) && Shape(m') && v < |m.pages| == |m'.pages|
  {
    if FirstFree(m.free, 0) < |m.free| then |FreeFrames(m'.free)| < |FreeFrames(m.free)|
    else
      && m'.free == m.free
      && (if m.pages[v].referenced && !m'.pages[v].referenced then true
          else m'.pages[v].referenced == m.pages[v].referenced
               && Distance(|m.pages|, m'.clock, v) < Distance(|m.pages|, m.clock, v))
  }

  lemma FaultCloser(m: Memory, u: nat, v: nat)
    requires TableOk(m) && u < |m.pages| && m.pages[u].valid && !m.pages[u].present
    requires TableOk(Access(m, u, false)) && |Access(m, u, false).pages| == |m.pages|
    requires v < |m.pages| && m.pages[v].present && Access(m, u, false).pages[v].present
    ensures Closer(m, Access(m, u, false), v)
  {
    if FirstFree(m.free, 0) < |m.free| {
      FaultInto(m, u);
    } else {
      FullHasPresent(m);
      if Victim(m.pages, m.clock) == v {
        VictimGoes(m, u);
      }
      FaultOver(m, u, v);
      CloserToEviction(m, Access(m, u, false), v);
    }
  }

  lemma CloserToEviction(m: Memory, m': Memory, v: nat)
    requires Shape(m) && Shape(m') && v < |m.pages| == |m'.pages| && m.pages[v].present
    requires FirstFree(m.free, 0) == |m.free| && SomePresent(m.pages) && Victim(m.pages, m.clock) != v
    requires PassedBy(m, m', v)
    ensures Closer(m, m', v)
  {
    HandComesCloser(m.pages, m.clock, v);
  }

  /** Reading an absent page brings a resident one closer to its own eviction. */
  lemma FaultElsewhere(m: Memory, u: nat, v: nat)
    requires TableOk(m) && u < |m.pages| && m.pages[u].valid && !m.pages[u].present
    requires v < |m.pages| && m.pages[v].present
    ensures var m' := Access(m, u, false);
            && TableOk(m') && |m'.pages| == |m.pages| && Unallocated(m'.pages) == Unallocated(m.pages)
            && m'.pages[v].valid && (m'.pages[v].present ==> Closer(m, m', v))
  {
    AccessTable(m, u, false);
    AccessKeepsValid(m, u, false);
    if Access(m, u, false).pages[v].present {
      FaultCloser(m, u, v);
    }
  }

  lemma VictimGoes(m: Memory, u: nat)
    requires TableOk(m) && u < |m.pages| && m.pages[u].valid && !m.pages[u].present
    requires FirstFree(m.free, 0) == |m.free| && SomePresent(m.pages)
    ensures var m' := Access(m, u, false);
            |m'.pages| == |m.pages| && !m'.pages[Victim(m.pages, m.clock)].present
  {
  }

  lemma PageAddress(m: Memory, u: nat)
    requires m.pageSize >= 1
    ensures PageOf(u * m.pageSize, m.pageSize) == u
  {
    Remainder(u * m.pageSize, m.pageSize, u, 0);
  }

  lemma ReadAbsent(m: Memory, u: nat, addr: int)
    requires TableOk(m) && u < |m.pages| && m.pages[u].valid && PageOf(addr, m.pageSize) == u
    ensures Step(m, Read(addr)).0 == Access(m, u, false)
  {
  }

  /** Allocations and reads that end with page `v` allocated and swapped out. */
  lemma {:induction false} SwapOut(m: Memory, v: nat) returns (ops: seq<Op>)
    requires TableOk(m) && |m.pages| > |m.frames| && v < |m.pages|
    ensures Quiet(ops) && After(m, ops).pages[v].valid && !After(m, ops).pages[v].present
    decreases |Unallocated(m.pages)|, if m.pages[v].present then 1 else 0, |FreeFrames(m.free)|,
              if m.pages[v].referenced then 1 else 0, Distance(|m.pages|, m.clock, v)
  {
    if m.pages[v].valid && !m.pages[v].present {
      return [];
    }
    var op := NextOp(m, v);
    var rest := SwapOut(Step(m, op).0, v);
    ops := [op] + rest;
    FirstOp(m, op, rest);
  }

  /** An allocation, or when there is none left a read of an absent page. */
  lemma NextOp(m: Memory, v: nat) returns (op: Op)
    requires TableOk(m) && |m.pages| > |m.frames| && v < |m.pages| && (m.pages[v].valid ==> m.pages[v].present)
    ensures op.Allocate? || op.Read?
    ensures var m' := Step(m, op).0;
            && TableOk(m') && |m'.pages| == |m.pages| && |m'.frames| == |m.frames|
            && (|Unallocated(m'.pages)| < |Unallocated(m.pages)|
                || (Unallocated(m'.pages) == Unallocated(m.pages) && m.pages[v].present
                    && (m'.pages[v].present ==> Closer(m, m', v))))
  {
    if Unallocated(m.pages) != {} {
      op := Allocate;
      AllocationAllocates(m);
    } else {
      assert forall u :: 0 <= u < |m.pages| && !m.pages[u].valid ==> u in Unallocated(m.pages);
      var u := SomebodyAbsent(m);
      op := Read(u * m.pageSize);
      PageAddress(m, u);
      ReadAbsent(m, u, op.addr);
      FaultElsewhere(m, u, v);
    }
    StepKeepsFrames(m, op);
  }

  // ----- What answers tell

  /** A wrong byte shows in the answer to a later read, once its page has been swapped out. */
  lemma WrongShows(m: Memory, flat: Flat, v: nat, off: nat, addr: int) returns (ops: seq<Op>)
    requires InStep(m, flat) && |m.pages| > |m.frames| && Wrong(m, flat, v, off)
    requires PageOf(addr, m.pageSize) == v && OffsetOf(addr, m.pageSize) == off
    ensures Quiet(ops)
    ensures Step(After(m, ops), Read(addr)).1 != FlatStep(FlatAfter(flat, ops), Read(addr)).1
  {
    ops := SwapOut(m, v);
    RemainsWrong(m, flat, ops, v, off);
    ReloadIsSaved(After(m, ops), v, addr);
  }

  lemma ReloadIsSaved(m: Memory, v: nat, addr: int)
    requires TableOk(m) && v < |m.pages| && m.pages[v].valid && !m.pages[v].present && PageOf(addr, m.pageSize) == v
    ensures Step(m, Read(addr)).1 == Value(Saved(m, v)[OffsetOf(addr, m.pageSize)])
  {
    RoomTable(m);
    RoomKeepsSaved(m, v);
    AccessTable(m, v, false);
  }

  lemma {:induction false} QuietIsClean(m: Memory, ops: seq<Op>)
    requires TableOk(m) && Quiet(ops)
    ensures CleanRun(m, ops)
    decreases |ops|
  {
    if |ops| > 1 {
      StepKeepsTable(m, ops[0]);
      QuietIsClean(Step(m, ops[0]).0, ops[1..]);
    }
  }

  /** No later answer differs from flat memory's, as long as no resident page with a non-blank slice is deleted. */
  ghost predicate Faithful(m: Memory)
    requires TableOk(m)
  {
    forall ops :: CleanRun(m, ops) ==> Answers(m, ops) == FlatAnswers(FlatOf(m), ops)
  }

  /** No later answer to an allocation or a read differs from flat memory's. */
  ghost predicate QuietlyFaithful(m: Memory)
    requires TableOk(m)
  {
    forall ops :: Quiet(ops) ==> Answers(m, ops) == FlatAnswers(FlatOf(m), ops)
  }

  lemma BlocksDiffer(a: seq<byte>, b: seq<byte>) returns (off: nat)
    requires |a| == |b| && a != b
    ensures off < |a| && a[off] != b[off]
  {
    if forall i :: 0 <= i < |a| ==> a[i] == b[i] {
      assert false;
    }
    off :| 0 <= off < |a| && a[off] != b[off];
  }

  lemma IncoherentIsWrong(m: Memory) returns (v: nat, off: nat)
    requires TableOk(m) && !Coherent(m)
    ensures InStep(m, FlatOf(m)) && Wrong(m, FlatOf(m), v, off)
  {
    if w :| 0 <= w < |m.pages| && !m.pages[w].valid && m.disk[w] != Zeros(m.pageSize) {
      v := w;
      off := BlocksDiffer(m.disk[w], Zeros(m.pageSize));
    } else {
      v :| 0 <= v < |m.pages| && m.pages[v].present && !m.pages[v].modified
           && m.frames[m.pages[v].frame] != m.disk[v];
      off := BlocksDiffer(m.frames[m.pages[v].frame], m.disk[v]);
      assert v in View(m) && View(m)[v] == Data(m, v);
    }
  }

  lemma FaithfulIsQuietlyFaithful(m: Memory)
    requires TableOk(m) && Faithful(m)
    ensures QuietlyFaithful(m)
  {
    forall ops | Quiet(ops)
      ensures Answers(m, ops) == FlatAnswers(FlatOf(m), ops)
    {
      QuietIsClean(m, ops);
    }
  }

  lemma GoodIsFaithful(m: Memory)
    requires Good(m)
    ensures Faithful(m)
  {
    forall ops | CleanRun(m, ops)
      ensures Answers(m, ops) == FlatAnswers(FlatOf(m), ops)
    {
      RunRefines(m, ops);
    }
  }

  /** Later answers, be it to allocations and reads only, tell exactly whether every clean resident page equals its disk
      slice and every unallocated page has a blank one. */
  lemma FaithfulIffGood(m: Memory)
    requires TableOk(m) && PowerOfTwo(m.pageSize) && |m.pages| > |m.frames|
    ensures Faithful(m) <==> Good(m)
    ensures QuietlyFaithful(m) <==> Good(m)
  {
    if Good(m) {
      GoodIsFaithful(m);
      FaithfulIsQuietlyFaithful(m);
    } else {
      IncoherentShows(m);
      if Faithful(m) {
        FaithfulIsQuietlyFaithful(m);
      }
    }
  }

  lemma IncoherentShows(m: Memory)
    requires TableOk(m) && !Coherent(m) && PowerOfTwo(m.pageSize) && |m.pages| > |m.frames|
    ensures !QuietlyFaithful(m)
  {
    var v, off := IncoherentIsWrong(m);
    WrongIsUnfaithful(m, v, off);
  }

  lemma WrongIsUnfaithful(m: Memory, v: nat, off: nat)
    requires TableOk(m) && InStep(m, FlatOf(m)) && Wrong(m, FlatOf(m), v, off)
    requires PowerOfTwo(m.pageSize) && |m.pages| > |m.frames|
    ensures !QuietlyFaithful(m)
  {
    CellsOfPage(m.pageSize, v, off);
    var addr := v * m.pageSize + off;
    var ops := WrongShows(m, FlatOf(m), v, off, addr);
    LastDiffers(m, FlatOf(m), ops, Read(addr));
    assert Quiet(ops + [Read(addr)]);
  }

  /** Which call makes later answers wrong: exactly the deletion of a resident page whose disk slice is not blank. */
  lemma StaysFaithfulIff(m: Memory, op: Op)
    requires Good(m) && PowerOfTwo(m.pageSize) && |m.pages| > |m.frames|
    ensures TableOk(Step(m, op).0)
    ensures Faithful(Step(m, op).0) <==> CleanDelete(m, op)
    ensures QuietlyFaithful(Step(m, op).0) <==> CleanDelete(m, op)
  {
    StepRefines(m, op);
    StepKeepsTable(m, op);
    StepKeepsFrames(m, op);
    FaithfulIffGood(Step(m, op).0);
  }

  // ----- Which memories stay faithful whatever is done

  lemma AfterSplitStep(m: Memory, op: Op, rest: seq<Op>, a: seq<Op>, b: seq<Op>)
    requires TableOk(m) && After(After(m, [op]), rest + b) == After(After(After(m, [op]), rest), b)
    requires a == [op] + rest && a + b == [op] + (rest + b)
    ensures After(m, a + b) == After(After(m, a), b)
  {
    FirstOp(m, op, rest + b);
    FirstOp(m, op, rest);
  }

  lemma {:induction false} AfterSplit(m: Memory, a: seq<Op>, b: seq<Op>)
    requires TableOk(m)
    ensures After(m, a + b) == After(After(m, a), b)
    decreases |a|
  {
    if a == [] {
      assert a + b == b;
    } else {
      var op, rest := a[0], a[1..];
      assert a == [op] + rest && a + b == [op] + (rest + b);
      AfterSplit(After(m, [op]), rest, b);
      AfterSplitStep(m, op, rest, a, b);
    }
  }

  lemma FlatAfterLast(flat: Flat, ops: seq<Op>, op: Op)
    requires WellFormed(flat)
    ensures FlatAfter(flat, ops + [op]) == FlatStep(FlatAfter(flat, ops), op).0
  {
    assert (ops + [op])[..|ops|] == ops;
  }

  lemma {:induction false} FlatAfterSplit(flat: Flat, a: seq<Op>, b: seq<Op>)
    requires WellFormed(flat)
    ensures FlatAfter(flat, a + b) == FlatAfter(FlatAfter(flat, a), b)
  {
    if b == [] {
      assert a + b == a;
    } else {
      var most, last := b[..|b| - 1], b[|b| - 1];
      assert b == most + [last] && a + b == a + most + [last];
      FlatAfterSplit(flat, a, most);
      FlatAfterLast(flat, a + most, last);
      FlatAfterLast(FlatAfter(flat, a), most, last);
    }
  }

  lemma {:induction false} RunsInStep(m: Memory, flat: Flat, ops: seq<Op>)
    requires InStep(m, flat)
    ensures InStep(After(m, ops), FlatAfter(flat, ops))
    decreases |ops|
  {
    if ops != [] {
      StaysInStep(m, flat, ops[0]);
      RunsInStep(Step(m, ops[0]).0, FlatStep(flat, ops[0]).0, ops[1..]);
      FlatAfterFirst(flat, ops);
    }
  }

  lemma {:induction false} QuietRunKeepsSaved(m: Memory, ops: seq<Op>, v: nat)
    requires TableOk(m) && Quiet(ops) && v < |m.pages|
    ensures Saved(After(m, ops), v) == Saved(m, v)
    decreases |ops|
  {
    if ops != [] {
      QuietKeepsSaved(m, ops[0], v);
      QuietRunKeepsSaved(Step(m, ops[0]).0, ops[1..], v);
    }
  }

  lemma {:induction false} MaskOfZero(mask: nat)
    ensures BitAnd(0, mask) == 0
    decreases mask
  {
    if mask > 0 {
      MaskOfZero(mask / 2);
    }
  }

  lemma FirstCell(pageSize: nat)
    requires pageSize >= 1
    ensures PageOf(0, pageSize) == 0 && OffsetOf(0, pageSize) == 0
  {
    MaskOfZero(pageSize - 1);
    SmallQuotient(0, pageSize);
  }

  /** Writing to page 0 and swapping it out puts the byte on the disk. */
  lemma PutOnDisk(m: Memory) returns (ops: seq<Op>)
    requires TableOk(m) && |m.pages| > |m.frames| && m.pages[0].valid
    ensures After(m, ops).pages[0].valid && !After(m, ops).pages[0].present && After(m, ops).disk[0][0] == 7
  {
    FirstCell(m.pageSize);
    var op := Write(0, 7);
    AccessTable(m, 0, true);
    StepKeepsTable(m, op);
    StepKeepsFrames(m, op);
    var w := Step(m, op).0;
    assert Saved(w, 0)[0] == 7;
    var out := SwapOut(w, 0);
    QuietRunKeepsSaved(w, out, 0);
    ops := [op] + out;
    assert ops[1..] == out;
  }

  /** Reading page 0 back in and deleting it leaves the byte there. */
  lemma DeleteResident(m: Memory) returns (ops: seq<Op>)
    requires TableOk(m) && |m.pages| > |m.frames| && m.pages[0].valid && !m.pages[0].present && m.disk[0][0] == 7
    ensures var m' := After(m, ops); !m'.pages[0].valid && m'.disk[0][0] == 7
  {
    FirstCell(m.pageSize);
    ReadKeepsDisk(m);
    var r := Access(m, 0, false);
    assert Step(m, Read(0)).0 == r;
    assert Step(r, Delete(0)).0 == Drop(r, 0);
    ops := [Read(0), Delete(0)];
    TwoSteps(m, Read(0), Delete(0));
  }

  lemma TwoSteps(m: Memory, first: Op, second: Op)
    requires TableOk(m)
    ensures TableOk(Step(m, first).0) && After(m, [first, second]) == Step(Step(m, first).0, second).0
  {
    StepKeepsTable(m, first);
    StepKeepsTable(Step(m, first).0, second);
    assert [first, second][1..] == [second] && [second][1..] == [];
    assert After(Step(m, first).0, [second]) == Step(Step(m, first).0, second).0;
  }

  lemma ReadKeepsDisk(m: Memory)
    requires TableOk(m) && |m.pages| > 0 && m.pages[0].valid && !m.pages[0].present
    ensures TableOk(Access(m, 0, false)) && |Access(m, 0, false).pages| == |m.pages|
    ensures Access(m, 0, false).disk[0] == m.disk[0]
    ensures Access(m, 0, false).pages[0].valid && Access(m, 0, false).pages[0].present
    ensures Access(m, 0, false).pageSize == m.pageSize
  {
    AccessTable(m, 0, false);
    if FirstFree(m.free, 0) == |m.free| {
      FullHasPresent(m);
      assert Victim(m.pages, m.clock) != 0;
    }
  }

  /** Page 0 deleted while resident, its byte still on the disk. */
  lemma LeaveStaleByte(m: Memory) returns (ops: seq<Op>)
    requires TableOk(m) && |m.pages| > |m.frames| && m.pages[0].valid
    ensures var m' := After(m, ops); !m'.pages[0].valid && m'.disk[0][0] == 7
  {
    var written := PutOnDisk(m);
    var deleted := DeleteResident(After(m, written));
    AfterSplit(m, written, deleted);
    ops := written + deleted;
  }

  lemma StaleByteShows(m: Memory, flat: Flat, before: seq<Op>) returns (ops: seq<Op>)
    requires InStep(m, flat) && |m.pages| > |m.frames|
    requires var m' := After(m, before); !m'.pages[0].valid && m'.disk[0][0] == 7
    ensures Answers(m, ops) != FlatAnswers(flat, ops)
  {
    FirstCell(m.pageSize);
    RunsInStep(m, flat, before);
    var d, f := After(m, before), FlatAfter(flat, before);
    assert Wrong(d, f, 0, 0);
    var shown := WrongShows(d, f, 0, 0, 0);
    AfterSplit(m, before, shown);
    FlatAfterSplit(flat, before, shown);
    ops := before + shown + [Read(0)];
    LastDiffers(m, flat, before + shown, Read(0));
  }

  lemma LastDiffers(m: Memory, flat: Flat, ops: seq<Op>, op: Op)
    requires TableOk(m) && WellFormed(flat)
    requires Step(After(m, ops), op).1 != FlatStep(FlatAfter(flat, ops), op).1
    ensures Answers(m, ops + [op]) != FlatAnswers(flat, ops + [op])
  {
    var n := |ops|;
    assert (ops + [op])[..n] == ops;
    AnswerAt(m, ops + [op], n);
    FlatAnswerAt(flat, ops + [op], n);
  }

  /** With more pages than frames some run reads back a byte of a deleted page. */
  lemma SomeRunIsWrong(pageSize: nat, pageCount: nat, frameCount: nat) returns (ops: seq<Op>)
    requires pageSize >= 1 && pageCount > frameCount >= 1
    ensures var m := Initial(pageSize, pageCount, frameCount);
            TableOk(m) && Answers(m, ops) != FlatAnswers(FlatOf(m), ops)
  {
    var m := Initial(pageSize, pageCount, frameCount);
    InitialIsGood(pageSize, pageCount, frameCount);
    StepKeepsTable(m, Allocate);
    StepKeepsFrames(m, Allocate);
    var rest := LeaveStaleByte(Step(m, Allocate).0);
    var before := [Allocate] + rest;
    assert before[1..] == rest;
    assert InStep(m, FlatOf(m));
    ops := StaleByteShows(m, FlatOf(m), before);
  }

  /** Nothing has ever been swapped out, and nothing will be. */
  ghost predicate Roomy(m: Memory)
  {
    && Good(m) && |m.pages| <= |m.frames|
    && (forall v :: 0 <= v < |m.pages| && m.pages[v].valid ==> m.pages[v].present)
    && (forall v :: 0 <= v < |m.pages| ==> m.disk[v] == Zeros(m.pageSize))
  }

  lemma RoomyHasRoom(m: Memory, v: nat)
    requires Roomy(m) && v < |m.pages| && !m.pages[v].valid
    ensures FirstFree(m.free, 0) < |m.free|
  {
    if FirstFree(m.free, 0) == |m.free| {
      var n := |m.pages|;
      var home := Homes(m.pages);
      var others := Range(n) - {v as int};
      forall f | f in Range(|m.frames|)
        ensures f in Image(home, others)
      {
        InUseElsewhere(m, v, f);
      }
      ImageSize(home, others);
      RangeSize(n);
      RangeSize(|m.frames|);
      SubsetSize(Range(|m.frames|), Image(home, others));
      assert false;
    }
  }

  lemma InUseElsewhere(m: Memory, v: nat, f: int)
    requires TableOk(m) && v < |m.pages| && !m.pages[v].valid && 0 <= f < |m.free| && !m.free[f]
    ensures f in Image(Homes(m.pages), Range(|m.pages|) - {v as int})
  {
    assert Occupied(m, f);
    var u :| 0 <= u < |m.pages| && m.pages[u].present && m.pages[u].frame == f;
    assert u in Range(|m.pages|) - {v as int} && Homes(m.pages)[u] == f;
  }

  lemma RoomyAllocates(m: Memory)
    requires Roomy(m) && Good(AllocateStep(m).0)
    ensures Roomy(AllocateStep(m).0)
  {
    if FirstInvalid(m.pages, 0) < |m.pages| {
      RoomyHasRoom(m, FirstInvalid(m.pages, 0));
    }
  }

  lemma RoomyAccesses(m: Memory, op: Op)
    requires Roomy(m) && (op.Read? || op.Write?) && Good(Step(m, op).0)
    ensures Roomy(Step(m, op).0)
  {
  }

  lemma RoomyDeletes(m: Memory, addr: int)
    requires Roomy(m) && Good(DeleteStep(m, addr).0)
    ensures Roomy(DeleteStep(m, addr).0)
  {
  }

  lemma RoomyStaysRoomy(m: Memory, op: Op)
    requires Roomy(m)
    ensures CleanDelete(m, op) && TableOk(Step(m, op).0) && Roomy(Step(m, op).0)
  {
    StepRefines(m, op);
    if op.Allocate? {
      RoomyAllocates(m);
    } else if op.Delete? {
      RoomyDeletes(m, op.addr);
    } else {
      RoomyAccesses(m, op);
    }
  }

  lemma {:induction false} RoomyIsFaithful(m: Memory, ops: seq<Op>)
    requires Roomy(m)
    ensures Answers(m, ops) == FlatAnswers(FlatOf(m), ops)
    decreases |ops|
  {
    if ops != [] {
      RoomyStaysRoomy(m, ops[0]);
      StepRefines(m, ops[0]);
      RoomyIsFaithful(Step(m, ops[0]).0, ops[1..]);
    }
  }

  /** A new memory answers every run of operations as flat memory does exactly when it has a frame for every page. */
  lemma AlwaysFaithfulIff(pageSize: nat, pageCount: nat, frameCount: nat)
    requires pageSize >= 1 && frameCount >= 1
    ensures var m := Initial(pageSize, pageCount, frameCount);
            TableOk(m) && ((forall ops :: Answers(m, ops) == FlatAnswers(FlatOf(m), ops)) <==> pageCount <= frameCount)
  {
    var m := Initial(pageSize, pageCount, frameCount);
    InitialIsGood(pageSize, pageCount, frameCount);
    if pageCount <= frameCount {
      forall ops
        ensures Answers(m, ops) == FlatAnswers(FlatOf(m), ops)
      {
        RoomyIsFaithful(m, ops);
      }
    } else {
      var ops := SomeRunIsWrong(pageSize, pageCount, frameCount);
    }
  }
}
