/** The exact condition for faithful answers at any page size: where two addresses share a cell,
    some bytes have no address, and only the others count. */
module NamedBytes {
  import opened VirtualMemory
  import opened VirtualAddresses
  import opened FaithfulMemory

  /** Some address names this byte of page `v`. */
  ghost predicate Named(pageSize: nat, v: nat, off: nat)
    requires pageSize >= 1
  {
    exists addr :: PageOf(addr, pageSize) == v && OffsetOf(addr, pageSize) == off
  }

  /** With a power of two every byte is named. */
  lemma AllNamed(pageSize: nat, v: nat, off: nat)
    requires PowerOfTwo(pageSize) && off < pageSize
    ensures Named(pageSize, v, off)
  {
    CellsOfPage(pageSize, v, off);
  }

  /** This byte of a clean resident page equals its disk slice's, and that of an unallocated page's slice is blank. */
  ghost predicate CoherentAt(m: Memory, v: nat, off: nat)
    requires TableOk(m) && v < |m.pages| && off < m.pageSize
  {
    && (m.pages[v].present && !m.pages[v].modified ==> m.frames[m.pages[v].frame][off] == m.disk[v][off])
    && (!m.pages[v].valid ==> m.disk[v][off] == 0)
  }

  ghost predicate CoherentWhereNamed(m: Memory)
    requires TableOk(m)
  {
    forall v: nat, off: nat ::
      v < |m.pages| && off < m.pageSize && Named(m.pageSize, v, off) ==> CoherentAt(m, v, off)
  }

  lemma CoherentIsNotWrong(m: Memory, v: nat, off: nat)
    requires TableOk(m) && v < |m.pages| && off < m.pageSize
    ensures InStep(m, FlatOf(m)) && (Wrong(m, FlatOf(m), v, off) <==> !CoherentAt(m, v, off))
  {
    if m.pages[v].valid {
      assert v as int in View(m) && View(m)[v as int] == Data(m, v);
    }
  }

  // ----- What a page holds through allocations and reads

  /** A page keeps what it holds, or holds what it would after an eviction and a reload. */
  ghost predicate KeptOrSaved(m: Memory, m': Memory, v: nat)
    requires TableOk(m) && TableOk(m') && v < |m.pages| == |m'.pages|
  {
    Data(m', v) == Data(m, v) || Data(m', v) == Saved(m, v)
  }

  lemma RoomKeepsOrSaves(m: Memory, v: nat)
    requires TableOk(m) && v < |m.pages|
    ensures TableOk(MakeRoom(m)) && |MakeRoom(m).pages| == |m.pages|
    ensures KeptOrSaved(m, MakeRoom(m), v)
  {
    RoomTable(m);
    if FirstFree(m.free, 0) == |m.free| {
      FullHasPresent(m);
      EvictIsEviction(m);
      var w := Victim(m.pages, m.clock);
      assert v != w ==> SameButReferenced(m.pages[v], Evict(m).pages[v]);
    }
  }

  lemma LoadKeepsData(m: Memory, u: nat, f: nat, v: nat)
    requires TableOk(m) && u < |m.pages| && m.pages[u].valid && !m.pages[u].present && f < |m.free| && m.free[f]
    requires v < |m.pages|
    ensures TableOk(LoadPage(m, u, f)) && Data(LoadPage(m, u, f), v) == Data(m, v)
  {
    LoadTable(m, u, f);
  }

  lemma ReadKeepsOrSaves(m: Memory, u: nat, v: nat)
    requires TableOk(m) && u < |m.pages| && m.pages[u].valid && v < |m.pages|
    ensures TableOk(Access(m, u, false)) && |Access(m, u, false).pages| == |m.pages|
    ensures KeptOrSaved(m, Access(m, u, false), v)
  {
    AccessTable(m, u, false);
    if !m.pages[u].present {
      RoomTable(m);
      RoomKeepsOrSaves(m, v);
      LoadKeepsData(MakeRoom(m), u, RoomFrame(m), v);
      TouchTable(Fault(m, u), u, false);
      assert Data(Touch(Fault(m, u), u, false), v) == Data(Fault(m, u), v);
    }
  }

  lemma PlaceKeepsData(m: Memory, u: nat, f: nat, v: nat)
    requires TableOk(m) && u < |m.pages| && !m.pages[u].valid && f < |m.free| && m.free[f] && v < |m.pages|
    ensures TableOk(Place(m, u, f))
    ensures Data(Place(m, u, f), v) == if v == u then Zeros(m.pageSize) else Data(m, v)
  {
    PlaceTable(m, u, f);
  }

  lemma AllocateKeepsOrSaves(m: Memory, v: nat)
    requires TableOk(m) && v < |m.pages|
    ensures var m' := AllocateStep(m).0;
            && TableOk(m') && |m'.pages| == |m.pages|
            && if v == FirstInvalid(m.pages, 0) then Data(m', v) == Zeros(m.pageSize) else KeptOrSaved(m, m', v)
  {
    var u := FirstInvalid(m.pages, 0);
    AllocateKeepsTable(m);
    if u < |m.pages| {
      RoomTable(m);
      RoomKeepsOrSaves(m, v);
      PlaceKeepsData(MakeRoom(m), u, RoomFrame(m), v);
    }
  }

  // ----- In step with a flat memory where it can be seen

  /** The byte is what flat memory holds, now and after any eviction and reload. */
  ghost predicate Right(m: Memory, flat: Flat, v: nat, off: nat)
    requires InStep(m, flat) && v < |m.pages| && off < m.pageSize
  {
    !Wrong(m, flat, v, off) && (m.pages[v].valid ==> Data(m, v)[off] == FlatByte(flat, v, off))
  }

  ghost predicate RightWhereNamed(m: Memory, flat: Flat)
  {
    && InStep(m, flat)
    && forall v: nat, off: nat ::
         v < |m.pages| && off < m.pageSize && Named(m.pageSize, v, off) ==> Right(m, flat, v, off)
  }

  lemma StaysRight(m: Memory, flat: Flat, op: Op, v: nat, off: nat)
    requires InStep(m, flat) && v < |m.pages| && off < m.pageSize && Right(m, flat, v, off)
    requires op.Allocate? || op.Read?
    ensures var m', flat' := Step(m, op).0, FlatStep(flat, op).0;
            InStep(m', flat') && v < |m'.pages| && off < m'.pageSize && Right(m', flat', v, off)
  {
    StaysInStep(m, flat, op);
    QuietKeepsSaved(m, op, v);
    QuietKeepsFlatByte(flat, op, v, off);
    if op.Allocate? {
      SameFirstInStep(m, flat, 0);
      AllocateKeepsOrSaves(m, v);
      AllocatedPages(m, v);
    } else if AddressError(m, op.addr).Done? {
      ReadKeepsOrSaves(m, PageOf(op.addr, m.pageSize), v);
      AccessKeepsValid(m, PageOf(op.addr, m.pageSize), false);
    }
  }

  lemma AllStaysRight(m: Memory, flat: Flat, op: Op)
    requires RightWhereNamed(m, flat) && (op.Allocate? || op.Read?)
    ensures TableOk(Step(m, op).0) && RightWhereNamed(Step(m, op).0, FlatStep(flat, op).0)
  {
    StaysInStep(m, flat, op);
    StepKeepsTable(m, op);
    var m', flat' := Step(m, op).0, FlatStep(flat, op).0;
    forall v: nat, off: nat | v < |m'.pages| && off < m'.pageSize && Named(m'.pageSize, v, off)
      ensures Right(m', flat', v, off)
    {
      StaysRight(m, flat, op, v, off);
    }
  }

  lemma RightAnswer(m: Memory, flat: Flat, op: Op)
    requires RightWhereNamed(m, flat) && (op.Allocate? || op.Read?)
    ensures Step(m, op).1 == FlatStep(flat, op).1
  {
    if op.Allocate? {
      SameFirstInStep(m, flat, 0);
    } else if AddressError(m, op.addr).Done? {
      RightByte(m, flat, op.addr);
    }
  }

  lemma RightByte(m: Memory, flat: Flat, addr: int)
    requires RightWhereNamed(m, flat) && AddressError(m, addr).Done?
    ensures ReadStep(m, addr).1 == FlatStep(flat, Read(addr)).1
  {
    var v, off := PageOf(addr, m.pageSize), OffsetOf(addr, m.pageSize);
    assert Named(m.pageSize, v, off);
    assert Right(m, flat, v, off);
    AccessTable(m, v, false);
    ReadKeepsOrSaves(m, v, v);
    assert ReadStep(m, addr).1 == Value(Data(Access(m, v, false), v)[off]);
  }

  lemma {:induction false} RightAnswers(m: Memory, flat: Flat, ops: seq<Op>)
    requires RightWhereNamed(m, flat) && Quiet(ops)
    ensures Answers(m, ops) == FlatAnswers(flat, ops)
    decreases |ops|
  {
    if ops != [] {
      AnswersFirst(m, ops);
      RightAnswer(m, flat, ops[0]);
      AllStaysRight(m, flat, ops[0]);
      RightAnswers(Step(m, ops[0]).0, FlatStep(flat, ops[0]).0, ops[1..]);
    }
  }

  // ----- Exactly when

  lemma CoherentIsRight(m: Memory)
    requires TableOk(m) && CoherentWhereNamed(m)
    ensures RightWhereNamed(m, FlatOf(m))
  {
    assert InStep(m, FlatOf(m));
    forall v: nat, off: nat | v < |m.pages| && off < m.pageSize && Named(m.pageSize, v, off)
      ensures Right(m, FlatOf(m), v, off)
    {
      CoherentIsNotWrong(m, v, off);
      if m.pages[v].valid {
        assert v as int in View(m) && View(m)[v as int] == Data(m, v);
      }
    }
  }

  lemma NamedWrongShows(m: Memory, v: nat, off: nat)
    requires TableOk(m) && |m.pages| > |m.frames| && v < |m.pages| && off < m.pageSize
    requires Named(m.pageSize, v, off) && !CoherentAt(m, v, off)
    ensures !QuietlyFaithful(m)
  {
    CoherentIsNotWrong(m, v, off);
    var addr :| PageOf(addr, m.pageSize) == v && OffsetOf(addr, m.pageSize) == off;
    var ops := WrongShows(m, FlatOf(m), v, off, addr);
    LastDiffers(m, FlatOf(m), ops, Read(addr));
    assert Quiet(ops + [Read(addr)]);
  }

  /** For every page size, with more pages than frames: all later answers to allocations and reads are flat memory's
      exactly when every byte that has an address is coherent. */
  lemma FaithfulIffCoherentWhereNamed(m: Memory)
    requires TableOk(m) && |m.pages| > |m.frames|
    ensures QuietlyFaithful(m) <==> CoherentWhereNamed(m)
  {
    if CoherentWhereNamed(m) {
      CoherentIsRight(m);
      forall ops | Quiet(ops)
        ensures Answers(m, ops) == FlatAnswers(FlatOf(m), ops)
      {
        RightAnswers(m, FlatOf(m), ops);
      }
    } else {
      var v: nat, off: nat :|
        v < |m.pages| && off < m.pageSize && Named(m.pageSize, v, off) && !CoherentAt(m, v, off);
      NamedWrongShows(m, v, off);
    }
  }

  /** The operation is not a delete of a resident page whose disk slice has a byte other than 0 at some address. */
  ghost predicate CleanWhereNamed(m: Memory, op: Op)
    requires TableOk(m)
  {
    op.Delete? ==>
      var v := PageOf(op.addr, m.pageSize);
      0 <= v < |m.pages| && m.pages[v].valid && m.pages[v].present ==>
        forall off: nat :: off < m.pageSize && Named(m.pageSize, v, off) ==> m.disk[v][off] == 0
  }

  lemma GoodIsCoherentWhereNamed(m: Memory)
    requires Good(m)
    ensures CoherentWhereNamed(m)
  {
  }

  lemma DropCoherentIff(m: Memory, v: nat)
    requires Good(m) && v < |m.pages| && m.pages[v].valid && m.pages[v].present
    ensures TableOk(Drop(m, v))
    ensures CoherentWhereNamed(Drop(m, v)) <==>
              forall off: nat :: off < m.pageSize && Named(m.pageSize, v, off) ==> m.disk[v][off] == 0
  {
    var m' := Drop(m, v);
    DropTable(m, v);
    forall u: nat, off: nat | u < |m.pages| && off < m.pageSize
      ensures CoherentAt(m', u, off) <==> u == v ==> m.disk[v][off] == 0
    {
      if u != v {
        DropOthers(m, v, u);
      }
    }
  }

  /** For every page size: an operation on a good state leaves all later answers to allocations and reads right exactly
      when it is clean where bytes have addresses. */
  lemma StaysQuietlyFaithfulIff(m: Memory, op: Op)
    requires Good(m) && |m.pages| > |m.frames|
    ensures TableOk(Step(m, op).0)
    ensures QuietlyFaithful(Step(m, op).0) <==> CleanWhereNamed(m, op)
  {
    StepRefines(m, op);
    StepKeepsTable(m, op);
    StepKeepsFrames(m, op);
    FaithfulIffCoherentWhereNamed(Step(m, op).0);
    if CleanDelete(m, op) {
      GoodIsCoherentWhereNamed(Step(m, op).0);
    } else {
      DropCoherentIff(m, PageOf(op.addr, m.pageSize));
    }
  }
}
