/**
 * The allocation path of the simulator's command layer (src/main.cpp) as it runs on the MMU
 * and page-table objects: `allocateVariable`, proved against the scan of module Allocator,
 * and `createProcess`, which sets up a new process with its text, globals and stack records.
 */
module Simulator {
  import opened Machine
  import opened MmuModel
  import opened PageTableModel
  import opened Allocator

  /** src/main.cpp:275-278: step one byte at a time until the page number changes. */
  method AdvanceToNextPage(address: uint32, size: uint32, pageNumber: int32, pt: PageTable)
    returns (nextAddress: uint32, nextSize: uint32)
    requires pageNumber == pt.GetPageNumber(address)
    ensures (nextAddress, nextSize) == SkipPage(address, size, pt.pageSize)
  {
    var ps := pt.pageSize;
    var stop := PageStop(address, ps);
    nextAddress, nextSize := address, size;
    ghost var t := 0;
    while pt.GetPageNumber(nextAddress) == pageNumber
      invariant 0 <= t <= stop - address
      invariant nextAddress == WrapU32(address + t) && nextSize == WrapU32(size - t)
      decreases stop - address - t
    {
      PageChangesAtStop(address, ps);
      WrapU32Add(address + t, 1);
      WrapU32Add(size - t, -1);
      nextAddress := WrapU32(nextAddress + 1);
      nextSize := WrapU32(nextSize - 1);
      t := t + 1;
    }
    if t < stop - address {
      SamePageBeforeStop(address, ps, address + t);
    }
    assert t == stop - address;
    assert SkipPage(address, size, ps) == (WrapU32(stop), WrapU32(size - (stop - address)));
  }

  /** Every address from `address` up to the page stop lies on the same page. */
  lemma SamePageBeforeStop(address: uint32, ps: PageSize, b: int)
    requires address <= b < PageStop(address, ps)
    ensures 0 <= b < TWO32 && PageNumberOf(b, ps) == PageNumberOf(address, ps)
  {
    var q := address / ps;
    QuotientBounds(address, ps);
    assert b < (q + 1) * ps;
    DivModOfMultiple(q, ps, b - q * ps);
    assert b / ps == q;
  }

  /** At the page stop (wrapped to 32 bits) the page number differs. */
  lemma PageChangesAtStop(address: uint32, ps: PageSize)
    ensures PageNumberOf(WrapU32(PageStop(address, ps)), ps) != PageNumberOf(address, ps)
  {
    var q := address / ps;
    QuotientBounds(address, ps);
    var end := (q + 1) * ps;
    if end < TWO32 {
      DivModOfMultiple(q + 1, ps, 0);
      MulAwayFromZero(q + 1, ps);
      WrapI32InjectiveOnU32(q, q + 1);
    } else {
      assert q >= 1 by {
        MulAtMostOne(q + 1, ps);
      }
      WrapI32InjectiveOnU32(q, 0);
    }
  }

  lemma MulAtMostOne(x: int, b: PageSize)
    ensures 0 <= x <= 1 ==> x * b < TWO31
  {
  }

  /** The split at src/main.cpp:246-248: write the shrunk free record, then append the new variable. */
  method SplitFreeRecord(mmu: Mmu, pid: uint32, name: string, kind: DataType, size: uint32, ghost ps: PageSize,
                         i: nat, r: Variable, address: uint32, freeSize: uint32)
    requires freeSize >= size
    requires FirstIndex(mmu.processes, pid) >= 0 && i < |mmu.processes[FirstIndex(mmu.processes, pid)].variables|
    modifies mmu
    ensures mmu.processes == PlaceProcs(old(mmu.processes), Request(pid, name, kind, size, ps), i, r, address, freeSize)
    ensures mmu.nextPid == old(mmu.nextPid) && mmu.maxSize == old(mmu.maxSize)
  {
    var shrunk := r.(address := WrapU32(address + size), size := freeSize - size);
    mmu.processes := WriteRecord(mmu.processes, pid, i, shrunk);
    assert shrunk == ShrunkRecord(Request(pid, name, kind, size, ps), r, address, freeSize);
    mmu.AddVariableToProcess(pid, name, kind, size, address);
  }

  /**
   * One pass of the loop body at src/main.cpp:235-300 over record `i` of the copy:
   * `done` when the body breaks out of the loop or enters the loop whose guard never changes.
   */
  method VisitRecord(pid: uint32, name: string, kind: DataType, size: uint32, variables: seq<Variable>, i: nat,
                     mmu: Mmu, pt: PageTable, ghost st: AllocState)
    returns (done: bool, outcome: Outcome)
    requires kind != FreeSpace && i < |variables|
    requires st == AllocState(mmu.processes, pt.table) && Snapshot(st.procs, pid, variables)
    modifies mmu, pt
    ensures Visit(Request(pid, name, kind, size, pt.pageSize), variables, st, i) ==
      if done then Done(outcome, AllocState(mmu.processes, pt.table)) else Next(AllocState(mmu.processes, pt.table))
    ensures !done ==> outcome == Exhausted
    ensures mmu.nextPid == old(mmu.nextPid) && mmu.maxSize == old(mmu.maxSize)
  {
    ghost var rq := Request(pid, name, kind, size, pt.pageSize);
    var r := variables[i];
    assert mmu.processes[FirstIndex(mmu.processes, pid)].variables[i] == r;
    if r.name == FREE_SPACE_NAME {
      var address := r.address;
      var freeSize := r.size;
      var pageNumber := pt.GetPageNumber(address);
      if freeSize >= size {
        var spaceLeft := mmu.GetFreeSpaceLeftOnPage(pid, pageNumber, pt.GetPageSize(), address);
        assert spaceLeft == Room(rq, st, r);
        var elementSize := ElementSize(kind);
        if spaceLeft >= size || (spaceLeft >= elementSize && spaceLeft % elementSize == 0) {
          // With room for a whole number of elements the loop at lines 255-258 does not
          // run, so lines 260-268 split at the same address as lines 246-248.
          SplitFreeRecord(mmu, pid, name, kind, size, pt.pageSize, i, r, address, freeSize);
          assert FitsAtStart(rq, st, r);
          return true, Placed(address, i);
        } else if spaceLeft >= elementSize {
          // Lines 255-258 loop on a guard they never change.
          return true, Diverges;
        }
        address, freeSize := AdvanceToNextPage(address, freeSize, pageNumber, pt);
        ghost var skipped := SkipPage(r.address, r.size, rq.pageSize);
        assert !FitsAtStart(rq, st, r) && Room(rq, st, r) < ElementSize(kind) && (address, freeSize) == skipped;
        if freeSize >= size {
          SplitFreeRecord(mmu, pid, name, kind, size, pt.pageSize, i, r, address, freeSize);
          return true, Placed(address, i);
        }
        mmu.AddVariableToProcess(pid, name, kind, size, address);
      }
      pt.AddEntry(pid, pageNumber);
    }
    mmu.AddVariableToProcess(pid, name, kind, size, r.address);
    return false, Exhausted;
  }

  /** One iteration of the loop at src/main.cpp:234-301, as a step of the scan `AllocLoop`. */
  method ScanStep(pid: uint32, name: string, kind: DataType, size: uint32, variables: seq<Variable>, i: nat,
                  mmu: Mmu, pt: PageTable)
    returns (done: bool, outcome: Outcome)
    requires kind != FreeSpace && i < |variables|
    requires Snapshot(mmu.processes, pid, variables)
    modifies mmu, pt
    ensures done ==>
      AllocLoop(Request(pid, name, kind, size, pt.pageSize), variables, AllocState(old(mmu.processes), old(pt.table)), i) ==
      Allocation(outcome, AllocState(mmu.processes, pt.table))
    ensures !done ==>
      outcome == Exhausted && Snapshot(mmu.processes, pid, variables) &&
      AllocLoop(Request(pid, name, kind, size, pt.pageSize), variables, AllocState(old(mmu.processes), old(pt.table)), i) ==
      AllocLoop(Request(pid, name, kind, size, pt.pageSize), variables, AllocState(mmu.processes, pt.table), i + 1)
    ensures mmu.nextPid == old(mmu.nextPid) && mmu.maxSize == old(mmu.maxSize)
  {
    ghost var rq := Request(pid, name, kind, size, pt.pageSize);
    ghost var st := AllocState(mmu.processes, pt.table);
    AllocLoopUnfold(rq, variables, st, i);
    done, outcome := VisitRecord(pid, name, kind, size, variables, i, mmu, pt, st);
  }

  /**
   * src/main.cpp:203-312. The copy of the record list (line 212) is `variables`; reading
   * `variables[i]` reads the MMU's record, which the scan has not written yet.
   */
  method AllocateVariable(pid: uint32, name: string, kind: DataType, numElements: uint32, mmu: Mmu, pt: PageTable)
    returns (outcome: Outcome, echoed: Option<uint32>)
    requires kind != FreeSpace
    modifies mmu, pt
    ensures Allocation(outcome, AllocState(mmu.processes, pt.table)) ==
      Allocate(old(mmu.processes), old(pt.table), pid, name, kind, numElements, pt.pageSize)
    ensures echoed == Echo(name, outcome)
    ensures mmu.nextPid == old(mmu.nextPid) && mmu.maxSize == old(mmu.maxSize)
  {
    var variables := mmu.GetVariables(pid);
    var size := RequestSize(kind, numElements);
    ghost var rq := Request(pid, name, kind, size, pt.pageSize);
    ghost var k := FirstIndex(mmu.processes, pid);
    assert k >= 0 ==> mmu.processes[k].variables[..|variables|] == variables;
    ghost var goal := AllocLoop(rq, variables, AllocState(mmu.processes, pt.table), 0);
    var i := 0;
    while i < |variables|
      invariant 0 <= i <= |variables|
      invariant Snapshot(mmu.processes, pid, variables)
      invariant AllocLoop(rq, variables, AllocState(mmu.processes, pt.table), i) == goal
      invariant mmu.nextPid == old(mmu.nextPid) && mmu.maxSize == old(mmu.maxSize)
    {
      var done;
      done, outcome := ScanStep(pid, name, kind, size, variables, i, mmu, pt);
      if done {
        echoed := Echo(name, outcome);
        return;
      }
      i := i + 1;
    }
    outcome := Exhausted;
    echoed := Echo(name, outcome);
  }

  /**
   * src/main.cpp:188-200: create the process, then allocate its segments. `outcome` is the
   * stack allocation's, or `Diverges` when an allocation enters the loop whose guard never changes.
   */
  method CreateProcess(textSize: int32, dataSize: int32, mmu: Mmu, pt: PageTable) returns (pid: uint32, outcome: Outcome)
    modifies mmu, pt
    ensures pid == old(mmu.nextPid) && mmu.nextPid == WrapU32(old(mmu.nextPid) + 1) && mmu.maxSize == old(mmu.maxSize)
    ensures Allocation(outcome, AllocState(mmu.processes, pt.table)) ==
      SetUpSegments(old(mmu.processes) + [Process(pid, InitialRecords(old(mmu.maxSize)))], old(pt.table), pid,
                    textSize, dataSize, pt.pageSize)
  {
    pid := mmu.CreateProcess();
    var echoed;
    outcome, echoed := AllocateVariable(pid, TEXT_NAME, Char, WrapU32(textSize), mmu, pt);
    if outcome.Diverges? {
      return;
    }
    outcome, echoed := AllocateVariable(pid, GLOBALS_NAME, Char, WrapU32(dataSize), mmu, pt);
    if outcome.Diverges? {
      return;
    }
    outcome, echoed := AllocateVariable(pid, STACK_NAME, Char, STACK_SIZE, mmu, pt);
  }
}
