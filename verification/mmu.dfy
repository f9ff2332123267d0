/**
 * The per-process bookkeeping of the memory simulator (src/mmu.cpp, include/mmu.h):
 * a pid counter, a fixed per-process size and an ordered list of processes, each
 * owning an ordered list of variable records.
 */
module MmuModel {
  import opened Machine

  /** include/mmu.h:8 */
  datatype DataType = FreeSpace | Char | Short | Int | Float | Long | Double

  /** The name that marks a record as a free gap. */
  const FREE_SPACE_NAME: string := "<FREE_SPACE>"

  /** The first pid the counter hands out. */
  const FIRST_PID: uint32 := 1024

  /** include/mmu.h:10-15; `virtual_address` is `address` here. */
  datatype Variable = Variable(name: string, kind: DataType, address: uint32, size: uint32)

  /** include/mmu.h:17-20 */
  datatype Process = Process(pid: uint32, variables: seq<Variable>)

  predicate HasPid(procs: seq<Process>, pid: uint32) {
    exists i | 0 <= i < |procs| :: procs[i].pid == pid
  }

  /** Index of the first process with `pid`, or -1. */
  function FirstIndex(procs: seq<Process>, pid: uint32): (k: int)
    ensures -1 <= k < |procs|
    ensures k >= 0 ==> procs[k].pid == pid && forall i | 0 <= i < k :: procs[i].pid != pid
    ensures k < 0 ==> forall i | 0 <= i < |procs| :: procs[i].pid != pid
  {
    if procs == [] then -1
    else if procs[0].pid == pid then 0
    else
      var k := FirstIndex(procs[1..], pid);
      if k < 0 then -1 else k + 1
  }

  /** Index of the last process with `pid`, or -1. */
  function LastIndex(procs: seq<Process>, pid: uint32): (k: int)
    ensures -1 <= k < |procs|
    ensures k >= 0 ==> procs[k].pid == pid && forall i | k < i < |procs| :: procs[i].pid != pid
    ensures k < 0 ==> forall i | 0 <= i < |procs| :: procs[i].pid != pid
  {
    if procs == [] then -1
    else if procs[|procs| - 1].pid == pid then |procs| - 1
    else LastIndex(procs[..|procs| - 1], pid)
  }

  /** The record list of the first process with `pid`, or the empty list. */
  function VariablesOf(procs: seq<Process>, pid: uint32): seq<Variable> {
    var k := FirstIndex(procs, pid);
    if k >= 0 then procs[k].variables else []
  }

  /** `getVariables` answers the records of the first process with the pid, and nothing for an unknown pid. */
  lemma VariablesOfFirst(procs: seq<Process>, pid: uint32)
    ensures !HasPid(procs, pid) ==> VariablesOf(procs, pid) == []
    ensures forall i | 0 <= i < |procs| && procs[i].pid == pid && (forall j | 0 <= j < i :: procs[j].pid != pid) ::
      VariablesOf(procs, pid) == procs[i].variables
  {
    var k := FirstIndex(procs, pid);
    forall i | 0 <= i < |procs| && procs[i].pid == pid && (forall j | 0 <= j < i :: procs[j].pid != pid)
      ensures k == i
    {
      assert procs[i].pid == pid;
      assert k >= 0 && k <= i;
    }
  }

  /**
   * The process list after appending `v` to the last process with `pid`
   * (the process `addVariableToProcess` ends up holding); no change for an unknown pid.
   */
  function AppendVariable(procs: seq<Process>, pid: uint32, v: Variable): (r: seq<Process>)
    ensures |r| == |procs|
    ensures !HasPid(procs, pid) ==> r == procs
    ensures HasPid(procs, pid) ==>
      var k := LastIndex(procs, pid);
      r[k] == Process(pid, procs[k].variables + [v]) &&
      forall i {:trigger r[i]} | 0 <= i < |procs| && i != k :: r[i] == procs[i]
  {
    var k := LastIndex(procs, pid);
    if k < 0 then procs else procs[k := procs[k].(variables := procs[k].variables + [v])]
  }

  /** Whether a record uses room on `page`: it is not free space and it STARTS on that page. */
  predicate CountsOnPage(v: Variable, page: int32, ps: PageSize) {
    v.name != FREE_SPACE_NAME && WrapI32(v.address / ps) == page
  }

  /** For a page number that is not negative, a record counts on it exactly when it is a variable starting inside it. */
  lemma CountsOnPageWithin(v: Variable, page: int32, ps: PageSize)
    requires 0 <= page
    ensures CountsOnPage(v, page, ps) <==>
      v.name != FREE_SPACE_NAME && page * ps <= v.address < (page + 1) * ps
  {
    var q := v.address / ps;
    QuotientBounds(v.address, ps);
    if CountsOnPage(v, page, ps) {
      assert q == page;
    }
    if page * ps <= v.address < (page + 1) * ps {
      DivModOfMultiple(page, ps, v.address - page * ps);
      assert q == page;
    }
  }

  /** Bytes of the records in `vs` that count on `page`. */
  function UsedInList(vs: seq<Variable>, page: int32, ps: PageSize): nat {
    if vs == [] then 0
    else
      var v := vs[|vs| - 1];
      UsedInList(vs[..|vs| - 1], page, ps) + (if CountsOnPage(v, page, ps) then v.size else 0)
  }

  /** Bytes that count on `page`, over every process with `pid`. */
  function UsedOnPage(procs: seq<Process>, pid: uint32, page: int32, ps: PageSize): nat {
    if procs == [] then 0
    else
      var p := procs[|procs| - 1];
      UsedOnPage(procs[..|procs| - 1], pid, page, ps) + (if p.pid == pid then UsedInList(p.variables, page, ps) else 0)
  }

  /** An unknown pid has used nothing on any page. */
  lemma {:induction false} UsedOnPageAbsent(procs: seq<Process>, pid: uint32, page: int32, ps: PageSize)
    requires !HasPid(procs, pid)
    ensures UsedOnPage(procs, pid, page, ps) == 0
    decreases |procs|
  {
    if procs != [] {
      UsedOnPageAbsent(procs[..|procs| - 1], pid, page, ps);
    }
  }

  lemma UsedInListSnoc(vs: seq<Variable>, v: Variable, page: int32, ps: PageSize)
    ensures UsedInList(vs + [v], page, ps) == UsedInList(vs, page, ps) + (if CountsOnPage(v, page, ps) then v.size else 0)
  {
    assert (vs + [v])[..|vs|] == vs;
  }

  /** One more record of a list scanned from the front. */
  lemma UsedInListStep(vs: seq<Variable>, j: nat, page: int32, ps: PageSize)
    requires j < |vs|
    ensures UsedInList(vs[..j + 1], page, ps) ==
      UsedInList(vs[..j], page, ps) + (if CountsOnPage(vs[j], page, ps) then vs[j].size else 0)
  {
    assert vs[..j + 1] == vs[..j] + [vs[j]];
    UsedInListSnoc(vs[..j], vs[j], page, ps);
  }

  /** One more process of a list scanned from the front. */
  lemma UsedOnPageStep(procs: seq<Process>, pid: uint32, i: nat, page: int32, ps: PageSize)
    requires i < |procs|
    ensures UsedOnPage(procs[..i + 1], pid, page, ps) ==
      UsedOnPage(procs[..i], pid, page, ps) + (if procs[i].pid == pid then UsedInList(procs[i].variables, page, ps) else 0)
  {
    assert procs[..i + 1][..i] == procs[..i];
  }

  /**
   * One record of the scan in `getFreeSpaceLeftOnPage` (src/mmu.cpp:118-121): the running
   * 32-bit difference takes off the record's size exactly when the record counts on the page.
   */
  lemma SpaceLeftStep(vs: seq<Variable>, j: nat, page: int32, ps: PageSize, x: int, spaceLeft: int32)
    requires j < |vs| && spaceLeft == WrapI32(x - UsedInList(vs[..j], page, ps))
    ensures (if vs[j].name != FREE_SPACE_NAME && WrapI32(vs[j].address / ps) == page
             then WrapI32(spaceLeft - vs[j].size) else spaceLeft) ==
      WrapI32(x - UsedInList(vs[..j + 1], page, ps))
  {
    UsedInListStep(vs, j, page, ps);
    WrapI32Sub(x - UsedInList(vs[..j], page, ps), vs[j].size);
  }

  /**
   * What `getFreeSpaceLeftOnPage` returns: the page size minus the counted bytes,
   * computed in 32-bit `int` arithmetic, clamped below at 0; 0 for an unknown pid.
   */
  function FreeSpaceLeftOnPage(procs: seq<Process>, pid: uint32, page: int32, ps: PageSize): (r: int32)
    ensures 0 <= r
    ensures !HasPid(procs, pid) ==> r == 0
    ensures HasPid(procs, pid) && UsedOnPage(procs, pid, page, ps) <= ps + TWO31 ==>
      r == if UsedOnPage(procs, pid, page, ps) < ps then ps - UsedOnPage(procs, pid, page, ps) else 0
  {
    if !HasPid(procs, pid) then 0
    else
      var left := WrapI32(ps - UsedOnPage(procs, pid, page, ps));
      if left <= 0 then 0 else left
  }

  /** When no wrap-around can happen, the room on a page never exceeds the page. */
  lemma FreeSpaceLeftBounded(procs: seq<Process>, pid: uint32, page: int32, ps: PageSize)
    requires UsedOnPage(procs, pid, page, ps) <= ps + TWO31
    ensures 0 <= FreeSpaceLeftOnPage(procs, pid, page, ps) <= ps
  {
  }

  /**
   * Room is counted by start page only: adding a record that starts on another page
   * (for instance one that starts on an earlier page and spills onto this one)
   * leaves the room on this page unchanged.
   */
  lemma {:induction false} SpillDoesNotCount(procs: seq<Process>, pid: uint32, v: Variable, page: int32, ps: PageSize)
    requires !CountsOnPage(v, page, ps)
    ensures UsedOnPage(AppendVariable(procs, pid, v), pid, page, ps) == UsedOnPage(procs, pid, page, ps)
    ensures FreeSpaceLeftOnPage(AppendVariable(procs, pid, v), pid, page, ps) == FreeSpaceLeftOnPage(procs, pid, page, ps)
  {
    UsedOnPageAppend(procs, pid, v, page, ps);
    var r := AppendVariable(procs, pid, v);
    assert HasPid(r, pid) == HasPid(procs, pid) by {
      if HasPid(procs, pid) {
        var k := LastIndex(procs, pid);
        assert r[k].pid == pid;
      } else {
        assert r == procs;
      }
    }
  }

  /** Appending a record to a known process adds exactly its counted bytes. */
  lemma {:induction false} UsedOnPageAppend(procs: seq<Process>, pid: uint32, v: Variable, page: int32, ps: PageSize)
    ensures UsedOnPage(AppendVariable(procs, pid, v), pid, page, ps) ==
      UsedOnPage(procs, pid, page, ps) + (if HasPid(procs, pid) && CountsOnPage(v, page, ps) then v.size else 0)
    decreases |procs|
  {
    if procs != [] {
      var n := |procs|;
      var k := LastIndex(procs, pid);
      if k < 0 {
        assert AppendVariable(procs, pid, v) == procs;
      } else if k == n - 1 {
        AppendToLast(procs, pid, v, page, ps);
      } else {
        var init := procs[..n - 1];
        AppendBeforeLast(procs, pid, v);
        UsedOnPageAppend(init, pid, v, page, ps);
        assert procs == init + [procs[n - 1]];
      }
    }
  }

  lemma AppendToLast(procs: seq<Process>, pid: uint32, v: Variable, page: int32, ps: PageSize)
    requires procs != [] && procs[|procs| - 1].pid == pid
    ensures UsedOnPage(AppendVariable(procs, pid, v), pid, page, ps) ==
      UsedOnPage(procs, pid, page, ps) + (if CountsOnPage(v, page, ps) then v.size else 0)
  {
    var n := |procs|;
    var r := AppendVariable(procs, pid, v);
    assert r == procs[..n - 1] + [Process(pid, procs[n - 1].variables + [v])];
    assert r[..n - 1] == procs[..n - 1];
    var vs := procs[n - 1].variables;
    assert (vs + [v])[..|vs|] == vs;
  }

  lemma LastIndexSkipsLast(procs: seq<Process>, pid: uint32)
    requires procs != [] && procs[|procs| - 1].pid != pid
    ensures LastIndex(procs, pid) == LastIndex(procs[..|procs| - 1], pid)
  {
  }

  /** When the last process with the pid is not the last process, the append happens in the prefix. */
  lemma AppendBeforeLast(procs: seq<Process>, pid: uint32, v: Variable)
    requires procs != [] && 0 <= LastIndex(procs, pid) < |procs| - 1
    ensures var n := |procs|;
      AppendVariable(procs, pid, v) == AppendVariable(procs[..n - 1], pid, v) + [procs[n - 1]] &&
      HasPid(procs[..n - 1], pid)
  {
    var n := |procs|;
    var init := procs[..n - 1];
    var k := LastIndex(procs, pid);
    assert LastIndex(init, pid) == k by {
      LastIndexSkipsLast(procs, pid);
    }
    UpdateBeforeLast(procs, k, procs[k].(variables := procs[k].variables + [v]));
    assert init[k] == procs[k];
  }

  lemma UpdateBeforeLast<T>(s: seq<T>, k: nat, x: T)
    requires k < |s| - 1
    ensures s[k := x] == s[..|s| - 1][k := x] + [s[|s| - 1]]
  {
    var a, b := s[k := x], s[..|s| - 1][k := x] + [s[|s| - 1]];
    forall i | 0 <= i < |a|
      ensures a[i] == b[i]
    {
    }
  }

  /** Pids listed in increasing order, all below the counter. */
  ghost predicate PidsIncreasing(procs: seq<Process>, next: int) {
    (forall i, j | 0 <= i < j < |procs| :: procs[i].pid < procs[j].pid) &&
    (forall i | 0 <= i < |procs| :: procs[i].pid < next)
  }

  /** While the counter has not wrapped, no pid is listed twice. */
  lemma IncreasingPidsAreUnique(procs: seq<Process>, next: int, pid: uint32)
    requires PidsIncreasing(procs, next)
    ensures FirstIndex(procs, pid) == LastIndex(procs, pid)
  {
    var f, l := FirstIndex(procs, pid), LastIndex(procs, pid);
    assert f <= l;
  }

  /** The inner loop of `getFreeSpaceLeftOnPage` (src/mmu.cpp:117-122) over one process's records. */
  method SubtractOnPage(vs: seq<Variable>, pageNumber: int32, pageSize: PageSize, start: int32) returns (spaceLeft: int32)
    ensures spaceLeft == WrapI32(start - UsedInList(vs, pageNumber, pageSize))
  {
    spaceLeft := start;
    var j := 0;
    while j < |vs|
      invariant 0 <= j <= |vs|
      invariant spaceLeft == WrapI32(start - UsedInList(vs[..j], pageNumber, pageSize))
    {
      SpaceLeftStep(vs, j, pageNumber, pageSize, start, spaceLeft);
      var variablePage := WrapI32(vs[j].address / pageSize);
      if vs[j].name != FREE_SPACE_NAME && variablePage == pageNumber {
        spaceLeft := WrapI32(spaceLeft - vs[j].size);
      }
      j := j + 1;
    }
    assert vs[..j] == vs;
  }

  /** include/mmu.h:22-46 */
  class Mmu {
    var nextPid: uint32
    var maxSize: uint32
    var processes: seq<Process>

    /** src/mmu.cpp:3-7; the `int` size is stored into an unsigned field. */
    constructor (memorySize: int)
      ensures nextPid == FIRST_PID && maxSize == WrapU32(memorySize) && processes == []
      ensures PidsIncreasing(processes, nextPid)
    {
      nextPid := FIRST_PID;
      maxSize := WrapU32(memorySize);
      processes := [];
    }

    /** src/mmu.cpp:13-29 */
    method CreateProcess() returns (pid: uint32)
      modifies this
      ensures pid == old(nextPid)
      ensures nextPid == WrapU32(old(nextPid) + 1)
      ensures maxSize == old(maxSize)
      ensures processes == old(processes) + [Process(pid, [Variable(FREE_SPACE_NAME, FreeSpace, 0, maxSize)])]
      ensures old(PidsIncreasing(processes, nextPid)) ==> !HasPid(old(processes), pid)
      ensures old(PidsIncreasing(processes, nextPid)) && old(nextPid) + 1 < TWO32 ==>
        PidsIncreasing(processes, nextPid)
    {
      pid := nextPid;
      var free := Variable(FREE_SPACE_NAME, FreeSpace, 0, maxSize);
      processes := processes + [Process(pid, [free])];
      nextPid := WrapU32(nextPid + 1);
    }

    /** src/mmu.cpp:31-52: the scan keeps the LAST process whose pid matches. */
    method AddVariableToProcess(pid: uint32, name: string, kind: DataType, size: uint32, address: uint32)
      modifies this
      ensures processes == AppendVariable(old(processes), pid, Variable(name, kind, address, size))
      ensures nextPid == old(nextPid) && maxSize == old(maxSize)
    {
      var proc := -1;
      var i := 0;
      while i < |processes|
        invariant 0 <= i <= |processes|
        invariant proc == LastIndex(processes[..i], pid)
      {
        assert processes[..i + 1][..i] == processes[..i];
        if processes[i].pid == pid {
          proc := i;
        }
        i := i + 1;
      }
      assert processes[..i] == processes;
      var v := Variable(name, kind, address, size);
      if proc >= 0 {
        processes := processes[proc := processes[proc].(variables := processes[proc].variables + [v])];
      }
    }

    /** src/mmu.cpp:83-90 */
    method FindProcess(pid: uint32) returns (found: bool)
      ensures found == HasPid(processes, pid)
    {
      var i := 0;
      while i < |processes|
        invariant 0 <= i <= |processes|
        invariant forall k | 0 <= k < i :: processes[k].pid != pid
      {
        if processes[i].pid == pid {
          return true;
        }
        i := i + 1;
      }
      return false;
    }

    /** src/mmu.cpp:98-110 */
    method GetVariables(pid: uint32) returns (vars: seq<Variable>)
      ensures HasPid(processes, pid) ==> vars == processes[FirstIndex(processes, pid)].variables
      ensures !HasPid(processes, pid) ==> vars == []
    {
      var found := FindProcess(pid);
      if found {
        var i := 0;
        while i < |processes|
          invariant 0 <= i <= FirstIndex(processes, pid)
        {
          if processes[i].pid == pid {
            return processes[i].variables;
          }
          i := i + 1;
        }
        assert false;
      }
      return [];
    }

    /**
     * src/mmu.cpp:112-137. `spaceLeft - size` mixes `int` with `uint32_t`, so every step is
     * computed modulo 2^32 and stored back into an `int`.
     */
    method GetFreeSpaceLeftOnPage(pid: uint32, pageNumber: int32, pageSize: int32, address: uint32) returns (r: int32)
      requires pageSize > 0
      ensures r == FreeSpaceLeftOnPage(processes, pid, pageNumber, pageSize)
    {
      var spaceLeft: int32 := pageSize;
      var found := FindProcess(pid);
      if found {
        var procs := processes;
        var i := 0;
        while i < |procs|
          invariant 0 <= i <= |procs|
          invariant spaceLeft == WrapI32(pageSize - UsedOnPage(procs[..i], pid, pageNumber, pageSize))
        {
          UsedOnPageStep(procs, pid, i, pageNumber, pageSize);
          if procs[i].pid == pid {
            WrapI32Sub(pageSize - UsedOnPage(procs[..i], pid, pageNumber, pageSize), UsedInList(procs[i].variables, pageNumber, pageSize));
            spaceLeft := SubtractOnPage(procs[i].variables, pageNumber, pageSize, spaceLeft);
          }
          i := i + 1;
        }
        assert procs[..i] == procs;
        if spaceLeft <= 0 {
          return 0;
        } else {
          return spaceLeft;
        }
      } else {
        return 0;
      }
    }
  }
}
