/**
 * The first-fit scan of `allocateVariable` (src/main.cpp:203-312) as a function of the MMU
 * processes and the page-table map: the element-size table, one visit of a record, the scan,
 * and the three segment allocations of `createProcess`.
 */
module Allocator {
  import opened Machine
  import opened MmuModel
  import opened PageTableModel

  datatype Option<T> = None | Some(value: T)

  const TEXT_NAME: string := "<TEXT>"
  const GLOBALS_NAME: string := "<GLOBALS>"
  const STACK_NAME: string := "<STACK>"
  const STACK_SIZE: uint32 := 65536

  /** Bytes per element of each type (src/main.cpp:214-232). */
  function ElementSize(kind: DataType): (es: nat)
    requires kind != FreeSpace
    ensures es == 1 || es == 2 || es == 4 || es == 8
  {
    match kind
    case Char => 1
    case Short => 2
    case Int => 4
    case Float => 4
    case Double => 8
    case Long => 8
  }

  /**
   * `num_elements * elementSize` in `uint32_t` arithmetic. Even when the product wraps,
   * the request stays a whole number of elements, because every element size divides 2^32.
   */
  function RequestSize(kind: DataType, numElements: uint32): (size: uint32)
    requires kind != FreeSpace
    ensures numElements * ElementSize(kind) < TWO32 ==> size == numElements * ElementSize(kind)
    ensures size % ElementSize(kind) == 0
  {
    var es := ElementSize(kind);
    var product := numElements * es;
    var q := product / TWO32;
    assert product % TWO32 == es * (numElements - q * (TWO32 / es)) by {
      assert product == q * TWO32 + product % TWO32;
      assert TWO32 == es * (TWO32 / es);
    }
    DivModOfMultiple(numElements - q * (TWO32 / es), es, 0);
    WrapU32(product)
  }

  /** One allocation request: the pid, the new variable's name and type, its byte size, the page size. */
  datatype Request = Request(pid: uint32, name: string, kind: DataType, size: uint32, pageSize: PageSize)

  /** The state `allocateVariable` works on: the MMU's processes and the page table's map. */
  datatype AllocState = AllocState(procs: seq<Process>, table: map<string, int>)

  /**
   * How the scan ended: it broke after placing the variable at `address` while visiting
   * record `index`; it ran past the last record; or it entered the loop at
   * src/main.cpp:255-258, whose guard never changes; from there the behaviour of the
   * C++ program is undefined, and the model claims nothing about what follows.
   */
  datatype Outcome = Placed(address: uint32, index: nat) | Exhausted | Diverges

  datatype Step = Next(st: AllocState) | Done(outcome: Outcome, st: AllocState)

  datatype Allocation = Allocation(outcome: Outcome, st: AllocState)

  /** A record carrying the request's name, type and size at `address`. */
  function NewRecord(rq: Request, address: uint32): Variable {
    Variable(rq.name, rq.kind, address, rq.size)
  }

  /**
   * The records copied at src/main.cpp:212 are still the first `|vars0|` records of the
   * first process with the pid: the scan visits exactly these, never the ones it appends.
   */
  predicate Snapshot(procs: seq<Process>, pid: uint32, vars0: seq<Variable>) {
    var k := FirstIndex(procs, pid);
    if k < 0 then vars0 == [] else |vars0| <= |procs[k].variables| && procs[k].variables[..|vars0|] == vars0
  }

  /** Processes `a` and `b` list the same pids in the same order. */
  predicate SamePids(a: seq<Process>, b: seq<Process>) {
    |a| == |b| && forall j | 0 <= j < |a| :: a[j].pid == b[j].pid
  }

  lemma SamePidsIndices(a: seq<Process>, b: seq<Process>, pid: uint32)
    requires SamePids(a, b)
    ensures FirstIndex(a, pid) == FirstIndex(b, pid) && LastIndex(a, pid) == LastIndex(b, pid)
    ensures HasPid(a, pid) == HasPid(b, pid)
  {
    var fa, fb := FirstIndex(a, pid), FirstIndex(b, pid);
    var la, lb := LastIndex(a, pid), LastIndex(b, pid);
    assert fa <= fb && fb <= fa;
    assert la <= lb && lb <= la;
    if HasPid(a, pid) {
      var i :| 0 <= i < |a| && a[i].pid == pid;
      assert b[i].pid == pid;
    }
    if HasPid(b, pid) {
      var i :| 0 <= i < |b| && b[i].pid == pid;
      assert a[i].pid == pid;
    }
  }

  /** The write through the pointer `variables[i]` (src/main.cpp:246-247 and twins). */
  function WriteRecord(procs: seq<Process>, pid: uint32, i: nat, v: Variable): (r: seq<Process>)
    requires FirstIndex(procs, pid) >= 0 && i < |procs[FirstIndex(procs, pid)].variables|
    ensures SamePids(procs, r)
  {
    var k := FirstIndex(procs, pid);
    procs[k := procs[k].(variables := procs[k].variables[i := v])]
  }

  lemma AppendKeepsSnapshot(procs: seq<Process>, pid: uint32, v: Variable, vars0: seq<Variable>)
    requires Snapshot(procs, pid, vars0)
    ensures SamePids(procs, AppendVariable(procs, pid, v))
    ensures Snapshot(AppendVariable(procs, pid, v), pid, vars0)
  {
    var r := AppendVariable(procs, pid, v);
    assert SamePids(procs, r);
    SamePidsIndices(procs, r, pid);
    var k := FirstIndex(procs, pid);
    if k >= 0 && k == LastIndex(procs, pid) {
      var vs := procs[k].variables;
      assert (vs + [v])[..|vars0|] == vs[..|vars0|];
    }
  }

  /**
   * The page-skipping loop of src/main.cpp:275-278 in closed form: the first address after
   * `address` on another page (0 once the address wraps) and the free size reduced by the
   * number of steps, both in `uint32_t` arithmetic.
   */
  function SkipPage(address: uint32, size: uint32, ps: PageSize): (r: (uint32, uint32))
    ensures r.0 == 0 || (address < r.0 && r.0 % ps == 0)
    ensures r.0 != 0 ==> r.0 - ps <= address
    ensures r.0 != address
    ensures r.0 == WrapU32(PageStop(address, ps))
    ensures ((r.0 - address) - (size - r.1)) % TWO32 == 0
  {
    var q := address / ps;
    QuotientBounds(address, ps);
    DivModOfMultiple(q + 1, ps, 0);
    var stop := PageStop(address, ps);
    var rest := size - (stop - address);
    WrapU32Near(stop);
    WrapU32Near(rest);
    MulSucc(q, ps);
    (WrapU32(stop), WrapU32(rest))
  }

  /** Where the page of `address` ends, or 2^32 when that is beyond the address space. */
  function PageStop(address: uint32, ps: PageSize): (stop: int)
    ensures address < stop <= TWO32
  {
    QuotientBounds(address, ps);
    var end := (address / ps + 1) * ps;
    if end < TWO32 then end else TWO32
  }

  /** Room on the page after a free record, as `getFreeSpaceLeftOnPage` reports it. */
  function Room(rq: Request, st: AllocState, r: Variable): int32 {
    FreeSpaceLeftOnPage(st.procs, rq.pid, PageNumberOf(r.address, rq.pageSize), rq.pageSize)
  }

  /**
   * Lines 242-252 (room for the whole request) and lines 253-268 with a loop that does not
   * run (the room is a whole number of elements): the variable goes where the free record starts.
   */
  predicate FitsAtStart(rq: Request, st: AllocState, r: Variable)
    requires rq.kind != FreeSpace
    ensures rq.kind == Char ==> (FitsAtStart(rq, st, r) <==> Room(rq, st, r) >= 1 || rq.size == 0)
  {
    var room := Room(rq, st, r);
    room >= rq.size || (room >= ElementSize(rq.kind) && room % ElementSize(rq.kind) == 0)
  }

  /**
   * The split of a free record: the record keeps its name and type and now starts just
   * after the request with the request's size taken off (lines 246-247); the new variable
   * is appended at `a` (line 248).
   */
  function PlaceProcs(procs: seq<Process>, rq: Request, i: nat, r: Variable, a: uint32, s: uint32): seq<Process>
    requires s >= rq.size
    requires FirstIndex(procs, rq.pid) >= 0 && i < |procs[FirstIndex(procs, rq.pid)].variables|
  {
    var written := WriteRecord(procs, rq.pid, i, ShrunkRecord(rq, r, a, s));
    AppendVariable(written, rq.pid, NewRecord(rq, a))
  }

  /** Free record `r` once the request takes the first bytes of the `s` free bytes at `a`. */
  function ShrunkRecord(rq: Request, r: Variable, a: uint32, s: uint32): (v: Variable)
    requires s >= rq.size
    ensures v.name == r.name && v.kind == r.kind && v.size + rq.size == s
    ensures a + rq.size < TWO32 ==> v.address == a + rq.size
  {
    r.(address := WrapU32(a + rq.size), size := s - rq.size)
  }

  /** The records visited without breaking: the stray records of line 300 (and 290) and the entry of line 296. */
  function PassProcs(procs: seq<Process>, rq: Request, r: Variable): seq<Process> {
    if r.name == FREE_SPACE_NAME && r.size >= rq.size then
      var skipped := SkipPage(r.address, r.size, rq.pageSize);
      AppendVariable(AppendVariable(procs, rq.pid, NewRecord(rq, skipped.0)), rq.pid, NewRecord(rq, r.address))
    else
      AppendVariable(procs, rq.pid, NewRecord(rq, r.address))
  }

  /** One iteration of the loop at src/main.cpp:234-301, visiting record `i` of the copy. */
  function Visit(rq: Request, vars0: seq<Variable>, st: AllocState, i: nat): (s: Step)
    requires rq.kind != FreeSpace
    requires i < |vars0| && Snapshot(st.procs, rq.pid, vars0)
    ensures s.Next? ==> Snapshot(s.st.procs, rq.pid, vars0) && SamePids(st.procs, s.st.procs)
  {
    var r := vars0[i];
    var k := FirstIndex(st.procs, rq.pid);
    assert st.procs[k].variables[i] == r;
    if r.name == FREE_SPACE_NAME then
      var page := PageNumberOf(r.address, rq.pageSize);
      if r.size >= rq.size then
        if FitsAtStart(rq, st, r) then
          Done(Placed(r.address, i), AllocState(PlaceProcs(st.procs, rq, i, r, r.address, r.size), st.table))
        else if Room(rq, st, r) >= ElementSize(rq.kind) then
          Done(Diverges, st)
        else
          var skipped := SkipPage(r.address, r.size, rq.pageSize);
          if skipped.1 >= rq.size then
            Done(Placed(skipped.0, i), AllocState(PlaceProcs(st.procs, rq, i, r, skipped.0, skipped.1), st.table))
          else
            AppendKeepsSnapshot(st.procs, rq.pid, NewRecord(rq, skipped.0), vars0);
            var procs1 := AppendVariable(st.procs, rq.pid, NewRecord(rq, skipped.0));
            AppendKeepsSnapshot(procs1, rq.pid, NewRecord(rq, r.address), vars0);
            Next(AllocState(PassProcs(st.procs, rq, r), WithEntry(st.table, rq.pid, page)))
      else
        AppendKeepsSnapshot(st.procs, rq.pid, NewRecord(rq, r.address), vars0);
        Next(AllocState(PassProcs(st.procs, rq, r), WithEntry(st.table, rq.pid, page)))
    else
      AppendKeepsSnapshot(st.procs, rq.pid, NewRecord(rq, r.address), vars0);
      Next(AllocState(PassProcs(st.procs, rq, r), st.table))
  }

  /** The four ways one visit can end, without the branch conditions that select them. */
  lemma {:induction false} VisitShape(rq: Request, vars0: seq<Variable>, st: AllocState, i: nat)
    requires rq.kind != FreeSpace
    requires i < |vars0| && Snapshot(st.procs, rq.pid, vars0)
    ensures var s := Visit(rq, vars0, st, i);
      var r := vars0[i];
      var skipped := SkipPage(r.address, r.size, rq.pageSize);
      var k := FirstIndex(st.procs, rq.pid);
      k >= 0 && i < |st.procs[k].variables| &&
      ((s.Done? && s.outcome.Diverges? && s.st == st) ||
       (s.Done? && r.name == FREE_SPACE_NAME && rq.size <= r.size && s.outcome == Placed(r.address, i) &&
        s.st == AllocState(PlaceProcs(st.procs, rq, i, r, r.address, r.size), st.table)) ||
       (s.Done? && r.name == FREE_SPACE_NAME && rq.size <= r.size && rq.size <= skipped.1 &&
        s.outcome == Placed(skipped.0, i) &&
        s.st == AllocState(PlaceProcs(st.procs, rq, i, r, skipped.0, skipped.1), st.table)) ||
       (s.Next? && (r.name == FREE_SPACE_NAME && rq.size <= r.size ==> skipped.1 < rq.size) &&
        s.st == AllocState(PassProcs(st.procs, rq, r),
          if r.name == FREE_SPACE_NAME then WithEntry(st.table, rq.pid, PageNumberOf(r.address, rq.pageSize)) else st.table)))
  {
    assert st.procs[FirstIndex(st.procs, rq.pid)].variables[i] == vars0[i];
  }

  /** A free record large enough for the request: the records the scan tries to place into. */
  predicate Candidate(rq: Request, r: Variable) {
    r.name == FREE_SPACE_NAME && rq.size <= r.size
  }

  /**
   * A record the scan can pass without placing: not a candidate, or one whose size, after
   * skipping to the next page, is less than the request.
   */
  predicate Passable(rq: Request, r: Variable) {
    Candidate(rq, r) ==> SkipPage(r.address, r.size, rq.pageSize).1 < rq.size
  }

  /** An address the scan may place into candidate `r` at: its start or the next page's start. */
  predicate PlacedIn(rq: Request, r: Variable, a: uint32) {
    Candidate(rq, r) &&
    (a == r.address || (a == SkipPage(r.address, r.size, rq.pageSize).0 && rq.size <= SkipPage(r.address, r.size, rq.pageSize).1))
  }

  /** The free size the record has at `a`: all of it at its start, the skipped remainder otherwise. */
  function SizeAt(rq: Request, r: Variable, a: uint32): (s: uint32)
    requires PlacedIn(rq, r, a)
    ensures rq.size <= s
  {
    if a == r.address then r.size else SkipPage(r.address, r.size, rq.pageSize).1
  }

  /** The free record after a placement at `a`: it now starts after the variable, shorter by the request. */
  function Shrunk(rq: Request, r: Variable, a: uint32): (v: Variable)
    requires PlacedIn(rq, r, a)
    ensures v.name == FREE_SPACE_NAME && v.size + rq.size == SizeAt(rq, r, a)
  {
    ShrunkRecord(rq, r, a, SizeAt(rq, r, a))
  }

  /**
   * What a placement leaves: in the first process with the pid the copied records are as
   * before except the placed-into one, now shrunk; the last process with the pid ends with the
   * new variable.
   */
  predicate PlacementLeaves(procs: seq<Process>, rq: Request, vars0: seq<Variable>, j: nat, a: uint32)
    requires j < |vars0| && PlacedIn(rq, vars0[j], a)
  {
    var l := LastIndex(procs, rq.pid);
    Snapshot(procs, rq.pid, vars0[j := Shrunk(rq, vars0[j], a)]) &&
    l >= 0 && |procs[l].variables| >= 1 && procs[l].variables[|procs[l].variables| - 1] == NewRecord(rq, a)
  }

  lemma {:induction false} PlaceProcsLeaves(procs: seq<Process>, rq: Request, vars0: seq<Variable>, j: nat, a: uint32)
    requires j < |vars0| && Snapshot(procs, rq.pid, vars0) && PlacedIn(rq, vars0[j], a)
    ensures FirstIndex(procs, rq.pid) >= 0
    ensures PlacementLeaves(PlaceProcs(procs, rq, j, vars0[j], a, SizeAt(rq, vars0[j], a)), rq, vars0, j, a)
  {
    var pid := rq.pid;
    var shrunk := Shrunk(rq, vars0[j], a);
    var written := WriteRecord(procs, pid, j, shrunk);
    var res := AppendVariable(written, pid, NewRecord(rq, a));
    assert res == PlaceProcs(procs, rq, j, vars0[j], a, SizeAt(rq, vars0[j], a));
    WrittenPrefix(procs, pid, vars0, j, shrunk);
    AppendKeepsSnapshot(written, pid, NewRecord(rq, a), vars0[j := shrunk]);
    AppendEndsWith(written, pid, NewRecord(rq, a));
  }

  /** After the write through the pointer, the copied records read as before except record j. */
  lemma WrittenPrefix(procs: seq<Process>, pid: uint32, vars0: seq<Variable>, j: nat, v: Variable)
    requires j < |vars0| && Snapshot(procs, pid, vars0)
    ensures FirstIndex(procs, pid) >= 0
    ensures Snapshot(WriteRecord(procs, pid, j, v), pid, vars0[j := v])
  {
    var k := FirstIndex(procs, pid);
    var written := WriteRecord(procs, pid, j, v);
    SamePidsIndices(procs, written, pid);
    var vs := procs[k].variables[j := v];
    assert written[k].variables == vs;
    assert vs[..|vars0|] == vars0[j := v];
  }

  /** Appending to a known pid leaves its last process ending with the new record. */
  lemma AppendEndsWith(procs: seq<Process>, pid: uint32, v: Variable)
    requires HasPid(procs, pid)
    ensures var res := AppendVariable(procs, pid, v);
      var l := LastIndex(res, pid);
      l >= 0 && |res[l].variables| >= 1 && res[l].variables[|res[l].variables| - 1] == v
  {
    var res := AppendVariable(procs, pid, v);
    SamePidsIndices(procs, res, pid);
  }

  /** One visit: it passes a passable record, or places into a candidate and leaves the split. */
  lemma {:induction false} VisitFirstFit(rq: Request, vars0: seq<Variable>, st: AllocState, i: nat)
    requires rq.kind != FreeSpace
    requires i < |vars0| && Snapshot(st.procs, rq.pid, vars0)
    ensures var s := Visit(rq, vars0, st, i);
      (s.Next? ==> Passable(rq, vars0[i])) &&
      (s.Next? && Candidate(rq, vars0[i]) ==>
        Room(rq, st, vars0[i]) < ElementSize(rq.kind) && Room(rq, st, vars0[i]) < rq.size) &&
      (s.Done? ==> !s.outcome.Exhausted?) &&
      (s.Done? && s.outcome.Placed? ==>
        s.outcome.index == i && PlacedIn(rq, vars0[i], s.outcome.address) &&
        PlacementLeaves(s.st.procs, rq, vars0, i, s.outcome.address))
  {
    var s := Visit(rq, vars0, st, i);
    VisitShape(rq, vars0, st, i);
    if s.Done? && s.outcome.Placed? {
      PlaceProcsLeaves(st.procs, rq, vars0, i, s.outcome.address);
    }
  }

  /** `b` lists the same pids as `a`, and every process of another pid is unchanged. */
  predicate OthersUnchanged(a: seq<Process>, b: seq<Process>, pid: uint32) {
    SamePids(a, b) && forall j | 0 <= j < |a| && a[j].pid != pid :: b[j] == a[j]
  }

  /**
   * `t1` extends `t0` with entries of frame 0 only, and agrees with `t0` on every key
   * of another pid.
   */
  predicate EntriesForPidOnly(t0: map<string, int>, t1: map<string, int>, pid: uint32) {
    t0.Keys <= t1.Keys &&
    (forall k | k in t1 :: t1[k] == 0 || (k in t0 && t1[k] == t0[k])) &&
    (forall p: uint32, g: int32 | p != pid ::
      (Key(p, g) in t1 <==> Key(p, g) in t0) && (Key(p, g) in t0 ==> t1[Key(p, g)] == t0[Key(p, g)]))
  }

  lemma AppendOthers(procs: seq<Process>, pid: uint32, v: Variable)
    ensures OthersUnchanged(procs, AppendVariable(procs, pid, v), pid)
  {
  }

  lemma WriteOthers(procs: seq<Process>, pid: uint32, i: nat, v: Variable)
    requires FirstIndex(procs, pid) >= 0 && i < |procs[FirstIndex(procs, pid)].variables|
    ensures OthersUnchanged(procs, WriteRecord(procs, pid, i, v), pid)
  {
  }

  lemma OthersTrans(a: seq<Process>, b: seq<Process>, c: seq<Process>, pid: uint32)
    requires OthersUnchanged(a, b, pid) && OthersUnchanged(b, c, pid)
    ensures OthersUnchanged(a, c, pid)
  {
  }

  lemma EntriesRefl(t: map<string, int>, pid: uint32)
    ensures EntriesForPidOnly(t, t, pid)
  {
  }

  lemma EntriesWithEntry(t: map<string, int>, pid: uint32, page: int32)
    ensures EntriesForPidOnly(t, WithEntry(t, pid, page), pid)
  {
  }

  lemma EntriesTrans(t0: map<string, int>, t1: map<string, int>, t2: map<string, int>, pid: uint32)
    requires EntriesForPidOnly(t0, t1, pid) && EntriesForPidOnly(t1, t2, pid)
    ensures EntriesForPidOnly(t0, t2, pid)
  {
  }

  /** The split at src/main.cpp:246-248 writes and appends records of the requesting pid only. */
  lemma {:induction false} PlaceOthers(procs: seq<Process>, rq: Request, i: nat, r: Variable, a: uint32, s: uint32)
    requires s >= rq.size
    requires FirstIndex(procs, rq.pid) >= 0 && i < |procs[FirstIndex(procs, rq.pid)].variables|
    ensures OthersUnchanged(procs, PlaceProcs(procs, rq, i, r, a, s), rq.pid)
  {
    var written := WriteRecord(procs, rq.pid, i, r.(address := WrapU32(a + rq.size), size := s - rq.size));
    WriteOthers(procs, rq.pid, i, r.(address := WrapU32(a + rq.size), size := s - rq.size));
    AppendOthers(written, rq.pid, NewRecord(rq, a));
    OthersTrans(procs, written, PlaceProcs(procs, rq, i, r, a, s), rq.pid);
  }

  /** The appends a visit makes when it moves on (lines 290, 296, 300) touch the requesting pid only. */
  lemma {:induction false} PassOthers(procs: seq<Process>, rq: Request, r: Variable)
    ensures OthersUnchanged(procs, PassProcs(procs, rq, r), rq.pid)
  {
    var skipped := SkipPage(r.address, r.size, rq.pageSize);
    var procs1 := AppendVariable(procs, rq.pid, NewRecord(rq, skipped.0));
    AppendOthers(procs, rq.pid, NewRecord(rq, skipped.0));
    AppendOthers(procs1, rq.pid, NewRecord(rq, r.address));
    OthersTrans(procs, procs1, AppendVariable(procs1, rq.pid, NewRecord(rq, r.address)), rq.pid);
    AppendOthers(procs, rq.pid, NewRecord(rq, r.address));
  }

  /** Everything a scan step may change: processes and page-table entries of `pid` only. */
  predicate TouchesOnly(a: AllocState, b: AllocState, pid: uint32) {
    OthersUnchanged(a.procs, b.procs, pid) && EntriesForPidOnly(a.table, b.table, pid)
  }

  lemma {:induction false} TouchesOnlyTrans(a: AllocState, b: AllocState, c: AllocState, pid: uint32)
    requires TouchesOnly(a, b, pid) && TouchesOnly(b, c, pid)
    ensures TouchesOnly(a, c, pid)
  {
    OthersTrans(a.procs, b.procs, c.procs, pid);
    EntriesTrans(a.table, b.table, c.table, pid);
  }

  /** One visit touches only the requesting pid's processes and page-table entries. */
  lemma {:induction false} VisitTouchesOnlyPid(rq: Request, vars0: seq<Variable>, st: AllocState, i: nat)
    requires rq.kind != FreeSpace
    requires i < |vars0| && Snapshot(st.procs, rq.pid, vars0)
    ensures TouchesOnly(st, Visit(rq, vars0, st, i).st, rq.pid)
  {
    var r := vars0[i];
    var skipped := SkipPage(r.address, r.size, rq.pageSize);
    VisitShape(rq, vars0, st, i);
    EntriesRefl(st.table, rq.pid);
    EntriesWithEntry(st.table, rq.pid, PageNumberOf(r.address, rq.pageSize));
    if r.name == FREE_SPACE_NAME && rq.size <= r.size {
      PlaceOthers(st.procs, rq, i, r, r.address, r.size);
      if rq.size <= skipped.1 {
        PlaceOthers(st.procs, rq, i, r, skipped.0, skipped.1);
      }
    }
    PassOthers(st.procs, rq, r);
  }

  /**
   * The loop of src/main.cpp:234-301 from record `i` of the copy on. It is first fit: a
   * placement goes into a candidate record at its start or at the next page's start, every
   * record visited before it was passable, and the split leaves the shrunk free record in
   * place of the candidate and the new variable last; a scan that runs out of records passed
   * every one of them and left the copied records as they were. Whatever the outcome, only
   * processes and page-table entries of the requesting pid change.
   */
  function AllocLoop(rq: Request, vars0: seq<Variable>, st: AllocState, i: nat): (res: Allocation)
    requires rq.kind != FreeSpace
    requires i <= |vars0| && Snapshot(st.procs, rq.pid, vars0)
    ensures res.outcome.Placed? ==>
      i <= res.outcome.index < |vars0| && PlacedIn(rq, vars0[res.outcome.index], res.outcome.address) &&
      (forall m {:trigger Passable(rq, vars0[m])} | i <= m < res.outcome.index :: Passable(rq, vars0[m])) &&
      PlacementLeaves(res.st.procs, rq, vars0, res.outcome.index, res.outcome.address)
    ensures res.outcome.Exhausted? ==>
      (forall m {:trigger Passable(rq, vars0[m])} | i <= m < |vars0| :: Passable(rq, vars0[m])) &&
      Snapshot(res.st.procs, rq.pid, vars0)
    ensures TouchesOnly(st, res.st, rq.pid)
    decreases |vars0| - i
  {
    if i == |vars0| then EntriesRefl(st.table, rq.pid); Allocation(Exhausted, st)
    else
      VisitFirstFit(rq, vars0, st, i);
      VisitTouchesOnlyPid(rq, vars0, st, i);
      match Visit(rq, vars0, st, i)
      case Done(o, st') => Allocation(o, st')
      case Next(st') =>
        var res := AllocLoop(rq, vars0, st', i + 1);
        TouchesOnlyTrans(st, st', res.st, rq.pid);
        PassableFrom(rq, vars0, i, if res.outcome.Placed? then res.outcome.index else if res.outcome.Exhausted? then |vars0| else i + 1);
        res
  }

  /** A passable record in front of a passable run makes a longer passable run. */
  lemma {:induction false} PassableFrom(rq: Request, vars0: seq<Variable>, i: nat, j: nat)
    requires i < j <= |vars0| && Passable(rq, vars0[i])
    requires forall m | i + 1 <= m < j :: Passable(rq, vars0[m])
    ensures forall m | i <= m < j :: Passable(rq, vars0[m])
  {
  }

  lemma {:induction false} AllocLoopUnfold(rq: Request, vars0: seq<Variable>, st: AllocState, i: nat)
    requires rq.kind != FreeSpace
    requires i < |vars0| && Snapshot(st.procs, rq.pid, vars0)
    ensures Visit(rq, vars0, st, i).Done? ==>
      AllocLoop(rq, vars0, st, i) == Allocation(Visit(rq, vars0, st, i).outcome, Visit(rq, vars0, st, i).st)
    ensures Visit(rq, vars0, st, i).Next? ==>
      AllocLoop(rq, vars0, st, i) == AllocLoop(rq, vars0, Visit(rq, vars0, st, i).st, i + 1)
  {
  }

  /** `allocateVariable(pid, name, kind, numElements)` on the given MMU processes and page-table map. */
  function Allocate(procs: seq<Process>, table: map<string, int>, pid: uint32, name: string, kind: DataType,
                    numElements: uint32, ps: PageSize): (res: Allocation)
    requires kind != FreeSpace
    ensures !HasPid(procs, pid) ==> res == Allocation(Exhausted, AllocState(procs, table))
  {
    var vars0 := VariablesOf(procs, pid);
    var k := FirstIndex(procs, pid);
    assert k >= 0 ==> procs[k].variables[..|vars0|] == vars0;
    AllocLoop(Request(pid, name, kind, RequestSize(kind, numElements), ps), vars0, AllocState(procs, table), 0)
  }

  /** `allocateVariable` is first fit over the records the first process with the pid holds. */
  lemma AllocateFirstFit(procs: seq<Process>, table: map<string, int>, pid: uint32, name: string,
                         kind: DataType, n: uint32, ps: PageSize)
    requires kind != FreeSpace
    ensures var vars0 := VariablesOf(procs, pid);
      var rq := Request(pid, name, kind, RequestSize(kind, n), ps);
      var res := Allocate(procs, table, pid, name, kind, n, ps);
      var o := res.outcome;
      (o.Placed? ==>
        o.index < |vars0| && PlacedIn(rq, vars0[o.index], o.address) &&
        (forall m | 0 <= m < o.index :: Passable(rq, vars0[m])) &&
        PlacementLeaves(res.st.procs, rq, vars0, o.index, o.address)) &&
      (o.Exhausted? ==> forall m | 0 <= m < |vars0| :: Passable(rq, vars0[m]))
  {
    var vars0 := VariablesOf(procs, pid);
    var k := FirstIndex(procs, pid);
    assert k >= 0 ==> procs[k].variables[..|vars0|] == vars0;
  }

  /**
   * `allocateVariable` changes no process of another pid, lists the same pids in the same
   * order, only adds page-table entries of the requesting pid and only with frame 0.
   */
  lemma AllocateTouchesOnlyPid(procs: seq<Process>, table: map<string, int>, pid: uint32, name: string,
                               kind: DataType, n: uint32, ps: PageSize)
    requires kind != FreeSpace
    ensures OthersUnchanged(procs, Allocate(procs, table, pid, name, kind, n, ps).st.procs, pid)
    ensures EntriesForPidOnly(table, Allocate(procs, table, pid, name, kind, n, ps).st.table, pid)
    ensures FramesAllZero(table) ==> FramesAllZero(Allocate(procs, table, pid, name, kind, n, ps).st.table)
  {
    var vars0 := VariablesOf(procs, pid);
    var k := FirstIndex(procs, pid);
    assert k >= 0 ==> procs[k].variables[..|vars0|] == vars0;
  }

  /** The address printed for a placed variable, unless it is one of the three process segments. */
  function Echo(name: string, o: Outcome): (echoed: Option<uint32>)
    ensures echoed.Some? ==> o.Placed? && echoed.value == o.address
    ensures name == TEXT_NAME || name == GLOBALS_NAME || name == STACK_NAME ==> echoed == None
    ensures o.Placed? && echoed == None ==> name == TEXT_NAME || name == GLOBALS_NAME || name == STACK_NAME
  {
    if o.Placed? && name != TEXT_NAME && name != GLOBALS_NAME && name != STACK_NAME then Some(o.address) else None
  }

  /**
   * The three allocations of src/main.cpp:191-197 on the state `createProcess` leaves:
   * text, globals, then a stack of 65536 bytes, all of type Char. The `int` sizes are
   * passed as `uint32_t` element counts. An allocation that ends in `Diverges` ends the sequence.
   */
  function SetUpSegments(procs: seq<Process>, table: map<string, int>, pid: uint32, textSize: int32, dataSize: int32,
                         ps: PageSize): (res: Allocation)
    ensures TouchesOnly(AllocState(procs, table), res.st, pid)
  {
    var text := Allocate(procs, table, pid, TEXT_NAME, Char, WrapU32(textSize), ps);
    AllocateTouchesOnlyPid(procs, table, pid, TEXT_NAME, Char, WrapU32(textSize), ps);
    if text.outcome.Diverges? then text
    else
      var globals := Allocate(text.st.procs, text.st.table, pid, GLOBALS_NAME, Char, WrapU32(dataSize), ps);
      AllocateTouchesOnlyPid(text.st.procs, text.st.table, pid, GLOBALS_NAME, Char, WrapU32(dataSize), ps);
      TouchesOnlyTrans(AllocState(procs, table), text.st, globals.st, pid);
      if globals.outcome.Diverges? then globals
      else
        var stack := Allocate(globals.st.procs, globals.st.table, pid, STACK_NAME, Char, STACK_SIZE, ps);
        AllocateTouchesOnlyPid(globals.st.procs, globals.st.table, pid, STACK_NAME, Char, STACK_SIZE, ps);
        TouchesOnlyTrans(AllocState(procs, table), globals.st, stack.st, pid);
        stack
  }

  /** The record list a new process starts with: one free record covering the whole process size. */
  function InitialRecords(maxSize: uint32): seq<Variable> {
    [Variable(FREE_SPACE_NAME, FreeSpace, 0, maxSize)]
  }
}
