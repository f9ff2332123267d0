/**
 * What `createProcess` leaves behind for a new pid: the text, globals and stack records
 * laid out back to back from address 0, and the free record after them.
 */
module Layout {
  import opened Machine
  import opened MmuModel
  import opened PageTableModel
  import opened Allocator

  /** A process appended with a new pid is both the first and the last one with that pid. */
  lemma NewPidIndices(pre: seq<Process>, pid: uint32, vs: seq<Variable>)
    requires !HasPid(pre, pid)
    ensures HasPid(pre + [Process(pid, vs)], pid)
    ensures FirstIndex(pre + [Process(pid, vs)], pid) == |pre| == LastIndex(pre + [Process(pid, vs)], pid)
    ensures VariablesOf(pre + [Process(pid, vs)], pid) == vs
  {
    var procs := pre + [Process(pid, vs)];
    assert procs[|pre|] == Process(pid, vs);
  }

  /** The room on a page of a newly appended process: the page size less its own counted bytes. */
  lemma NewPidRoom(pre: seq<Process>, pid: uint32, vs: seq<Variable>, page: int32, ps: PageSize)
    requires !HasPid(pre, pid) && UsedInList(vs, page, ps) < ps
    ensures FreeSpaceLeftOnPage(pre + [Process(pid, vs)], pid, page, ps) == ps - UsedInList(vs, page, ps)
  {
    var procs := pre + [Process(pid, vs)];
    NewPidIndices(pre, pid, vs);
    assert procs[..|procs| - 1] == pre;
    UsedOnPageAbsent(pre, pid, page, ps);
  }

  /** Two addresses on the same page are less than a page apart. */
  lemma SamePageClose(x: uint32, y: uint32, ps: PageSize)
    requires x <= y && PageNumberOf(x, ps) == PageNumberOf(y, ps)
    ensures y - x < ps
  {
    QuotientBounds(x, ps);
    QuotientBounds(y, ps);
    WrapI32InjectiveOnU32(x / ps, y / ps);
  }

  /**
   * A request for a new pid whose first record is free and large enough, on a page with room
   * for the request or for a whole number of elements, goes to the start of that record, which
   * shrinks from the front; the page table is untouched.
   */
  lemma PlaceAtFirst(pre: seq<Process>, table: map<string, int>, pid: uint32, vs: seq<Variable>,
                     name: string, kind: DataType, n: uint32, ps: PageSize, after: seq<Variable>)
    requires kind != FreeSpace && !HasPid(pre, pid) && |vs| >= 1
    requires vs[0].name == FREE_SPACE_NAME && RequestSize(kind, n) <= vs[0].size
    requires vs[0].address + RequestSize(kind, n) < TWO32
    requires UsedInList(vs, PageNumberOf(vs[0].address, ps), ps) < ps
    requires var room := ps - UsedInList(vs, PageNumberOf(vs[0].address, ps), ps);
      room >= RequestSize(kind, n) || room % ElementSize(kind) == 0
    requires var size := RequestSize(kind, n);
      after == [vs[0].(address := vs[0].address + size, size := vs[0].size - size)] + vs[1..] +
        [Variable(name, kind, vs[0].address, size)]
    ensures Allocate(pre + [Process(pid, vs)], table, pid, name, kind, n, ps) ==
      Allocation(Placed(vs[0].address, 0), AllocState(pre + [Process(pid, after)], table))
  {
    var procs := pre + [Process(pid, vs)];
    var rq := Request(pid, name, kind, RequestSize(kind, n), ps);
    NewPidFits(pre, table, pid, vs, name, kind, n, ps);
    NewPidIndices(pre, pid, vs);
    FirstRecordPlaced(rq, vs, AllocState(procs, table));
    NewPidSplit(pre, pid, vs, name, kind, n, ps, after);
  }

  /** The first record of a new pid fits at its start when its page has room as required. */
  lemma {:induction false} NewPidFits(pre: seq<Process>, table: map<string, int>, pid: uint32, vs: seq<Variable>,
                                      name: string, kind: DataType, n: uint32, ps: PageSize)
    requires kind != FreeSpace && !HasPid(pre, pid) && |vs| >= 1
    requires UsedInList(vs, PageNumberOf(vs[0].address, ps), ps) < ps
    requires var room := ps - UsedInList(vs, PageNumberOf(vs[0].address, ps), ps);
      room >= RequestSize(kind, n) || room % ElementSize(kind) == 0
    ensures FitsAtStart(Request(pid, name, kind, RequestSize(kind, n), ps), AllocState(pre + [Process(pid, vs)], table), vs[0])
  {
    var rq := Request(pid, name, kind, RequestSize(kind, n), ps);
    var page := PageNumberOf(vs[0].address, ps);
    var room := ps - UsedInList(vs, page, ps);
    NewPidRoom(pre, pid, vs, page, ps);
    assert Room(rq, AllocState(pre + [Process(pid, vs)], table), vs[0]) == room;
    if room < rq.size {
      PositiveMultiple(room, ElementSize(kind));
    }
  }

  /** Splitting the first record of a new pid at its start: shrink it, append the variable. */
  lemma {:induction false} NewPidSplit(pre: seq<Process>, pid: uint32, vs: seq<Variable>,
                                       name: string, kind: DataType, n: uint32, ps: PageSize, after: seq<Variable>)
    requires kind != FreeSpace && !HasPid(pre, pid) && |vs| >= 1
    requires RequestSize(kind, n) <= vs[0].size
    requires vs[0].address + RequestSize(kind, n) < TWO32
    requires var size := RequestSize(kind, n);
      after == [vs[0].(address := vs[0].address + size, size := vs[0].size - size)] + vs[1..] +
        [Variable(name, kind, vs[0].address, size)]
    ensures FirstIndex(pre + [Process(pid, vs)], pid) == |pre|
    ensures PlaceProcs(pre + [Process(pid, vs)], Request(pid, name, kind, RequestSize(kind, n), ps), 0, vs[0], vs[0].address, vs[0].size) ==
      pre + [Process(pid, after)]
  {
    var rq := Request(pid, name, kind, RequestSize(kind, n), ps);
    var r := vs[0];
    NewPidIndices(pre, pid, vs);
    var shrunk := ShrunkRecord(rq, r, r.address, r.size);
    assert shrunk == r.(address := r.address + rq.size, size := r.size - rq.size);
    assert vs[0 := shrunk] == [shrunk] + vs[1..];
    var written := WriteRecord(pre + [Process(pid, vs)], pid, 0, shrunk);
    assert written == pre + [Process(pid, [shrunk] + vs[1..])];
    NewPidIndices(pre, pid, [shrunk] + vs[1..]);
  }

  /** When the first record of the copy fits at its start, the scan stops there. */
  lemma {:induction false} FirstRecordPlaced(rq: Request, vs: seq<Variable>, st: AllocState)
    requires rq.kind != FreeSpace && |vs| >= 1 && Snapshot(st.procs, rq.pid, vs)
    requires vs[0].name == FREE_SPACE_NAME && rq.size <= vs[0].size && FitsAtStart(rq, st, vs[0])
    ensures AllocLoop(rq, vs, st, 0) ==
      Allocation(Placed(vs[0].address, 0), AllocState(PlaceProcs(st.procs, rq, 0, vs[0], vs[0].address, vs[0].size), st.table))
  {
  }

  lemma CharAlwaysWhole(room: int)
    ensures room % ElementSize(Char) == 0
  {
  }

  lemma PositiveMultiple(x: int, d: int)
    requires d > 0 && x > 0 && x % d == 0
    ensures x >= d
  {
    QuotientBounds(x, d);
    MulAwayFromZero(x / d, d);
  }

  /** The free record, text, globals and stack records after `createProcess`, in list order. */
  function SegmentRecords(maxSize: uint32, t: nat, g: nat): seq<Variable>
    requires t + g + STACK_SIZE <= maxSize
  {
    [Free(t + g + STACK_SIZE, maxSize - t - g - STACK_SIZE),
     Variable(TEXT_NAME, Char, 0, t),
     Variable(GLOBALS_NAME, Char, t, g),
     Variable(STACK_NAME, Char, t + g, STACK_SIZE)]
  }

  function Free(address: int, size: int): Variable
    requires 0 <= address < TWO32 && 0 <= size < TWO32
  {
    Variable(FREE_SPACE_NAME, FreeSpace, address, size)
  }

  /** The text goes at 0: nothing counts on page 0 yet. */
  lemma TextAtZero(pre: seq<Process>, table: map<string, int>, pid: uint32, maxSize: uint32, t: uint32, ps: PageSize)
    requires !HasPid(pre, pid) && t <= maxSize
    ensures Allocate(pre + [Process(pid, InitialRecords(maxSize))], table, pid, TEXT_NAME, Char, t, ps) ==
      Allocation(Placed(0, 0), AllocState(pre + [Process(pid, [Free(t, maxSize - t), Variable(TEXT_NAME, Char, 0, t)])], table))
  {
    var vs0 := InitialRecords(maxSize);
    assert UsedInList(vs0, PageNumberOf(0, ps), ps) == 0 by {
      assert vs0[..0] == [];
    }
    assert RequestSize(Char, t) == t;
    CharAlwaysWhole(ps - UsedInList(vs0, PageNumberOf(0, ps), ps));
    assert [Free(t, maxSize - t)] + vs0[1..] + [Variable(TEXT_NAME, Char, 0, t)] ==
      [Free(t, maxSize - t), Variable(TEXT_NAME, Char, 0, t)];
    PlaceAtFirst(pre, table, pid, vs0, TEXT_NAME, Char, t, ps, [Free(t, maxSize - t), Variable(TEXT_NAME, Char, 0, t)]);
  }

  /** On the page where the globals start, only the text can count, and only when t < ps. */
  lemma RoomAfterText(free: Variable, t: uint32, ps: PageSize)
    requires free.name == FREE_SPACE_NAME
    ensures UsedInList([free, Variable(TEXT_NAME, Char, 0, t)], PageNumberOf(t, ps), ps) < ps
  {
    var text := Variable(TEXT_NAME, Char, 0, t);
    var page := PageNumberOf(t, ps);
    UsedInListSnoc([], free, page, ps);
    UsedInListSnoc([free], text, page, ps);
    if CountsOnPage(text, page, ps) {
      assert PageNumberOf(0, ps) == page;
      SamePageClose(0, t, ps);
    }
  }

  /** On the page where the stack starts, what counts lies between the page start and t + g. */
  lemma RoomAfterGlobals(free: Variable, t: uint32, g: uint32, ps: PageSize)
    requires free.name == FREE_SPACE_NAME && t + g < TWO32
    ensures UsedInList([free, Variable(TEXT_NAME, Char, 0, t), Variable(GLOBALS_NAME, Char, t, g)],
                       PageNumberOf(t + g, ps), ps) < ps
  {
    var text := Variable(TEXT_NAME, Char, 0, t);
    var globals := Variable(GLOBALS_NAME, Char, t, g);
    var page := PageNumberOf(t + g, ps);
    UsedInListSnoc([], free, page, ps);
    UsedInListSnoc([free], text, page, ps);
    UsedInListSnoc([free, text], globals, page, ps);
    assert [free, text] + [globals] == [free, text, globals];
    if CountsOnPage(text, page, ps) {
      assert PageNumberOf(0, ps) == page;
      SamePageClose(0, t + g, ps);
    } else if CountsOnPage(globals, page, ps) {
      assert PageNumberOf(t, ps) == page;
      SamePageClose(t, t + g, ps);
    }
  }

  /** The globals go right after the text. */
  lemma GlobalsAfterText(pre: seq<Process>, table: map<string, int>, pid: uint32, maxSize: uint32, t: uint32, g: uint32,
                         ps: PageSize)
    requires !HasPid(pre, pid) && t + g <= maxSize
    ensures Allocate(pre + [Process(pid, [Free(t, maxSize - t), Variable(TEXT_NAME, Char, 0, t)])], table, pid,
                     GLOBALS_NAME, Char, g, ps) ==
      Allocation(Placed(t, 0), AllocState(pre + [Process(pid,
        [Free(t + g, maxSize - t - g), Variable(TEXT_NAME, Char, 0, t), Variable(GLOBALS_NAME, Char, t, g)])], table))
  {
    var text := Variable(TEXT_NAME, Char, 0, t);
    var vs1 := [Free(t, maxSize - t), text];
    RoomAfterText(Free(t, maxSize - t), t, ps);
    assert RequestSize(Char, g) == g;
    CharAlwaysWhole(ps - UsedInList(vs1, PageNumberOf(t, ps), ps));
    assert [Free(t + g, maxSize - t - g)] + vs1[1..] + [Variable(GLOBALS_NAME, Char, t, g)] ==
      [Free(t + g, maxSize - t - g), text, Variable(GLOBALS_NAME, Char, t, g)];
    PlaceAtFirst(pre, table, pid, vs1, GLOBALS_NAME, Char, g, ps,
                 [Free(t + g, maxSize - t - g), text, Variable(GLOBALS_NAME, Char, t, g)]);
  }

  /** The stack goes right after the globals. */
  lemma StackAfterGlobals(pre: seq<Process>, table: map<string, int>, pid: uint32, maxSize: uint32, t: uint32, g: uint32,
                          ps: PageSize)
    requires !HasPid(pre, pid) && t + g + STACK_SIZE <= maxSize
    ensures Allocate(pre + [Process(pid,
        [Free(t + g, maxSize - t - g), Variable(TEXT_NAME, Char, 0, t), Variable(GLOBALS_NAME, Char, t, g)])],
        table, pid, STACK_NAME, Char, STACK_SIZE, ps) ==
      Allocation(Placed(t + g, 0), AllocState(pre + [Process(pid, SegmentRecords(maxSize, t, g))], table))
  {
    var text := Variable(TEXT_NAME, Char, 0, t);
    var globals := Variable(GLOBALS_NAME, Char, t, g);
    var vs2 := [Free(t + g, maxSize - t - g), text, globals];
    RoomAfterGlobals(Free(t + g, maxSize - t - g), t, g, ps);
    assert RequestSize(Char, STACK_SIZE) == STACK_SIZE;
    CharAlwaysWhole(ps - UsedInList(vs2, PageNumberOf(t + g, ps), ps));
    assert [Free(t + g + STACK_SIZE, maxSize - t - g - STACK_SIZE)] + vs2[1..] + [Variable(STACK_NAME, Char, t + g, STACK_SIZE)]
      == SegmentRecords(maxSize, t, g);
    PlaceAtFirst(pre, table, pid, vs2, STACK_NAME, Char, STACK_SIZE, ps, SegmentRecords(maxSize, t, g));
  }

  /**
   * For a new pid whose process size holds all three segments, `createProcess` places the
   * text at 0, the globals right after it and the stack right after those, whatever the page
   * size, and adds no page-table entry.
   */
  lemma CreateProcessLayout(pre: seq<Process>, table: map<string, int>, pid: uint32, maxSize: uint32,
                            t: int32, g: int32, ps: PageSize)
    requires !HasPid(pre, pid)
    requires 0 <= t && 0 <= g && t + g + STACK_SIZE <= maxSize
    ensures SetUpSegments(pre + [Process(pid, InitialRecords(maxSize))], table, pid, t, g, ps) ==
      Allocation(Placed(t + g, 0), AllocState(pre + [Process(pid, SegmentRecords(maxSize, t, g))], table))
  {
    var text := Allocate(pre + [Process(pid, InitialRecords(maxSize))], table, pid, TEXT_NAME, Char, WrapU32(t), ps);
    TextAtZero(pre, table, pid, maxSize, t, ps);
    assert text.outcome == Placed(0, 0);
    var globals := Allocate(text.st.procs, text.st.table, pid, GLOBALS_NAME, Char, WrapU32(g), ps);
    GlobalsAfterText(pre, table, pid, maxSize, t, g, ps);
    assert globals.outcome == Placed(t, 0);
    StackAfterGlobals(pre, table, pid, maxSize, t, g, ps);
  }

  /** The process size the simulator's command loop gives every MMU: 64 MiB. */
  const MEMORY_SIZE: uint32 := 67108864

  /**
   * With 4096-byte pages, after `create 200 100` the stack sits at 300 and the next free byte
   * is 65836, on page 16, where nothing counts yet; so `allocate <pid> x int 1` places x at
   * 65836 and prints that address.
   */
  lemma FirstVariableAfterSegments(pre: seq<Process>, table: map<string, int>, pid: uint32)
    requires !HasPid(pre, pid)
    ensures var a := Allocate(pre + [Process(pid, SegmentRecords(MEMORY_SIZE, 200, 100))], table, pid, "x", Int, 1, 4096);
      a.outcome == Placed(65836, 0) && Echo("x", a.outcome) == Some(65836)
  {
    var vs := SegmentRecords(MEMORY_SIZE, 200, 100);
    var page := PageNumberOf(65836, 4096);
    assert page == 16;
    assert vs == [vs[0], vs[1], vs[2]] + [vs[3]];
    UsedInListSnoc([], vs[0], page, 4096);
    UsedInListSnoc([vs[0]], vs[1], page, 4096);
    UsedInListSnoc([vs[0], vs[1]], vs[2], page, 4096);
    assert [vs[0], vs[1]] + [vs[2]] == [vs[0], vs[1], vs[2]];
    UsedInListSnoc([vs[0], vs[1], vs[2]], vs[3], page, 4096);
    assert UsedInList(vs, page, 4096) == 0;
    PlaceAtFirst(pre, table, pid, vs, "x", Int, 1, 4096,
                 [vs[0].(address := 65840, size := vs[0].size - 4)] + vs[1..] + [Variable("x", Int, 65836, 4)]);
  }
}
