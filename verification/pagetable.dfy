/**
 * The page table of the simulator (src/pagetable.cpp): a map from the text key
 * "pid|page" to a frame number, and virtual-to-physical address arithmetic.
 */
module PageTableModel {
  import opened Machine
  import opened Decimal

  /** The lookup key `std::to_string(pid) + "|" + std::to_string(page_number)`. */
  function Key(pid: uint32, page: int32): string {
    NatToDecimal(pid) + "|" + IntToDecimal(page)
  }

  /** Distinct (pid, page) pairs give distinct keys: decimal digits never contain '|'. */
  lemma KeyInjective(pid1: uint32, page1: int32, pid2: uint32, page2: int32)
    requires Key(pid1, page1) == Key(pid2, page2)
    ensures pid1 == pid2 && page1 == page2
  {
    var k := Key(pid1, page1);
    var d1, d2 := NatToDecimal(pid1), NatToDecimal(pid2);
    // The first '|' of the key ends the pid's digits, whichever pair built it.
    assert |d1| == |d2| by {
      assert forall m | 0 <= m < |d1| :: k[m] == d1[m] && IsDigit(k[m]);
      assert forall m | 0 <= m < |d2| :: k[m] == d2[m] && IsDigit(k[m]);
      assert k[|d1|] == '|' && k[|d2|] == '|';
    }
    assert d1 == k[..|d1|] == d2;
    DecimalRoundTrip(pid1);
    DecimalRoundTrip(pid2);
    assert IntToDecimal(page1) == k[|d1| + 1..] == IntToDecimal(page2);
    IntToDecimalInjective(page1, page2);
  }

  /** The table after `addEntry(pid, page)`: the key maps to frame 0, every other pair is untouched. */
  function WithEntry(table: map<string, int>, pid: uint32, page: int32): (r: map<string, int>)
    ensures Key(pid, page) in r && r[Key(pid, page)] == 0
    ensures r.Keys == table.Keys + {Key(pid, page)}
    ensures forall p: uint32, g: int32 | (p, g) != (pid, page) ::
      (Key(p, g) in r <==> Key(p, g) in table) && (Key(p, g) in table ==> r[Key(p, g)] == table[Key(p, g)])
  {
    forall p: uint32, g: int32 | (p, g) != (pid, page) ensures Key(p, g) != Key(pid, page) {
      if Key(p, g) == Key(pid, page) {
        KeyInjective(p, g, pid, page);
      }
    }
    table[Key(pid, page) := 0]
  }

  /** Adding an entry twice has the same effect as adding it once. */
  lemma WithEntryIdempotent(table: map<string, int>, pid: uint32, page: int32)
    ensures WithEntry(WithEntry(table, pid, page), pid, page) == WithEntry(table, pid, page)
  {
  }

  /** The frame a (pid, page) pair translates through; an unmapped pair uses frame 0. */
  function FrameOf(table: map<string, int>, pid: uint32, page: int32): int {
    if Key(pid, page) in table then table[Key(pid, page)] else 0
  }

  /** `getPageNumber`: unsigned division, returned as an `int`. */
  function PageNumberOf(address: uint32, ps: PageSize): (page: int32)
    ensures 0 <= page ==> page * ps <= address < (page + 1) * ps
    ensures page < 0 ==> ps == 1 && page == address - TWO32
  {
    QuotientBounds(address, ps);
    WrapI32(address / ps)
  }

  /** Every mapped frame is frame 0: `addEntry` never stores anything else. */
  ghost predicate FramesAllZero(table: map<string, int>) {
    forall key | key in table :: table[key] == 0
  }

  /** src/pagetable.cpp (class PageTable, declared in pagetable.h) */
  class PageTable {
    const pageSize: PageSize
    var table: map<string, int>

    /** src/pagetable.cpp:4-7 */
    constructor (pageSize: PageSize)
      ensures this.pageSize == pageSize && table == map[]
      ensures FramesAllZero(table)
    {
      this.pageSize := pageSize;
      table := map[];
    }

    /** src/pagetable.cpp:29-39: there is no frame search, the frame is always 0. */
    method AddEntry(pid: uint32, pageNumber: int32)
      modifies this
      ensures table == WithEntry(old(table), pid, pageNumber)
      ensures old(FramesAllZero(table)) ==> FramesAllZero(table)
    {
      var entry := Key(pid, pageNumber);
      var frame := 0;
      table := table[entry := frame];
    }

    /** src/pagetable.cpp:89-92 */
    function GetPageNumber(address: uint32): (page: int32)
      reads this
      ensures 0 <= page ==> page * pageSize <= address < (page + 1) * pageSize
      ensures pageSize > 1 ==> 0 <= page
    {
      PageNumberOf(address, pageSize)
    }

    /** src/pagetable.cpp:86: the size fixed at construction. */
    function GetPageSize(): (r: int32)
      ensures r > 0 && r == pageSize
    {
      pageSize
    }

    /**
     * src/pagetable.cpp:42-65: frame * page size + offset in page, where the frame is
     * the mapped one or 0 for an unmapped page.
     */
    function GetPhysicalAddress(pid: uint32, virtualAddress: uint32): (r: int)
      reads this
      ensures r % pageSize == virtualAddress % pageSize
      ensures r / pageSize == FrameOf(table, pid, GetPageNumber(virtualAddress))
    {
      var pageOffset := virtualAddress % pageSize;
      var pageNumber := GetPageNumber(virtualAddress);
      var frameNumber := if Key(pid, pageNumber) in table then table[Key(pid, pageNumber)] else 0;
      DivModOfMultiple(frameNumber, pageSize, pageOffset);
      frameNumber * pageSize + pageOffset
    }
  }

  /** With every frame 0, translation keeps only the offset within the page. */
  lemma TranslationIsPageOffset(pt: PageTable, pid: uint32, virtualAddress: uint32)
    requires FramesAllZero(pt.table)
    ensures pt.GetPhysicalAddress(pid, virtualAddress) == virtualAddress % pt.pageSize
  {
    var page := pt.GetPageNumber(virtualAddress);
    assert FrameOf(pt.table, pid, page) == 0;
  }

  /** When the pair is mapped to frame f, the physical address lies in frame f at the same offset. */
  lemma TranslationThroughMappedFrame(pt: PageTable, pid: uint32, virtualAddress: uint32, f: int)
    requires Key(pid, pt.GetPageNumber(virtualAddress)) in pt.table
    requires pt.table[Key(pid, pt.GetPageNumber(virtualAddress))] == f
    ensures pt.GetPhysicalAddress(pid, virtualAddress) == f * pt.pageSize + virtualAddress % pt.pageSize
  {
    var r := pt.GetPhysicalAddress(pid, virtualAddress);
    assert r == pt.pageSize * (r / pt.pageSize) + r % pt.pageSize;
  }
}
