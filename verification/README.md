# os-memsim core in Dafny

A model of the core of a small C++ memory simulator. The simulator gives each process a
private 64 MiB virtual address space that is split into pages. It keeps a list of
variable records per process and maps `(pid, page)` pairs to physical frames. The model
has eight modules:

- `MmuModel` (mmu.dfy) is the `Mmu` class of src/mmu.cpp. It is a Dafny `class` with:
  - a pid counter, starting at 1024;
  - a fixed per-process size;
  - an ordered `seq<Process>`, where each process owns an ordered `seq<Variable>` of
    records (name, type, address, size).

  Its methods are the source's loops. Each is proved against a specification function:
  `AppendVariable`, `FirstIndex`/`LastIndex` and `FreeSpaceLeftOnPage`.
- `PageTableModel` (pagetable.dfy) is the `PageTable` class of src/pagetable.cpp. It holds:
  - a `map<string, int>` keyed by the text `"pid|page"`, exactly as the source builds it;
  - the page-number and address-translation arithmetic.

  The model proves that distinct `(pid, page)` pairs give distinct keys.
- `Decimal` (decimal.dfy) is `std::to_string` of an `int`, which builds the page-table key.
- `Allocator` (allocator.dfy) is the first-fit scan of `allocateVariable`
  (src/main.cpp:203-312), written as functions over the MMU's process list and the page
  table's map:
  - the element-size table;
  - one visit of a record (`Visit`);
  - the scan (`AllocLoop`), whose contract states first fit;
  - the three segment allocations of `createProcess` (`SetUpSegments`).
- `Simulator` (simulator.dfy) is the same allocation path run imperatively on the `Mmu` and
  `PageTable` objects. `AllocateVariable`, `VisitRecord` and `AdvanceToNextPage` are proved
  against the `Allocator` functions, and `CreateProcess` against `SetUpSegments`.
- `Layout` (layout.dfy) proves what `createProcess` lays out for a new pid:
  - text at 0, globals right after it, stack right after those;
  - the free record after all three, whatever the page size.
- `Tokenizer` (tokenizer.dfy) is the three-state `splitString` tokenizer. It is proved
  against an independent definition of splitting on a delimiter, with quoting lemmas.
- `Machine` (machine.dfy) gives the C++ integer types: `uint32_t` and 32-bit `int` as
  integers with explicit wrap-around (`WrapU32`, `WrapI32`).

Points about the source that the model keeps as written:

- **Record identity.** The C++ code holds records by pointer. Here a record is a value, and
  its identity is its index in its process's list, which only ever grows.
  - `allocateVariable` iterates over a copy of the pointer vector taken at line 212. The scan
    therefore visits only the records that existed when it started (`Snapshot`).
  - It writes the split free record through that pointer (lines 246-247, 261-262 and
    280-281). That write changes record `i` of the FIRST process with the pid, because
    `getVariables` returns the first match.
  - `addVariableToProcess` appends to the LAST process with the pid, because its search
    loop has no `break`.
- **Stray records.** An iteration that does not break appends a record named like the new
  variable at the visited record's address (line 300). If the visited record is free, it
  also adds a page-table entry (line 296). When the page skip leaves too little room, it
  appends one more record first (line 290).
- **32-bit arithmetic.** `getFreeSpaceLeftOnPage` subtracts `uint32_t` sizes from an
  `int`, so each step is computed modulo 2^32 and stored back into an `int`. The byte
  size `num_elements * elementSize` wraps modulo 2^32.
- **The branch with too little room on the page** (lines 253-292) has three outcomes:
  - When the room is a whole number of elements, the loop at lines 255-258 does not run,
    and the variable goes where the free record starts.
  - When the room is at least one element but not a whole number of them, that loop never
    changes its guard. It touches only local variables, so C++ lets the compiler assume it
    terminates, and the program's behaviour from there is undefined. The model ends the scan
    with the outcome `Diverges`.
  - When the room is less than one element, lines 275-278 step to the next page. The model
    proves the loop ends and gives its closed form (`SkipPage`).

  When the text and globals fit, the stack of `createProcess` (65536 bytes) takes the
  first of these paths whenever the page size is below 65536, so the branch is modelled
  rather than excluded.

With 4096-byte pages, `create 200 100` puts the text at [0, 200), the globals at
[200, 300) and the 65536-byte stack at [300, 65836). A following `allocate <pid> x int 1`
therefore places x at 65836 (`Layout.FirstVariableAfterSegments`).

## Model

| member | source | states |
|---|---|---|
| Decimal.NatToDecimal | src/pagetable.cpp:32 | `std::to_string` of the `uint32_t` pid: at least one character, every one a decimal digit. |
| Decimal.IntToDecimal | src/pagetable.cpp:32 | `std::to_string` of an `int`: starts with '-' exactly when the value is negative, and digits follow. |
| Decimal.DecimalRoundTrip | src/pagetable.cpp:32 | Reading back the digits printed for a number gives the number. |
| Decimal.IntToDecimalInjective | src/pagetable.cpp:50 | Distinct integers never print the same. |
| PageTableModel.KeyInjective | src/pagetable.cpp:32 | Two lookup keys are equal only if they come from the same pid and the same page. |
| PageTableModel.WithEntry | src/pagetable.cpp:38 | After the store, the key maps to frame 0. The key set grows by exactly that key, and every other `(pid, page)` pair keeps its presence and frame. |
| PageTableModel.WithEntryIdempotent | src/pagetable.cpp:29-39 | Adding the same entry twice has the effect of adding it once. |
| PageTableModel.PageNumberOf | src/pagetable.cpp:89-92 | The page number `p` satisfies `p*ps <= a < (p+1)*ps`. It is negative only for page size 1 and an address at or above 2^31, where the `int` wraps. |
| PageTableModel.PageTable.constructor | src/pagetable.cpp:4-7 | Fixes the page size and starts with an empty table, all of whose frames are trivially 0. |
| PageTableModel.PageTable.AddEntry | src/pagetable.cpp:29-39 | The new table is the old one with the key for `(pid, page)` set to frame 0. All frames stay 0. |
| PageTableModel.PageTable.GetPageNumber | src/pagetable.cpp:89-92 | The page containing the address; non-negative for every page size above 1. |
| PageTableModel.PageTable.GetPageSize | src/pagetable.cpp:86 | Always the page size fixed at construction, which is positive. |
| PageTableModel.PageTable.GetPhysicalAddress | src/pagetable.cpp:42-65 | The result has the virtual address's in-page offset. Its quotient by the page size is the mapped frame of `(pid, page)`, or 0 when the pair is unmapped. |
| PageTableModel.TranslationIsPageOffset | src/pagetable.cpp:53-61 | While every frame is 0, which is all `addEntry` stores, translation returns the in-page offset. |
| PageTableModel.TranslationThroughMappedFrame | src/pagetable.cpp:55-61 | A pair mapped to frame f translates to `f * page_size + va % page_size`. |
| MmuModel.FirstIndex | src/mmu.cpp:101-104 | The index of the first process with the pid, or -1 when none has it. |
| MmuModel.LastIndex | src/mmu.cpp:35-41 | The index of the last process with the pid (the search does not break), or -1. |
| MmuModel.VariablesOfFirst | src/mmu.cpp:98-110 | `getVariables` answers the record list of the first process with the pid, whichever later process shares it, and the empty list for an unknown pid. |
| MmuModel.AppendVariable | src/mmu.cpp:31-52 | For a known pid, only the last process with that pid changes: it gains the record at the end. An unknown pid changes nothing. |
| MmuModel.FreeSpaceLeftOnPage | src/mmu.cpp:112-137 | Never negative, and 0 for an unknown pid. Without 32-bit wrap, it is the page size minus the bytes of the non-free records that start on the page, clamped at 0. |
| MmuModel.FreeSpaceLeftBounded | src/mmu.cpp:126-130 | Without wrap, the room on a page lies between 0 and the page size. |
| MmuModel.CountsOnPageWithin | src/mmu.cpp:118-119 | For a non-negative page number, a record is subtracted exactly when it is not `<FREE_SPACE>` and its start lies in `[page * ps, (page + 1) * ps)`. |
| MmuModel.UsedOnPageAbsent | src/mmu.cpp:114-121 | An unknown pid has no bytes counted on any page. |
| MmuModel.SpillDoesNotCount | src/mmu.cpp:118-119 | Adding a record that does not start on the page leaves that page's counted bytes and its room unchanged. This covers a record that starts on an earlier page and spills onto this one. |
| MmuModel.UsedOnPageAppend | src/mmu.cpp:118-121 | Appending a record to a known pid adds exactly its size to the page's counted bytes when it counts there, and nothing otherwise. |
| MmuModel.SpaceLeftStep | src/mmu.cpp:118-121 | One step of the inner loop keeps the running 32-bit difference equal to the wrapped page size minus the bytes counted so far. |
| MmuModel.SubtractOnPage | src/mmu.cpp:117-122 | After one process's records, the 32-bit running value equals its start minus that list's counted bytes, wrapped. |
| MmuModel.IncreasingPidsAreUnique | src/mmu.cpp:13-29 | While the pids are increasing (the counter has not wrapped), no pid is listed twice: the first and last process with it coincide. |
| MmuModel.Mmu.constructor | src/mmu.cpp:3-7 | The counter starts at 1024, the `int` size is stored as `uint32_t`, and there are no processes. |
| MmuModel.Mmu.CreateProcess | src/mmu.cpp:13-29 | Returns the counter and increments it by one, modulo 2^32. Appends a process holding one `<FREE_SPACE>` record at 0 of the full size and leaves every earlier process unchanged. The returned pid is new, and pids stay increasing while the counter does not wrap. |
| MmuModel.Mmu.AddVariableToProcess | src/mmu.cpp:31-52 | The process list becomes `AppendVariable` of the old one and the record. Nothing else changes. |
| MmuModel.Mmu.FindProcess | src/mmu.cpp:83-90 | True exactly when some process has the pid. |
| MmuModel.Mmu.GetVariables | src/mmu.cpp:98-110 | The records of the first process with the pid, or the empty list for an unknown pid. |
| MmuModel.Mmu.GetFreeSpaceLeftOnPage | src/mmu.cpp:112-137 | Returns `FreeSpaceLeftOnPage` of the current processes, whose properties are stated above. |
| Allocator.ElementSize | src/main.cpp:214-232 | Every element size is 1, 2, 4 or 8 bytes, so each divides 2^32. |
| Allocator.RequestSize | src/main.cpp:214-232 | The request is `num_elements * elementSize` when that fits in 32 bits. It is always a whole number of elements, even after wrapping. |
| Allocator.WriteRecord | src/main.cpp:246-247 | The write through the copied pointer keeps every process and its pid in place. |
| Allocator.AppendKeepsSnapshot | src/main.cpp:212 | Appending records keeps the copied records as the first records of the first process with the pid, so the scan's copy stays valid. |
| Allocator.PageStop | src/main.cpp:275-278 | The first address after the address's page, capped at 2^32: strictly above the address. |
| Allocator.SkipPage | src/main.cpp:275-278 | The loop's result: the first page boundary above the address (a multiple of the page size less than one page beyond it), or 0 once the 32-bit address wraps; never the address it started from. The free size is reduced by the same distance modulo 2^32. |
| Allocator.ShrunkRecord | src/main.cpp:246-247 | The free record keeps its name and type, and its size loses exactly the request. Without wrap, its start moves up by exactly the request. |
| Allocator.FitsAtStart | src/main.cpp:245-258 | For a `Char` request the room test at lines 245 and 253-255 passes exactly when the page has any room left or the request is empty. |
| Allocator.PlaceOthers | src/main.cpp:246-248 | The split writes and appends records of the requesting pid only: every other process is unchanged and the pids stay in place. |
| Allocator.PassOthers | src/main.cpp:290-300 | The stray appends of an iteration that goes on change no process of another pid and keep the pids in place. |
| Allocator.Echo | src/main.cpp:249-251 | An address is printed only for a placement, and it is the placed address; the three segment names are never printed, and every other placed name is. |
| Allocator.Visit | src/main.cpp:234-301 | One loop iteration. When the scan goes on, the copied records are still in place and the same pids are listed. |
| Allocator.VisitShape | src/main.cpp:234-301 | One iteration ends in one of four ways: it diverges; it places at the free record's start; it places at the next page's start; or it passes on after appending the stray records and, for a free record, adding the page entry. |
| Allocator.PlaceProcsLeaves | src/main.cpp:246-248 | After a split, the copied records read as before except the split one, now shrunk. The last process with the pid ends with the new variable. |
| Allocator.VisitFirstFit | src/main.cpp:234-301 | An iteration that goes on has passed a record that cannot hold the request; if that record was large enough, its page had less room than one element and than the request at that moment. One that stops either diverges or places into the record it visited. |
| Allocator.VisitTouchesOnlyPid | src/main.cpp:234-301 | One iteration changes only processes and page-table entries of the requesting pid, and adds only frame-0 entries. |
| Allocator.AllocLoop | src/main.cpp:234-301 | The scan is first fit. A placement goes into a free record large enough for the request, at its start or the next page's start, and every record visited before it was passable. The split leaves the shrunk free record and the new variable last. A scan that runs out passed every record and left the copy in place. Only the pid's processes and entries change. |
| Allocator.AllocLoopUnfold | src/main.cpp:234-301 | The scan from record `i` is the visit of record `i`, followed by the scan from `i + 1` when that visit does not stop. |
| Allocator.Allocate | src/main.cpp:203-312 | For an unknown pid `getVariables` returns no record, the loop does not run, and nothing is placed, printed or changed. |
| Allocator.SetUpSegments | src/main.cpp:188-200 | The three segment allocations of `createProcess` change only processes and page-table entries of the new pid. |
| Allocator.AllocateFirstFit | src/main.cpp:203-312 | `allocateVariable` is first fit over the records the first process with the pid holds when the call starts. |
| Allocator.AllocateTouchesOnlyPid | src/main.cpp:203-312 | `allocateVariable` changes no process of another pid and keeps the pid order. It only adds page-table entries of the pid with frame 0, so all-zero frames stay all zero. |
| Simulator.AdvanceToNextPage | src/main.cpp:275-278 | The byte-by-byte loop ends, and its address and size are those of `SkipPage`. |
| Simulator.SamePageBeforeStop | src/main.cpp:275 | Every address before the page stop has the starting address's page number, so the loop's guard holds there. |
| Simulator.PageChangesAtStop | src/main.cpp:275 | At the page stop, wrapped to 32 bits, the page number differs, so the loop's guard fails there. |
| Simulator.SplitFreeRecord | src/main.cpp:246-248 | The processes become `PlaceProcs`: the free record is shrunk in place and the new variable is appended. |
| Simulator.VisitRecord | src/main.cpp:235-300 | One loop body on the objects matches `Visit`: the same outcome and the same new processes and page table. |
| Simulator.ScanStep | src/main.cpp:234-301 | One iteration on the objects is one step of the scan `AllocLoop`: a stop gives the scan's result, otherwise the scan from the next record on the new state gives the same result. |
| Simulator.AllocateVariable | src/main.cpp:203-312 | The outcome and the new MMU and page-table state are those of `Allocate`. The address is echoed only for a placement whose name is not `<TEXT>`, `<GLOBALS>` or `<STACK>`. |
| Simulator.CreateProcess | src/main.cpp:188-200 | Returns the next pid and increments the counter. The state is that of allocating `<TEXT>`, `<GLOBALS>` and a 65536-byte `<STACK>`, all Char and in that order, on the newly appended process. |
| Layout.PlaceAtFirst | src/main.cpp:242-252 | For a new pid, if the first record is free, large enough, and its page has room, the request goes to that record's start. The record shrinks from the front and the page table is untouched. |
| Layout.TextAtZero | src/main.cpp:193 | The text of a new process goes at address 0. |
| Layout.GlobalsAfterText | src/main.cpp:195 | The globals go right after the text. |
| Layout.StackAfterGlobals | src/main.cpp:197 | The stack goes right after the globals. |
| Layout.CreateProcessLayout | src/main.cpp:188-200 | For a new pid whose size holds all three segments, the three are laid back to back from 0, followed by the free record, for every page size. No page-table entry is added. |
| Layout.FirstVariableAfterSegments | src/main.cpp:242-251 | With 4096-byte pages, after `create 200 100` an `int` x goes to 65836 and that address is printed. |
| Tokenizer.SplitString | src/main.cpp:348-401 | The loop's result is `Split` of the text: the state machine run over the text, then the final emit. Empty text gives no tokens. |
| Tokenizer.Step | src/main.cpp:357-395 | One character emits at most the current token, and only when a word meets the delimiter or a quote closes. A delimiter between tokens changes nothing. The count of tokens emitted or pending grows by one exactly when a token starts. |
| Tokenizer.Run | src/main.cpp:354-396 | Tokens once emitted are never changed, and each character adds at most one token. |
| Tokenizer.Finish | src/main.cpp:397-400 | The final emit adds the open word or quote, and nothing when the scan is between tokens. |
| Tokenizer.Split | src/main.cpp:348-401 | A line never yields more tokens than it has characters. |
| Tokenizer.FieldsAreWords | src/main.cpp:358-382 | The reference fields are non-empty and contain no delimiter. Laid end to end, they are the text with its delimiters removed. |
| Tokenizer.BetweenYieldsFields | src/main.cpp:358-383 | Between tokens, quote-free text closed by a delimiter adds exactly its fields to the result and ends between tokens. |
| Tokenizer.WordYieldsFields | src/main.cpp:373-383 | Inside a word, quote-free text closed by a delimiter completes the word, adds the fields after it and ends between tokens. |
| Tokenizer.WordStartsFields | src/main.cpp:358-383 | Between tokens, quote-free text that starts with a word and is closed by a delimiter adds exactly its fields and ends between tokens. |
| Tokenizer.NoQuoteNoString | src/main.cpp:358-383 | Without a quote character the machine never enters a quoted segment. |
| Tokenizer.FinishIsDelimiter | src/main.cpp:397-400 | When no quote is open, the final emit gives what one more delimiter would give. |
| Tokenizer.SplitUnquoted | src/main.cpp:348-401 | Without quotes the tokens are exactly the fields. Runs of the delimiter give no empty token, no token holds the delimiter, and an unfinished last word is kept. |
| Tokenizer.QuotedRun | src/main.cpp:384-394 | Inside a quote, every character except the quote joins the token, the delimiter included. |
| Tokenizer.QuotedSegment | src/main.cpp:358-394 | A quoted segment met between tokens becomes one token without its quotes, possibly empty and possibly holding the delimiter. |
| Tokenizer.UnterminatedQuote | src/main.cpp:397-400 | A quote still open at the end of the text yields its token. |
| Tokenizer.FieldsThenQuoted | src/main.cpp:358-394 | Unquoted words closed by a delimiter and then a quoted segment give the words' fields followed by the segment as one token, and the scan goes on between tokens. |
| Tokenizer.SplitWordsThenQuoted | src/main.cpp:348-401 | A line such as `set 1024 s 0 "a b"` splits into the fields of its words followed by the quoted text without its quotes. |
| Tokenizer.WordTakesQuotes | src/main.cpp:373-383 | Inside a word every character except the delimiter joins the token, the quote included. |
| Tokenizer.QuoteInsideWord | src/main.cpp:358-383 | A quote opens a segment only at the start of a token: a word such as `ab"c` is emitted whole, quote included. |

## Left out

- Console output is not modelled as output.
  - `allocateVariable` prints the address; the model returns it as `echoed` instead.
  - `createProcess` prints the pid; the model returns it.
  - `Mmu::print`, `Mmu::printProcesses`, `PageTable::print` and `printStartMessage` only print.
- The command loop, argument parsing with `std::stoi`, and the 64 MiB `malloc` buffer are console I/O and raw memory. `splitString` fills a vector passed by reference; `Tokenizer.SplitString` returns it instead.
- `PageTable::sortedKeys` depends on a comparator in pagetable.h; pagetable.h is not part of this model.
- `setVariable`, `freeVariable` and `terminateProcess` have empty bodies. The coalescing, frame release and process removal their comments describe do not exist in the code.
- Several `Mmu` members declared in include/mmu.h have no definition in the source: `checkTotalSpace`, `removeProcess`, `getVariable`, `getVariableWithaddress`, `findVariable` and `freeVariable`.
- `addEntry` always stores frame 0, so there is no frame search and no claim about frame uniqueness.
- Destructors, and the records and processes that are never freed, are not modelled: records are values.
- `getFreeSpaceLeftOnPage` takes an `address` parameter that it never reads. The model keeps the parameter and ignores it, as the source does.
- Requests with type `FreeSpace` are excluded by a precondition. The command loop never issues one, and the element-size table leaves the size unset for it.
- `Diverges`: the loop at src/main.cpp:255-258 never changes its guard. C++ lets the compiler assume that a loop touching only local variables terminates, so the program's behaviour from there is undefined. The model ends the scan with `Diverges` and claims nothing about what follows.
- PageTableModel.PageNumberOf: for page size 1 and an address at or above 2^31, the source converts a floating-point value out of `int` range, which C++ leaves undefined. The model wraps it to 32 bits.
- PageTableModel.PageTable.GetPhysicalAddress: `frame_number * _page_size + page_offset` is computed without 32-bit overflow. This is harmless because every stored frame is 0.
- MmuModel.FreeSpaceLeftOnPage: the closed form (page size minus counted bytes, clamped at 0) is stated only when the counted bytes do not exceed the page size plus 2^31. Beyond that, the function computes the wrapped 32-bit value, but the contract only states that it is non-negative.
- MmuModel.FreeSpaceLeftBounded: the upper bound of the page size is proved only under the same no-wrap condition.
- MmuModel.IncreasingPidsAreUnique: pids are unique only until the `uint32_t` counter wraps after 2^32 - 1024 processes. MmuModel.Mmu.CreateProcess keeps the increasing-pids invariant only under that condition.
- PageTableModel.PageTable.constructor: the page size is the `std::stoi` of the first command-line argument and is not checked. The model requires it between 1 and 2^31 - 1. A page size of 0 divides by zero in `getPageNumber` and in `getFreeSpaceLeftOnPage`, and a negative one becomes a huge unsigned divisor at src/mmu.cpp:118; neither case is modelled.
- Allocator.AllocLoop: its contract characterises every passed record by `Passable`, a property of the record alone. It does not carry, along the scan, that the record's page had too little room at the moment of its visit; `Allocator.VisitFirstFit` states that per visit.
- Allocator.AllocateFirstFit: a passed record is characterised as one that cannot hold the request even after skipping to the next page. It is not characterised as "its page had no room", because the room changes during the scan: every non-breaking iteration appends a stray record that counts on its page.
- Layout.CreateProcessLayout: the layout is proved for a new pid with non-negative text and data sizes whose three segments fit in the process size. Sizes whose segments do not fit leave stray records and page-table entries and end the scan `Exhausted`; negative sizes become huge `uint32_t` element counts. Neither case is characterised.
- `splitString` works on the bytes of a `std::string`. The model works on `char` values and has no notion of encoding.
