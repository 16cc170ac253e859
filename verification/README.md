# LinApple: paged memory, sliced execution and BASIC live sync

A model of three parts of LinApple in which a simple idea hides behind an
implementation that is cached, cut into pieces or spread over memory, with
proofs that nothing of the simple idea is lost.

**Paged memory.** The emulated 64K that the processor sees is a write-back cache:
each of its 256 pages is a copy of some page of main RAM, auxiliary RAM, ROM or
slot ROM, a soft switch exchanges copies, and dirty marks say what must be
written back first. `Paging` states the machine as two pure maps, `PagedMemory`
and `MemoryMachine` the cache and all its accesses as functions, and
`MemoryBus.Memory` the emulator's own buffers, pointer tables and page loops as
a class whose every method is proved to compute those functions. The central
result is `MemoryMachine.RunRefines`: over every run of fetches, reads, writes,
pushes, card-ROM exchanges and soft resets the cached memory gives what a flat
bank-switched memory gives. `RepageAlgebra`, `HeldBack` and `HeldBackLimits`
decide exactly when the emulator's postponed page exchanges can be noticed,
`ExpansionRom` follows the $C800 ROM window through every run, and
`MemorySnapshot` says exactly when a snapshot keeps the memory.

**The processor.** `Slices` models the instruction loop around an arbitrary
instruction of 2 to 9 cycles and shows that a frame cut into slices anywhere is
the uncut frame. `CpuLoop.Cpu` is the loop itself, with its cycle counters,
handler calls that change them in the middle of an instruction, and the driver
that works a frame off slice by slice. `CpuCore`, `Interrupts`, `NmiLine` and
`Arithmetic` cover the status byte, the stack, interrupt entry and return, the
edge-triggered line shared by cards, and ADC and SBC of both processors.
Where a slice ends is stated exactly, wake-ups that handlers ask for on the way
included: `Slices.SliceTo` is that end, `CpuLoop.Cpu.ExecuteSlice` reaches it.

**BASIC live sync.** Applesoft text goes through a tokenizer into a chain of
records in memory and comes back through a lister. `Tokenizer`, `LineNumbers`,
`ProgramText`, `ProgramImage` and `ProgramSync` are the two directions as
functions, `StoredLines` says which bytes are a tokenized line; `LiveSync` has
the loops over text and memory, proved to compute them; `TextRoundTrips` and
`SyncRoundTrips` say what each direction undoes of the other,
as equivalences where the source does not always undo it.

Methods follow the source's loops and in-place updates; functions are what they
are proved against; lemmas are about those functions. What the functions themselves
mean is stated apart from them, by pages, addresses, bits and characters, in
`PagingLaws`, `SwitchLaws`, `SlotLaws`, `EntryLaws`, `ArithmeticLaws`, `CaseLaws`,
`TextLaws` and `SyncLaws`: which page each mode bit moves, what each soft switch does
to a store and a later read, where an interrupt goes, how a row of text comes apart.

## What the code does that its comments or intent do not say

- A snapshot takes each page of main and auxiliary memory from the live image
  when the page of the *same number* shows it (`src/apple2/Memory.cpp:938-950`).
  Bank 1 of the language card is stored $1000 below where it is shown, so its
  unsaved bytes are missed: `MemorySnapshot.SnapshotFaithful` and
  `MemorySnapshot.SnapshotKeepsReads` give the exact condition, and
  `MemorySnapshot.CardProgramIsNotSaved` a program of two instructions that meets
  it from power-on.
- A restore reloads $C800-$CFFF with internal ROM but leaves the record of what
  the window shows (`src/apple2/Memory.cpp:1408-1422`):
  `MemorySnapshot.RestoreOverwritesWindow` says exactly when the record is true
  afterwards, `MemorySnapshot.SlotProgramIsNotRestored` gives a program after
  which it is not.
- Postponing a switch relies on the store that the emulator sees ahead in memory
  being executed next (`src/apple2/Memory.cpp:1329-1342`). It need not be: in
  $C000-$CFFF an opcode is fetched through the I/O dispatch
  (`src/apple2/CPU.cpp:88-97`), and above that the access itself may bank the code
  away. For a language-card access postponing can never be told, in any state,
  exactly when both stores after it would be fetched below $C000, or the code is so
  near $FFFF that the emulator does not look ahead, or it starts at $C054, where the
  fetch itself is a switch access that applies what is pending
  (`HeldBackLimits.HeldBackIsInvisibleExactly`). For $C004 and $C005 it is exactly
  when the store is fetched outside $C000-$CFFF or at $C054-$C057
  (`HeldBackLimits.AuxWriteHeldBackExactly`).
- The three zero bytes that end a program are written without a look at HIMEM
  (`src/core/BasicLiveSync.cpp:452-457`). They stay below it exactly when
  TXTTAB + 2 < HIMEM, which the fix-ups before an import do not ensure:
  a HIMEM of $0400 moves TXTTAB to $0801, above it
  (`SyncRoundTrips.ImportStaysBelowHimem`, `SyncRoundTrips.LowHimemIsOverrun`).
- A row read by position whose text starts with its own row number loses that
  number (`src/core/BasicLiveSync.cpp:366-386`); this, an empty listing and one of
  more than 255 characters are the rows of tokenized lines that do not survive
  positional export: `TextRoundTrips.PositionalRowReadsBack`.
- Not every line in memory is one the tokenizer makes: Applesoft keeps the
  characters of a keyword as they are in a DATA statement, while the tokenizer makes
  a token of them wherever they stand outside quotes and remarks
  (`src/core/BasicLiveSync.cpp:277-311`). Such a line does not survive export and
  import in either mode: `TextRoundTrips.SpelledForIsLost` is an example,
  `StoredLines.ChosenExactly` says byte by byte which lines are safe.
- An access to $CFFF does not always release the expansion ROM: only a read through
  the I/O dispatch does, not a write (`src/apple2/Memory.cpp:594-603`) and not the
  fetch of an operand byte (`ExpansionRom.OnlyReadsRelease`).
- `peripheral_rom_slot` says that the window is a card's ROM, not whose: two cards
  may hold equal ROMs. The invariant is therefore stated from the slot to the
  window's bytes.

## Model

| member | source | states |
|---|---|---|
| Paging.OneHome | src/apple2/Memory.cpp:717-832 | whatever the switches say, a backing page can be read or written at one live page only, its home; bank 1 of $D0-$DF lives $1000 lower in the store |
| Paging.NoAliasing | src/apple2/Memory.cpp:717-832 | in any two modes distinct live pages are read from and written to distinct backing pages |
| Paging.BypassIsUnshadowed | src/apple2/Memory.cpp:725-832 | a write-table entry that points past the live image points to RAM that no live page shows |
| PagingLaws.Page2Moves | src/apple2/Memory.cpp:816-832 | PAGE2 moves, for reads and stores alike, exactly the text page $04-$07 and with HIRES the graphics pages $20-$3F under 80STORE, between main and auxiliary RAM |
| PagingLaws.AuxReadMoves | src/apple2/Memory.cpp:725-736 | RAMRD moves exactly what is read of pages $02-$BF that PAGE2 does not have, and no stores |
| PagingLaws.AuxWriteMoves | src/apple2/Memory.cpp:725-736 | RAMWRT moves exactly where stores to those pages go, and nothing that is read |
| PagingLaws.Store80Moves | src/apple2/Memory.cpp:816-832 | 80STORE changes exactly the display pages, and only where PAGE2 differs from RAMRD or RAMWRT |
| PagingLaws.HiresMoves | src/apple2/Memory.cpp:824-832 | HIRES does so for pages $20-$3F alone |
| PagingLaws.AltZpMoves | src/apple2/Memory.cpp:717-814 | ALTZP moves pages 0-1 and whatever of the language card is read from or stored to RAM |
| PagingLaws.HighRamMoves | src/apple2/Memory.cpp:765-814 | HIGHRAM shows RAM of the chosen bank or ROM at $D0-$FF, and changes no store |
| PagingLaws.BankMoves | src/apple2/Memory.cpp:765-814 | the bank switch moves exactly $D0-$DF where RAM is read, or stored to |
| PagingLaws.CardWriteMoves | src/apple2/Memory.cpp:765-814 | write enable lets stores to $D0-$FF reach card RAM even while ROM is read, and without it they are lost |
| PagingLaws.SlotPage | src/apple2/Memory.cpp:738-763 | $C0-$C7 show slot ROM with SLOTCXROM on, $C3 only with SLOTC3ROM as well, and internal ROM otherwise |
| PagingLaws.SlotCxRomMoves | src/apple2/Memory.cpp:738-763 | SLOTCXROM moves exactly those pages |
| PagingLaws.SlotC3RomMoves | src/apple2/Memory.cpp:738-763 | SLOTC3ROM moves exactly page $C3 while SLOTCXROM is on |
| PagingLaws.AllOffIsPlain | src/apple2/Memory.cpp:702-832 | with every bit off pages are main RAM, internal ROM and ROM under their own numbers |
| PagedMemory.ReloadIsFlat | src/apple2/Memory.cpp:837-848 | initialising loads a coherent image whose logical content is the stores as they were |
| PagedMemory.RepageConserves | src/apple2/Memory.cpp:834-849 | from any coherent image, any mode change restores coherence and keeps the logical content of every page of every bank |
| PagedMemory.RepageKeepsPage | src/apple2/Memory.cpp:837-848 | for any image, coherent or not, and any mode change: a backing page keeps its logical content if and only if it is not given up unsaved while differing from what it shadows |
| PagedMemory.CoherentLosesNothing | src/apple2/Memory.cpp:837-848 | in a coherent image no page is given up so |
| PagedMemory.FlushStep | src/apple2/Memory.cpp:838-847 | one turn of the page loop extends the part of the stores already written back, though it works in place |
| PagedMemory.FlushDone | src/apple2/Memory.cpp:838-847 | after the last turn the stores hold what the whole exchange should leave |
| PagedMemory.RepageForgetsHistory | src/apple2/Memory.cpp:834-849 | after an update the live image depends on the mode and the logical content only, not on how the switches got there |
| PagedMemory.PeekRefines | src/apple2/CPU.cpp:150-155 | a byte read from a coherent image is the flat memory's byte |
| PagedMemory.PokeRefines | src/apple2/CPU.cpp:157-165 | a store keeps coherence and changes exactly the mapped cell, or nothing where writing is blocked |
| PagedMemory.PushRefines | src/apple2/CPU.cpp:138-143 | a push, which sets no dirty mark, still keeps coherence and changes exactly the mapped cell of page 1 |
| MemoryMachine.DoRefines | src/apple2/Memory.cpp:1344-1374 | each copy of a ROM window and each page exchange of a switch access does to the cached memory what it does to the flat one |
| MemoryMachine.AccessRefines | src/apple2/Memory.cpp:161-209 | an access to $C000-$CFFF, decoded to a switch, the ROM reader or a card, refines the flat machine's |
| MemoryMachine.SwapRefines | src/apple2/Memory.cpp:979-991 | a card that exchanges its ROM page updates store and live page together, or the store only |
| MemoryMachine.DecodeSettles | src/apple2/Memory.cpp:1344-1374 | after any access the mode is applied to the tables or flagged as held back |
| MemoryMachine.StepRefines | src/apple2/CPU.cpp:138-165 | every operation keeps the cache invariant and gives the flat machine's new state and output |
| MemoryMachine.RunRefines | src/apple2/CPU.cpp:138-165 | over every run, from every coherent state, of fetches, reads, writes, pushes, card-ROM exchanges and soft resets the paged machine has the outputs and the final contents of the flat bank-switched one |
| MemoryMachine.RomNeverChanges | src/apple2/Memory.cpp:702-849 | no run changes a byte of ROM, though ROM pages pass through the same cache and are written back |
| MemoryMachine.PowerOnIsCoherent | src/apple2/Memory.cpp:1202-1228 | the state after a power-on load satisfies the invariant the runs start from |
| SwitchLaws.CardSwitchMeans | src/apple2/Memory.cpp:1257-1274 | each of the sixteen switches $C080-$C08F: a read of $D000-$FFFF sees RAM for 0 and 3 of every four, a store reaches RAM after the odd ones, the first eight choose bank 2 |
| SwitchLaws.LastWriteFollowsTheCard | src/apple2/Memory.cpp:1257-1274 | the last-write flag is set by the odd card switches, cleared by the even ones and left alone by all others |
| SwitchLaws.OtherForm | src/apple2/Memory.cpp:1275-1327 | on a //e addresses that belong to no pair change no bit of the mode |
| SwitchLaws.PlainForm | src/apple2/Memory.cpp:1275-1327 | on a II or II Plus none below $C080 does |
| SwitchLaws.ResetShows | src/apple2/Memory.cpp:696-700 | after a reset: main RAM, slot ROM but for $C3, ROM, and stores to card RAM bank 2 |
| SwitchLaws.ResetResets | src/apple2/Memory.cpp:696-700 | a reset applies that mode and clears the last-write flag, and leaves memory and the window alone |
| SwitchLaws.SwitchesAddUp | src/apple2/Memory.cpp:1251-1374 | any run of switch accesses changes no RAM or ROM and ends with the mode they make together applied |
| SwitchLaws.StoreThenRead | src/apple2/CPU.cpp:150-165 | in the cached machine, with any switches worked before a store and before a read: the byte comes back if and only if the store went where the read looks |
| SwitchLaws.CardRun | src/apple2/Memory.cpp:1257-1274 | for all 256 pairs of language-card switches: stored after one and read after the other, a byte comes back exactly when the first enables stores, the second reads RAM and both choose one bank |
| SwitchLaws.AuxRun | src/apple2/Memory.cpp:1275-1327 | stored under one RAMWRT setting and read under one RAMRD setting, a byte comes back exactly when they agree |
| SwitchLaws.ZeroPageRun | src/apple2/Memory.cpp:1275-1327 | likewise for ALTZP in pages 0 and 1 |
| SwitchLaws.DisplayRun | src/apple2/Memory.cpp:816-832 | a byte stored under one PAGE2 setting is missed under the other exactly in the pages that 80STORE and HIRES cover |
| SwitchLaws.PlainRun | src/apple2/Memory.cpp:1275-1327 | on a II or II Plus a byte always comes back |
| SwitchLaws.PowerOnReads | src/apple2/Memory.cpp:1182-1228 | what every address reads as after power-on, the stripes FF FF 00 00 included |
| MemoryBus.Memory.constructor | src/apple2/Memory.cpp:1182-1228 | ROM halves, RAM fill pattern and tables after power-on |
| MemoryBus.Memory.BuildTables | src/apple2/Memory.cpp:702-832 | the table-building assignments yield the two pure maps for the mode in force |
| MemoryBus.Memory.BuildMainTables | src/apple2/Memory.cpp:725-736 | read and write tables of pages 2-$BF before 80STORE, and no other entry changes |
| MemoryBus.Memory.BuildSlotTables | src/apple2/Memory.cpp:738-763 | shadow entries of $C0-$CF by SLOTCXROM and SLOTC3ROM |
| MemoryBus.Memory.BuildCardTables | src/apple2/Memory.cpp:765-814 | read and write tables of $D0-$FF, with bank 1 moved down and write protection as null |
| MemoryBus.Memory.ApplyStore80 | src/apple2/Memory.cpp:816-832 | 80STORE overrides both tables for the text page and, with HIRES, the graphics page |
| MemoryBus.Memory.ExchangePage | src/apple2/Memory.cpp:838-847 | one turn of the in-place loop: write back if dirty or in pages 0-1, then load, with the part not yet visited untouched |
| MemoryBus.Memory.UpdatePaging | src/apple2/Memory.cpp:702-849 | tables, live image, stores and dirty marks after an update are those of the pure exchange |
| MemoryBus.Memory.SetPaging | src/apple2/Memory.cpp:1251-1374 | the whole state after a switch access: mode, hold-back decision on the code at PC, ROM window, page exchange |
| MemoryBus.Memory.SetMode | src/apple2/Memory.cpp:1256-1327 | the switch cases: each sets its mode bits, language-card accesses three of them and the last-write flag |
| MemoryBus.Memory.ApplyChange | src/apple2/Memory.cpp:1344-1374 | nothing happens unless the mode changed or was pending; otherwise window flip and update |
| MemoryBus.Memory.ReadCx | src/apple2/Memory.cpp:483-592 | window registers, live window and returned byte after a read of $C100-$CFFF |
| MemoryBus.Memory.TouchSlots | src/apple2/Memory.cpp:508-559 | selection by slot ROM access and answering of the window with slot ROMs on |
| MemoryBus.Memory.ReleaseWindow | src/apple2/Memory.cpp:486-504 | what an access to $CFFF releases |
| MemoryBus.Memory.TouchInternal | src/apple2/Memory.cpp:561-585 | the same with internal ROM on |
| MemoryBus.Memory.RefreshCxPage | src/apple2/Memory.cpp:979-991 | the live page follows the card's new page only while it shadows that page |
| MemoryBus.Memory.ReadByte | src/apple2/CPU.cpp:150-155 | a processor read is the machine's read step, state and value |
| MemoryBus.Memory.FetchByte | src/apple2/CPU.cpp:185-240 | an operand or pointer byte read straight from the live image is the machine's fetch step, in the I/O area too |
| MemoryBus.Memory.WriteByte | src/apple2/CPU.cpp:157-165 | a processor write is the machine's write step |
| MemoryBus.Memory.PushAt | src/apple2/CPU.cpp:138-143 | a push is the machine's push step |
| MemoryBus.Memory.ResetPaging | src/apple2/Memory.cpp:696-700 | the reset mode is applied, by loading or by exchange |
| MemoryBus.Memory.GetSnapshot | src/apple2/Memory.cpp:1391-1406 | the snapshot has, page by page, what the saver finds |
| MemoryBus.Memory.SetSnapshot | src/apple2/Memory.cpp:1408-1422 | the restored state, with nothing pending |
| RepageAlgebra.RepageTwice | src/apple2/Memory.cpp:838-847 | two exchanges in a row are one, stores and dirty marks included, when no page moves in both |
| HeldBack.FetchIsStep | src/apple2/CPU.cpp:88-97 | the compared machines fetch an opcode as the memory machine reads: from the live image, at $C000-$CFFF through the dispatch, with any byte where ports, cards or the floating bus answer |
| HeldBack.CardReadIsStep | src/apple2/CPU.cpp:150-155 | their language-card accesses are its reads |
| HeldBack.StoreIsStep | src/apple2/CPU.cpp:157-165 | their stores to switches are its writes |
| HeldBack.HeldBackIsInvisible | src/apple2/Memory.cpp:1329-1374 | where fetching the stores ahead is safe and no interrupt comes between, live image, stores, dirty marks and control state after the group are those of a machine that applies each switch at once, whatever the bus answers |
| HeldBackLimits.StoreIsMissed | src/apple2/CPU.cpp:88-97 | a store that the look-ahead sees in $C000-$CFFF, outside $C054-$C057, but the fetch does not find leaves the paging out of date |
| HeldBackLimits.SecondIsMissed | src/apple2/Memory.cpp:1337-1342 | the second store of a group can be missed so when the first lies at $BFFD-$BFFF or $C055-$C057 |
| HeldBackLimits.StoreIsLost | src/apple2/Memory.cpp:1337-1342 | a store in ROM from $D000 on that the access banks away is executed by the postponing machine only |
| HeldBackLimits.HeldBackIsInvisibleExactly | src/apple2/Memory.cpp:1337-1342 | postponing language-card accesses can never be told, in any state the invariants allow and for any answers of the bus, if and only if PC + 3 lies below $C000, or PC is $C054 or beyond $FFFC |
| HeldBackLimits.AuxWriteHeldBackExactly | src/apple2/Memory.cpp:1332-1336 | postponing RAMWRT can never be told if and only if PC lies outside $C000-$CFFF or in $C054-$C057 |
| ExpansionRom.StartsHonest | src/apple2/Memory.cpp:607-636 | the window invariant holds in the state the machine starts with |
| ExpansionRom.WindowStaysHonest | src/apple2/Memory.cpp:483-592 | over every run: type PERIPHERAL iff a slot is recorded, then the live window is that slot's ROM; type INTERNAL means the internal ROM; SLOTCXROM off on a //e means type INTERNAL |
| ExpansionRom.ReleaseReaches | src/apple2/Memory.cpp:486-504 | a read of $CFFF with slot ROMs on clears every selection and the window |
| ExpansionRom.OnlyReadsRelease | src/apple2/Memory.cpp:594-603 | with slot ROMs on, an access to $CFFF leaves the window released if and only if it is a read through the I/O dispatch or the window was released already; a write or an operand fetch releases nothing |
| ExpansionRom.ReleasedWindowFloats | src/apple2/Memory.cpp:587-592 | from then on reads of the window float, however many, until a slot ROM is touched |
| ExpansionRom.LowestSlotAnswers | src/apple2/Memory.cpp:525-546 | with several slots selected the lowest one answers, with its byte |
| SlotLaws.OtherPortsDoNothing | src/apple2/Memory.cpp:161-209 | $C000-$C00B work a switch to a store only, $C054-$C057 and $C080-$C08F to any access, and no other port at all |
| SlotLaws.StoresToSlotsDoNothing | src/apple2/Memory.cpp:594-603 | a store to $C100-$CFFF changes nothing |
| SlotLaws.TouchSelects | src/apple2/Memory.cpp:508-521 | with slot ROM on a read of slot k's page selects its expansion ROM if and only if there is one to show, else internal ROM unless SLOTC3ROM is on, and changes nothing else |
| SlotLaws.TouchSelectsInternal | src/apple2/Memory.cpp:561-572 | with internal ROM on every read of $C100-$C7FF selects it |
| SlotLaws.SlotPageRead | src/apple2/Memory.cpp:180-205 | a read of a slot's page gives its ROM byte, or internal ROM's, unless a card answers for itself |
| SlotLaws.WindowAfterTouch | src/apple2/Memory.cpp:508-559 | after a release and a touch of slot k's page the window answers from its expansion ROM, from internal ROM as after PR#3, or floats |
| SlotLaws.ShownRomStays | src/apple2/Memory.cpp:525-559 | reading the window changes nothing while it shows what is selected |
| SlotLaws.SlotCxRomFlipsTheWindow | src/apple2/Memory.cpp:1347-1371 | $C007 puts internal ROM into the window and $C006 empties it |
| SlotLaws.ReleaseEmptiesTheWindow | src/apple2/Memory.cpp:486-504 | so does a read of $CFFF with slot ROM on |
| MemorySnapshot.SnapshotFaithful | src/apple2/Memory.cpp:1391-1422 | saving and restoring into any machine, at any time, a switch held back or not, keeps every main and auxiliary byte if and only if no unsaved page of bank 1 is shown |
| MemorySnapshot.SnapshotKeepsReads | src/apple2/Memory.cpp:1391-1422 | restored into a machine with the same ROMs: mode, last-write flag, coherence and ROM are kept in any case; a page outside $C800-$CFFF reads as it would once a held-back mode is applied, unless it shows unsaved bank-1 bytes before and after; with nothing held back all of them read as before under the same condition exactly |
| MemorySnapshot.SnapshotKeepsLaterReads | src/apple2/Memory.cpp:1391-1422 | under every mode applied later, as when a held-back group is finished, both machines read alike outside $C800-$CFFF if and only if no unsaved page of bank 1 was shown |
| MemorySnapshot.RestoredStores | src/apple2/Memory.cpp:938-950 | what each page of the restored memory holds, by the saver's choice of page |
| MemorySnapshot.CardProgramIsNotSaved | src/apple2/Memory.cpp:938-950 | reading $C08B and storing a non-zero byte at $D000 from power-on reaches a state whose snapshot loses that byte |
| MemorySnapshot.RestoreOverwritesWindow | src/apple2/Memory.cpp:1408-1422 | a restore always leaves internal ROM in the live window, and the control state is true of the window afterwards if and only if it records no card (or one whose ROM equals it) and agrees with the restored SLOTCXROM |
| MemorySnapshot.SlotProgramIsNotRestored | src/apple2/Memory.cpp:1408-1422 | reading $C100 and $C800 with a card in slot 1 reaches a state whose restore makes the record of the window false |
| CpuCore.UnpackAfterPack | src/apple2/CPU.cpp:125-136 | unpacking what was packed gives the same flags back, whatever spelling of N and Z the loop had |
| CpuCore.PackAfterUnpack | src/apple2/CPU.cpp:125-136 | packing what was unpacked gives the status byte with its two constant bits set |
| CpuCore.PackTwice | src/apple2/CPU.cpp:125-136 | packing equal flags again changes nothing |
| CpuCore.LastInFirstOut | src/apple2/CPU.cpp:138-148 | up to 256 bytes pushed are popped in reverse order, across the wrap of page 1, with the stack pointer back where it was |
| CpuCore.PageOverflows | src/apple2/CPU.cpp:138-148 | a 257th byte overwrites the first: 256 is the exact bound |
| Interrupts.InterruptIsInvisible | src/apple2/CPU.cpp:835-865 | a polled NMI or IRQ whose handler balances the stack, itself interrupted to any depth, restores PC, SP, all status bits and the bytes above the stack pointer |
| Interrupts.EntryResumes | src/apple2/CPU.cpp:431-436 | entry by any vector, a stack-balanced body and RTI restore the same, including D, which the CMOS entry clears |
| Interrupts.LevelActsKeepStack | src/apple2/CPU.cpp:454-470 | every sequence of pushes, pulls and nested interrupts of one level leaves the view of the stack below it alone |
| Interrupts.BrkReturns | src/apple2/CPU.cpp:438-449 | BRK and RTI around a balanced handler resume behind the signature byte with SP, status and the bytes above the stack pointer restored |
| Interrupts.RtsReturns | src/apple2/CPU.cpp:420-430 | a subroutine that balances the stack returns behind the JSR, with SP and the bytes above it restored |
| Interrupts.NmiMasksIrq | src/apple2/CPU.cpp:836-865 | an NMI just entered keeps the IRQ poll after it from entering too |
| EntryLaws.StatusLayout | src/apple2/CPU.cpp:125-136 | N, V, Z and C are bits 7, 6, 1 and 0 of the status byte, bits 5 and 4 are set, D and I stay |
| EntryLaws.LooksAtFlags | src/apple2/CPU.cpp:125-136 | an instruction is shown each flag from its bit |
| EntryLaws.EntryGoesToVector | src/apple2/CPU.cpp:836-865 | an entry continues at the word in its vector, low byte first, with I set and D clear on CMOS only, PC and status pushed with the break bit for BRK only, and nothing else changed |
| EntryLaws.BrkGoes | src/apple2/CPU.cpp:438-449 | BRK goes through $FFFE with the address behind its signature byte pushed |
| EntryLaws.JsrGoes | src/apple2/CPU.cpp:420-425 | JSR goes to its target and pushes the address before the next instruction's |
| EntryLaws.RtiGoes | src/apple2/CPU.cpp:431-436 | RTI takes the status with bits 5 and 4 set and then the address, and changes nothing else |
| EntryLaws.RtsGoes | src/apple2/CPU.cpp:426-430 | RTS takes the address and goes one further |
| EntryLaws.TurnGoes | src/apple2/CPU.cpp:3752-3764 | a turn goes through $FFFA with an edge latched, else through $FFFE with the line pulled and I clear, else where the instruction went; an interrupt adds seven cycles |
| Slices.TurnCost | src/apple2/CPU.cpp:3752-3764 | a turn, interrupts included, costs 2 to 16 cycles |
| Slices.TurnInStep | src/apple2/CPU.cpp:3745-3767 | packed and unpacked status agree after every turn |
| Slices.CutIsInvisible | src/apple2/CPU.cpp:3745-3767 | leaving and entering the loop between two turns changes nothing that follows |
| Slices.SplitRun | src/apple2/CPU.cpp:3745-3767 | a batch stopped at any bound and taken up again is the whole batch |
| Slices.SlicesMakeTheFrame | src/apple2/CPU.cpp:3820-3854 | any sequence of slice bounds up to the frame's ends in the same registers, memory, flags and cycle count as the uncut frame |
| Slices.EndsAtFirstBoundary | src/apple2/CPU.cpp:3752-3764 | an uncut batch ends at the first instruction boundary at or after its bound, at most 15 cycles past it, or after one turn if the bound is behind |
| Slices.CallIsHeard | src/apple2/CPU.cpp:3825-3839 | a call for service at a cycle lowers the bound to it, whatever calls surround it |
| Slices.NothingElseIsHeard | src/apple2/CPU.cpp:3825-3839 | and nothing but the least of the wake-ups lowers a bound |
| Slices.SliceEndsAtFirstBoundary | src/apple2/CPU.cpp:3752-3764 | a slice ends after the first turn whose count is up to the bound then in force, lowered by every handler so far, and no later than 15 cycles past the bound after each turn on the way, or 16 past the count that turn started from |
| Slices.WakeUpsAreMet | src/apple2/CPU.cpp:3820-3854 | so every wake-up asked for in a turn of the slice is overshot by at most 15 cycles, or one turn if it is already behind |
| Slices.ServedInTime | src/core/LinAppleCore.cpp:411-427 | between the points where the driver serves cards, a wake-up some card wants is overshot by at most 15 cycles, or one turn if it is already behind |
| Slices.SliceIsPartOfTheFrame | src/apple2/CPU.cpp:3820-3854 | finishing the frame from wherever handlers made the slice end is finishing it from the start |
| CpuLoop.Cpu.Push | src/apple2/CPU.cpp:138-143 | the byte lands in page 1 and SP, which never leaves $0100-$01FF, steps down or wraps |
| CpuLoop.Cpu.Pop | src/apple2/CPU.cpp:145-148 | SP steps up or wraps, and the byte there is returned |
| CpuLoop.Cpu.EnterHandler | src/apple2/CPU.cpp:836-865 | the entry code pushes PC and status, sets I, clears D on CMOS and takes the vector |
| CpuLoop.Cpu.OpRti | src/apple2/CPU.cpp:431-436 | RTI pulls status and PC |
| CpuLoop.Cpu.OpBrk | src/apple2/CPU.cpp:438-449 | BRK pushes the address behind its signature byte with B set, and enters |
| CpuLoop.Cpu.OpJsr | src/apple2/CPU.cpp:420-425 | JSR pushes the return address less one |
| CpuLoop.Cpu.OpRts | src/apple2/CPU.cpp:426-430 | RTS pulls it and adds one |
| CpuLoop.Cpu.CalcCycles | src/apple2/CPU.cpp:3796-3800 | a handler's synchronisation advances both counters alike, so that the frame's start stays where it is |
| CpuLoop.Cpu.LimitCycles | src/apple2/CPU.cpp:3825-3839 | the bound is lowered to the wake-up but not below the cycles done, and only inside a slice |
| CpuLoop.Cpu.HandlerCalls | src/apple2/CPU.cpp:3796-3839 | after any calls of an instruction's handlers the bound is the old one lowered by all their wake-ups, up to bounds already passed, and in an uncut batch the old one |
| CpuLoop.Cpu.OneTurn | src/apple2/CPU.cpp:3752-3764 | with any handler calls in the middle of it, a turn is the abstract turn, leaves the bound lowered by just those calls and keeps the frame's start |
| CpuLoop.Cpu.ExecuteLoop | src/apple2/CPU.cpp:3745-3767 | the loop, which reads the bound anew each turn, ends exactly where the bounds as lowered on the way say, and in an uncut batch at the bound given |
| CpuLoop.Cpu.Execute | src/apple2/CPU.cpp:3807-3818 | one batch: its end state and the cycles it adds to the total |
| CpuLoop.Cpu.ExecuteSlice | src/apple2/CPU.cpp:3841-3854 | one slice ends exactly at the abstract slice's end, for the frame's bound lowered by `until` and by every handler; with progress of at least 2 cycles, the overshoot of frame and `until` bounded, cycles counted once, and the rest of the frame unaffected |
| CpuLoop.Cpu.RunCycles | src/core/LinAppleCore.cpp:411-427 | the driver's loop over slices terminates in the state and with the cycle total of one uncut batch, each slice ending where some card then next wants service |
| Arithmetic.AdcIsExact | src/apple2/CPU.cpp:491-561 | one ADC on either processor, binary or valid decimal, is exact with its carry and keeps digits valid |
| Arithmetic.SbcIsExact | src/apple2/CPU.cpp:563-638 | so is one SBC with its inverted borrow |
| Arithmetic.AdcBinaryFlags | src/apple2/CPU.cpp:491-561 | in binary mode V is signed overflow, N the sign and Z zero of the result |
| Arithmetic.SbcBinaryFlags | src/apple2/CPU.cpp:563-638 | likewise for SBC |
| Arithmetic.ProcessorsAgree | src/apple2/CPU.cpp:491-638 | both processors give the same byte and carry |
| Arithmetic.SbcUndoesAdc | src/apple2/CPU.cpp:491-638 | an SBC undoes the ADC before it, carry included |
| ArithmeticLaws.NmosFlagsAreBinary | src/apple2/CPU.cpp:491-592 | on NMOS decimal mode leaves N, V and Z as in binary, for any bytes |
| ArithmeticLaws.CmosFlagsAreOfResult | src/apple2/CPU.cpp:522-638 | on CMOS N and Z are those of the result byte in either mode |
| ArithmeticLaws.CmosSumOverflows | src/apple2/CPU.cpp:522-561 | CMOS V after a decimal ADC of digits: operands agree in bit 7 and the sum is 80 or more |
| ArithmeticLaws.CmosDifferenceOverflows | src/apple2/CPU.cpp:594-638 | after a decimal SBC: they differ in bit 7 and the difference lies in -80..79 |
| ArithmeticLaws.CmosSumRange | src/apple2/CPU.cpp:522-561 | the same for any bytes, by the sum of the upper nibbles |
| ArithmeticLaws.CmosDifferenceRange | src/apple2/CPU.cpp:594-638 | and by their difference |
| ArithmeticLaws.DecimalSumOfAnything | src/apple2/CPU.cpp:491-561 | both processors add any two bytes alike in decimal mode, nibble by nibble |
| ArithmeticLaws.CmosDifferenceOfAnything | src/apple2/CPU.cpp:594-638 | result and carry of a decimal CMOS subtraction of any two bytes, by their nibbles |
| ArithmeticLaws.NmosDifferenceOfAnything | src/apple2/CPU.cpp:563-592 | the same on NMOS, which below minus ten loses the lower borrow |
| Arithmetic.AdcChainIsExact | src/apple2/CPU.cpp:491-561 | a chain of ADCs of any length adds exactly in base 256, or in base 100 on decimal digits |
| Arithmetic.SbcChainIsExact | src/apple2/CPU.cpp:563-638 | a chain of SBCs subtracts exactly |
| Arithmetic.ChainsUndo | src/apple2/CPU.cpp:491-638 | the SBC chain undoes the ADC chain of any length |
| Arithmetic.ChainsAgree | src/apple2/CPU.cpp:491-638 | both processors' chains agree |
| Arithmetic.Unit.OpAdcNmos | src/apple2/CPU.cpp:491-520 | accumulator and all four flags after the NMOS code |
| Arithmetic.Unit.OpAdcCmos | src/apple2/CPU.cpp:522-561 | after the CMOS code |
| Arithmetic.Unit.OpSbcNmos | src/apple2/CPU.cpp:563-592 | after the NMOS subtraction |
| Arithmetic.Unit.OpSbcCmos | src/apple2/CPU.cpp:594-638 | after the CMOS subtraction |
| NmiLine.EdgeIsLatched | src/apple2/CPU.cpp:3920-3931 | the flank is set by a rise of the OR-ed line and by nothing else, and only a poll clears it |
| NmiLine.EdgesAreServed | src/apple2/CPU.cpp:836-849 | in every interleaving the services and the pending flank never exceed the rises, and a rise after the last service is still pending |
| NmiLine.HeldLineFiresOnce | src/apple2/CPU.cpp:3920-3931 | while one device holds the line no other device's doings make another edge |
| NmiLine.Latch.Assert | src/apple2/CPU.cpp:3920-3926 | asserting sets the device's bit and the flank on a rise |
| NmiLine.Latch.Poll | src/apple2/CPU.cpp:836-849 | a poll takes the flank and clears it |
| TokenTable.ApplesoftIsGood | src/core/BasicLiveSync.cpp:67-108 | in the 107-entry table tokens are distinct and above $7F, names are upper case, no name follows a shorter one, and each token has the keyword that Applesoft gives it |
| Tokenizer.FirstMatchIsLongest | src/core/BasicLiveSync.cpp:260-267 | the first entry that matches is as long as any that matches |
| Tokenizer.ListingEchoes | src/core/BasicLiveSync.cpp:277-354 | listing what was tokenized gives the text back with no change but letters raised to upper case, none left lower when that is forced |
| Tokenizer.UpperCaseExact | src/core/BasicLiveSync.cpp:277-354 | text without lower-case letters comes back exactly |
| Tokenizer.RemarkExact | src/core/BasicLiveSync.cpp:277-354 | after REM any text comes back exactly, quotes included, unless upper case is forced |
| Tokenizer.QuotedExact | src/core/BasicLiveSync.cpp:277-354 | so does text inside quotes, up to and including the closing quote |
| Tokenizer.RetokenizeExact | src/core/BasicLiveSync.cpp:277-354 | tokenizing the listing gives the same bytes: both loops keep quote and remark state in step |
| CaseLaws.UpperRaises | src/core/BasicLiveSync.cpp:269-275 | raising turns each of the 26 small letters into its capital and leaves every other character alone |
| CaseLaws.KeptIsRaised | src/core/BasicLiveSync.cpp:213-234 | where upper case is forced, a row is cleaned to its spelling in capitals |
| CaseLaws.ForcedImportIsRaised | src/core/BasicLiveSync.cpp:650-719 | and importing any text is importing that spelling of it |
| CaseLaws.KeywordIsFound | src/core/BasicLiveSync.cpp:236-267 | every keyword in every spelling is found where it starts, or a longer one that starts there |
| CaseLaws.KeywordBecomesItsToken | src/core/BasicLiveSync.cpp:277-311 | standing alone it becomes the one byte whose keyword in Applesoft it is |
| CaseLaws.RemarksFollowRem | src/core/BasicLiveSync.cpp:277-311 | the token that opens a remark is that of REM |
| TextLaws.UnknownTokenIsSpelled | src/core/BasicLiveSync.cpp:347-350 | a byte without a keyword is listed by its value in two hexadecimal digits |
| TextLaws.KnownTokensHaveNames | src/core/BasicLiveSync.cpp:252-258 | only tokens $80-$EA have names, each its own |
| LineNumbers.DecimalReadsBack | src/core/BasicLiveSync.cpp:533-536 | a printed number reads back, has no leading zero and at most five digits exactly below 100000 |
| LineNumbers.ReadsWhatIsPrinted | src/core/BasicLiveSync.cpp:390-418 | number, blank and statement are read as that number, at most 63999, and the statement without opening blanks |
| LineNumbers.NormalFormReadsTheSame | src/core/BasicLiveSync.cpp:390-418 | every numbered row reads like its printed normal form |
| LineNumbers.PositionalKeepsTheRow | src/core/BasicLiveSync.cpp:356-388 | by position a row is its own statement if and only if its index is in range and it does not repeat that index |
| LineNumbers.ModesAgreeOnOwnIndex | src/core/BasicLiveSync.cpp:356-418 | a row printed with its own index reads the same in both modes |
| TextLaws.NumberedRowReads | src/core/BasicLiveSync.cpp:390-418 | blanks, digits and whatever follows, with a blank between or none, read as the number, at most 63999, and the rest less its opening blanks |
| TextLaws.UnnumberedRowIsNone | src/core/BasicLiveSync.cpp:390-418 | a row whose first character after the blanks is no digit has no number |
| TextLaws.PositionalRowReads | src/core/BasicLiveSync.cpp:356-388 | by position digits and a blank are dropped exactly when they make the row's own index |
| TextLaws.OtherRowStays | src/core/BasicLiveSync.cpp:356-388 | any other row stays whole, and beyond row 63999 there are no lines |
| TextLaws.ZerosDoNotCount | src/core/BasicLiveSync.cpp:390-418 | leading zeros do not change a number |
| ProgramText.RowsOfJoined | src/core/BasicLiveSync.cpp:676-680 | rows ended by newlines are cut apart into the same rows |
| ProgramText.SanitizeCleans | src/core/BasicLiveSync.cpp:213-234 | what is parsed is printable, at most 255 characters, and upper case when that is forced |
| TextLaws.PrintableIsKept | src/core/BasicLiveSync.cpp:213-234 | printable rows are kept as they are where upper case is not forced |
| TextLaws.UnprintableIsDropped | src/core/BasicLiveSync.cpp:213-234 | a character outside blank to tilde makes no difference anywhere in a row |
| TextLaws.CleanedIsTheFront | src/core/BasicLiveSync.cpp:213-234 | a row is cut after 255 characters |
| TextLaws.RowsCountFromOne | src/core/BasicLiveSync.cpp:676-697 | the first row of a text by position is line 1 |
| ProgramText.SortSorts | src/core/BasicLiveSync.cpp:699-702 | lines are put in the order of their numbers, the same lines as before |
| ProgramText.SortedIsUnique | src/core/BasicLiveSync.cpp:699-702 | with distinct numbers any sorting algorithm gives that same order |
| ProgramText.ProgramIsStorable | src/core/BasicLiveSync.cpp:672-702 | every text yields sorted lines with numbers up to 63999 and no zero byte |
| ProgramImage.FittingIsMost | src/core/BasicLiveSync.cpp:420-433 | the injected lines end below HIMEM with room for the end mark, and the next line would not |
| ProgramImage.InjectThenWalk | src/core/BasicLiveSync.cpp:420-460 | the export walk reads exactly the injected lines, in order, with the same numbers and bytes |
| ProgramImage.LinksIncrease | src/core/BasicLiveSync.cpp:435-450 | each next-line address is the next record's, above the record and below HIMEM |
| ProgramImage.InjectChanges | src/core/BasicLiveSync.cpp:420-460 | no byte outside the records and the end mark changes |
| ProgramImage.InjectStaysBelowHimem | src/core/BasicLiveSync.cpp:420-460 | writes stay in [TXTTAB, HIMEM) for every memory if and only if TXTTAB + 2 < HIMEM |
| ProgramSync.PlacedReads | src/core/BasicLiveSync.cpp:704-711 | pointers, records and end mark after an import, and every other byte unchanged |
| ProgramSync.PlacedIsSeen | src/core/BasicLiveSync.cpp:608-648 | with those pointers export sees exactly the injected lines, whatever lay there before |
| SyncLaws.FixUps | src/core/BasicLiveSync.cpp:652-670 | what the fix-ups make of any HIMEM and TXTTAB, by address and value, and that they change nothing else |
| SyncLaws.PointersAfterImport | src/core/BasicLiveSync.cpp:704-711 | the pointers at $67-$74 and $AF after an import, by address |
| SyncLaws.RecordBytes | src/core/BasicLiveSync.cpp:435-450 | a record byte by byte |
| SyncLaws.ExportBound | src/core/BasicLiveSync.cpp:608-618 | export reads up to VARTAB, or up to HIMEM and at most $C000 where VARTAB is out of range |
| SyncLaws.VartabMayBeLost | src/core/BasicLiveSync.cpp:608-648 | so an imported program is exported whole even when VARTAB is lost |
| SyncLaws.WalkSees | src/core/BasicLiveSync.cpp:624-642 | over any memory: exactly when the walk sees a line |
| SyncLaws.WalkSeesLine | src/core/BasicLiveSync.cpp:624-648 | and what it sees of it |
| RowLayout.LayoutReadsBack | src/core/BasicLiveSync.cpp:530-544 | lines laid out on rows and collected again are the same lines if and only if each row alone reads back |
| StoredLines.ChosenExactly | src/core/BasicLiveSync.cpp:277-354 | bytes in memory are the tokens of their own listing if and only if each is the one the tokenizer chooses in its place: a token where its keyword is the first match, a character only in quotes, in a remark or where nothing matches |
| TextRoundTrips.TokenLineIsCanonical | src/core/BasicLiveSync.cpp:277-354 | with the real table: any printable statement becomes a line whose listing echoes it and tokenizes to it again |
| TextRoundTrips.ExplicitRowReadsBack | src/core/BasicLiveSync.cpp:390-418 | any line's numbered row reads back if and only if it has at most 255 characters, its listing starts with no blank and its bytes are the tokenizer's; the number always does, clamped to 63999, whatever the line holds |
| TextRoundTrips.PositionalRowReadsBack | src/core/BasicLiveSync.cpp:356-388 | any line's row by position reads back if and only if its listing is non-empty, at most 255 characters and not led by its own number, and its bytes are the tokenizer's |
| TextRoundTrips.CanonicalExactly | src/core/BasicLiveSync.cpp:277-354 | a line's bytes are the tokenizer's exactly when its number is in range, its listing is printable (and has no lower case where that is forced) and each byte is chosen in its place |
| TextRoundTrips.SpelledForIsLost | src/core/BasicLiveSync.cpp:277-311 | the letters of FOR kept as characters fit a row in either mode, under any number, and do not come back |
| TextRoundTrips.PositionalRowIsTheNumber | src/core/BasicLiveSync.cpp:530-544 | positional export puts line k on row k |
| TextRoundTrips.ProgramReadsBack | src/core/BasicLiveSync.cpp:608-719 | any program's text reads back as that program if and only if its numbers are sorted (by position increasing from 1 on) and each line is the tokenizer's and fits its row |
| TextRoundTrips.ReadIsInOrder | src/core/BasicLiveSync.cpp:672-702 | every text yields such lines in such an order, by position without duplicates |
| TextRoundTrips.NormalTextIsEchoedSorted | src/core/BasicLiveSync.cpp:608-719 | a text of rows in normal form becomes a program printed as exactly those rows in the order of their numbers |
| SyncRoundTrips.ImportThenExport | src/core/BasicLiveSync.cpp:608-719 | for every text, memory and pair of modes, export prints exactly the lines of the text that found room |
| SyncRoundTrips.ExplicitTextRoundTrip | src/core/BasicLiveSync.cpp:608-719 | import then export of rows in normal form gives those rows sorted by number, or the front part that HIMEM leaves room for |
| SyncRoundTrips.AllFit | src/core/BasicLiveSync.cpp:420-433 | nothing is cut off if and only if records and end mark fit below HIMEM |
| SyncRoundTrips.ExportThenImport | src/core/BasicLiveSync.cpp:608-719 | exporting whatever memory holds and importing the text gives the same program if and only if its numbers are sorted (by position increasing from 1 on), every line is the tokenizer's and fits its row, and records and end mark fit between TXTTAB and HIMEM as the fix-ups leave them |
| SyncRoundTrips.ExportThenImportWritesRecords | src/core/BasicLiveSync.cpp:608-719 | and whenever it does, writes that program's very records from TXTTAB on |
| SyncRoundTrips.SecondImportChangesNothing | src/core/BasicLiveSync.cpp:608-719 | after an import, export and import again leave all 64K unchanged, byte for byte, if and only if the imported lines fit their rows and, by position, have increasing numbers from 1 on |
| SyncRoundTrips.ImportStaysBelowHimem | src/core/BasicLiveSync.cpp:650-719 | with given pointers after the fix-ups, an import of any text leaves everything from HIMEM on alone in every memory if and only if TXTTAB + 2 < HIMEM |
| SyncRoundTrips.LowHimemIsOverrun | src/core/BasicLiveSync.cpp:652-662 | a HIMEM of $0400 gives a TXTTAB of $0801, an end mark at $0801-$0803 and an empty program, whatever the text |
| LiveSync.SanitizeAndTruncate | src/core/BasicLiveSync.cpp:213-234 | the loop computes the cleaned row |
| LiveSync.MatchToken | src/core/BasicLiveSync.cpp:260-267 | the loop finds the first matching keyword |
| LiveSync.TokenizeLineContent | src/core/BasicLiveSync.cpp:277-311 | the loop with its quote and remark flags computes the token bytes |
| LiveSync.ParsePositionalLine | src/core/BasicLiveSync.cpp:356-388 | the scan computes the positional parse |
| LiveSync.ParseExplicitLine | src/core/BasicLiveSync.cpp:390-418 | the scan computes the explicit parse |
| LiveSync.AppendLinePrefix | src/core/BasicLiveSync.cpp:530-544 | the prefix loop prints number or empty rows and moves the expected row on |
| LiveSync.Sync.DetokenizeLineBytes | src/core/BasicLiveSync.cpp:313-354 | the loop over memory computes the listing up to the first zero |
| LiveSync.Sync.InjectProgramLines | src/core/BasicLiveSync.cpp:420-460 | the loop over lines leaves memory as the records and end mark of those that fit |
| LiveSync.Sync.ExportToString | src/core/BasicLiveSync.cpp:608-648 | the walk over memory prints what export should |
| LiveSync.Sync.ImportFromString | src/core/BasicLiveSync.cpp:650-719 | pointer fix-ups, parse, sort, injection and pointers leave memory as import should |

## Left out

- MemoryBus.Memory.UpdatePaging: does not model `updatewriteonly`, which no caller passes as true.
- MemoryBus.Memory.SetPaging: does not return the floating bus value or forward display switches to the video code; the returned byte of a switch access is not part of this model.
- MemoryBus.Memory.ReadByte: the bytes that ports, cards and the floating bus answer with are not part of this model.
- MemoryMachine.RunRefines: reads of I/O ports and floating reads yield no value, because what cards, video and the floating bus answer is not part of this model; cards' own handlers change no memory but by exchanging their ROM page.
- HeldBack.HeldBackIsInvisible: assumes that no interrupt comes between the stores of a group, and that ports, cards and the floating bus answer both machines alike; the comparison ends where the instruction fetched is not the store that was looked at.
- Slices.SlicesMakeTheFrame: the service of card events between slices changes nothing; how cards fill or use a wake-up is not part of this model.
- CpuLoop.Cpu.OneTurn: the opcode tables are an arbitrary instruction function of 2 to 9 cycles, and I/O handlers are arbitrary sequences of counter calls; only the opcodes named above are written out, undocumented ones not at all.
- CpuLoop.Cpu.RunCycles: 32- and 64-bit wrap of the cycle counters is not modelled.
- NmiLine.EdgesAreServed: excludes `cpu_nmi_reset`, which drops a pending edge by design.
- ProgramText.SortSorts: keeps the order of equal numbers, which `std::sort` does not promise; order of duplicate line numbers is therefore not a statement about the source.
- LiveSync.Sync.ImportFromString: works on a plain 64K array, as the source does on the live image, and does not model what follows from bypassing the dirty marks; hashes, logging, file watching and the null checks for missing memory are left out.
- The mode word is a record of its named bits, buffers are arrays of 256-byte pages, and the dirty byte of a page is its bit 0.
- Loading and choosing ROMs, allocation, machine tables, the switch of memory or processor instances, and failures of allocation.
- The debugger, the snapshot container in `src/apple2/Snapshot.cpp`, switch inputs, speed control in floating point, and the display of paging state through $C011-$C01F, which would only add one-branch facts.
