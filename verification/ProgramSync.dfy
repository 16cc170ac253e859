/**
 Import and export of a program as functions of memory: the fix-ups of the
 pointers, the injected records, the pointers around them, and the text read
 back out of the chain.
 */
module ProgramSync {
  import opened ProgramText
  import opened ProgramImage

  const TXTTAB: nat := 0x67
  const VARTAB: nat := 0x69
  const ARYTAB: nat := 0x6B
  const STREND: nat := 0x6D
  const FRETOP: nat := 0x6F
  const HIMEM: nat := 0x73
  const PRGEND: nat := 0xAF

  const DEFAULT_TXTTAB: nat := 0x0801
  const DEFAULT_HIMEM: nat := 0x9600
  const CEILING: nat := 0xC000

  function SetWord(ram: Ram, at: nat, value: nat): Ram
    requires at + 1 < 0x10000
  {
    ram[at := Low(value)][at + 1 := High(value)]
  }

  // ------------------------------------------------------------ import

  function WithHimem(ram: Ram): Ram {
    if Word(ram, HIMEM) == 0 || Word(ram, HIMEM) > CEILING then SetWord(ram, HIMEM, DEFAULT_HIMEM) else ram
  }

  function WithTxttab(ram: Ram): Ram {
    if Word(ram, TXTTAB) < DEFAULT_TXTTAB || Word(ram, TXTTAB) >= Word(ram, HIMEM)
    then SetWord(ram, TXTTAB, DEFAULT_TXTTAB) else ram
  }

  /** Pointers that can be used. TXTTAB may still lie above HIMEM. */
  predicate Usable(ram: Ram) {
    && 0 < Word(ram, HIMEM) <= CEILING && DEFAULT_TXTTAB <= Word(ram, TXTTAB) <= CEILING
    && (Word(ram, TXTTAB) < Word(ram, HIMEM) || Word(ram, TXTTAB) == DEFAULT_TXTTAB)
  }

  lemma SetWordReads(ram: Ram, at: nat, value: nat, other: nat)
    requires at + 1 < 0x10000 && other + 1 < 0x10000 && value < 0x10000
    ensures Word(SetWord(ram, at, value), at) == value
    ensures other + 1 < at || at + 1 < other ==> Word(SetWord(ram, at, value), other) == Word(ram, other)
  {
    WordIsWhole(value);
  }

  /** The pointers put right, and the zero that comes before a program. */
  function Prepared(ram: Ram): (r: Ram)
    ensures Usable(r)
  {
    SetWordReads(ram, HIMEM, DEFAULT_HIMEM, TXTTAB);
    SetWordReads(WithHimem(ram), TXTTAB, DEFAULT_TXTTAB, HIMEM);
    var fixed := WithTxttab(WithHimem(ram));
    var before := Word(fixed, TXTTAB) - 1;
    fixed[before := 0]
  }

  /** The pointers around an injected program. */
  function Closed(ram: Ram, end: nat, himem: nat): Ram {
    var variables := end + 2;
    var program := SetWord(SetWord(ram, PRGEND, end), VARTAB, variables);
    SetWord(SetWord(SetWord(program, ARYTAB, variables), STREND, variables), FRETOP, himem)
  }

  function Placed(ram: Ram, lines: seq<Line>): Ram
    requires Usable(ram)
  {
    var txttab, himem := Word(ram, TXTTAB), Word(ram, HIMEM);
    Closed(Inject(ram, txttab, himem, lines), EndOf(txttab, himem, lines), himem)
  }

  function Import(ram: Ram, text: string, mode: Mode, force: bool): Ram {
    Placed(Prepared(ram), Program(text, mode, force))
  }

  // ------------------------------------------------------------ export

  function ProgramEnd(ram: Ram): (end: nat)
    ensures end <= CEILING
  {
    var txttab, vartab := Word(ram, TXTTAB), Word(ram, VARTAB);
    var himem := if Word(ram, HIMEM) <= CEILING then Word(ram, HIMEM) else CEILING;
    if txttab < vartab <= himem then vartab else himem
  }

  /** The program that memory holds, as export sees it. */
  function ProgramIn(ram: Ram): seq<Line> {
    Walk(ram, Word(ram, TXTTAB), ProgramEnd(ram))
  }

  function Export(ram: Ram, mode: Mode): string {
    Print(ProgramIn(ram), mode, 1)
  }

  // ----------------------------------------------- what a placing leaves

  predicate IsPointer(a: nat) {
    a == VARTAB || a == VARTAB + 1 || a == ARYTAB || a == ARYTAB + 1 || a == STREND || a == STREND + 1
    || a == FRETOP || a == FRETOP + 1 || a == PRGEND || a == PRGEND + 1
  }

  lemma ClosedReads(ram: Ram, end: nat, himem: nat)
    requires end <= CEILING && himem <= CEILING
    ensures var r := Closed(ram, end, himem);
            && Word(r, PRGEND) == end && Word(r, VARTAB) == end + 2 && Word(r, ARYTAB) == end + 2
            && Word(r, STREND) == end + 2 && Word(r, FRETOP) == himem
            && forall a | 0 <= a < 0x10000 && !IsPointer(a) :: r[a] == ram[a]
  {
    var variables := end + 2;
    var r1 := SetWord(ram, PRGEND, end);
    var r2 := SetWord(r1, VARTAB, variables);
    var r3 := SetWord(r2, ARYTAB, variables);
    var r4 := SetWord(r3, STREND, variables);
    WordIsWhole(end);
    WordIsWhole(variables);
    WordIsWhole(himem);
  }

  /** A placed program's records lie from TXTTAB on; nothing but records, end mark and pointers changes. */
  lemma PlacedReads(ram: Ram, lines: seq<Line>)
    requires Usable(ram)
    ensures var r, txttab, himem := Placed(ram, lines), Word(ram, TXTTAB), Word(ram, HIMEM);
            var end := EndOf(txttab, himem, lines);
            && txttab <= end <= CEILING
            && Word(r, TXTTAB) == txttab && Word(r, HIMEM) == himem
            && Word(r, PRGEND) == end && Word(r, VARTAB) == end + 2 && Word(r, ARYTAB) == end + 2
            && Word(r, STREND) == end + 2 && Word(r, FRETOP) == himem
            && r[txttab..end] == Records(txttab, Injected(txttab, himem, lines))
            && r[end..end + 3] == [0, 0, 0]
            && forall a | 0 <= a < 0x10000 && !IsPointer(a) && !(txttab <= a < end + 3) :: r[a] == ram[a]
  {
    var txttab, himem := Word(ram, TXTTAB), Word(ram, HIMEM);
    var end, image := EndOf(txttab, himem, lines), Inject(ram, txttab, himem, lines);
    InjectedRecords(ram, txttab, himem, lines);
    InjectChanges(ram, txttab, himem, lines);
    EndIsBelowHimem(txttab, himem, lines);
    ClosedReads(image, end, himem);
    ClosedKeepsProgram(image, end, himem, txttab, end);
    ClosedKeepsProgram(image, end, himem, end, end + 3);
  }

  lemma ClosedKeepsProgram(ram: Ram, end: nat, himem: nat, low: nat, high: nat)
    requires end <= CEILING && himem <= CEILING && 0x100 <= low <= high <= 0x10000
    ensures Closed(ram, end, himem)[low..high] == ram[low..high]
  {
    ClosedReads(ram, end, himem);
  }

  /** Export sees exactly the lines that were injected. */
  lemma PlacedIsSeen(ram: Ram, lines: seq<Line>)
    requires Usable(ram)
    requires forall i | 0 <= i < |lines| :: Storable(lines[i])
    ensures ProgramIn(Placed(ram, lines)) == Injected(Word(ram, TXTTAB), Word(ram, HIMEM), lines)
  {
    var r, txttab, himem := Placed(ram, lines), Word(ram, TXTTAB), Word(ram, HIMEM);
    PlacedReads(ram, lines);
    EndIsBelowHimem(txttab, himem, lines);
    var kept, end := Injected(txttab, himem, lines), EndOf(txttab, himem, lines) + 2;
    if kept == [] {
      assert ProgramEnd(r) <= txttab + 2;
    } else {
      WalkReadsRecords(r, txttab, kept, end);
      assert ProgramEnd(r) == end;
    }
  }
}
