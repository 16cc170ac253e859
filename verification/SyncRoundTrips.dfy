/**
 What importing and exporting undo of each other, through memory.
 */
module SyncRoundTrips {
  import opened LineNumbers
  import opened ProgramText
  import opened RowLayout
  import opened TextRoundTrips
  import opened ProgramImage
  import opened ProgramSync

  /** The lines of a text that find room in memory. */
  function Kept(ram: Ram, text: string, mode: Mode, force: bool): seq<Line> {
    var r := Prepared(ram);
    Injected(Word(r, TXTTAB), Word(r, HIMEM), Program(text, mode, force))
  }

  /** Whatever the text and the memory, export prints the lines of the text that found room, in either mode. */
  lemma ImportThenExport(ram: Ram, text: string, mode: Mode, printed: Mode, force: bool)
    ensures Export(Import(ram, text, mode, force), printed) == Print(Kept(ram, text, mode, force), printed, 1)
  {
    ProgramIsStorable(text, mode, force);
    PlacedIsSeen(Prepared(ram), Program(text, mode, force));
  }

  lemma {:induction false} PrintPrefix(lines: seq<Line>, n: nat)
    requires n <= |lines|
    ensures Print(lines[..n], Explicit, 1) == Joined(ExplicitRows(lines)[..n])
  {
    PrintExplicit(lines[..n], 1);
    assert ExplicitRows(lines[..n]) == ExplicitRows(lines)[..n];
  }

  /**
   A text of rows in normal form comes back as those rows sorted by number, or as
   the front part of them that lies below HIMEM.
   */
  lemma ExplicitTextRoundTrip(ram: Ram, items: seq<Numbered>, force: bool)
    requires forall i | 0 <= i < |items| :: NormalRow(items[i])
    ensures var text := Joined(Rows(items));
            var lines := Program(text, Explicit, force);
            var rows, n := ExplicitRows(lines), |Kept(ram, text, Explicit, force)|;
            && n <= |rows| && Sorted(lines) && multiset(rows) == multiset(Rows(items))
            && Export(Import(ram, text, Explicit, force), Explicit) == Joined(rows[..n])
  {
    var text := Joined(Rows(items));
    var lines := Program(text, Explicit, force);
    ImportThenExport(ram, text, Explicit, Explicit, force);
    NormalTextIsEchoedSorted(items, force);
    PrintPrefix(lines, |Kept(ram, text, Explicit, force)|);
  }

  /** Nothing is cut off exactly when the records and the end mark fit below HIMEM. */
  lemma AllFit(txttab: nat, himem: nat, lines: seq<Line>)
    ensures Injected(txttab, himem, lines) == lines <==> lines == [] || txttab + Extent(lines) + 2 < himem
  {
    FittingIsMost(txttab, himem, lines);
    var n := Fitting(txttab, himem, lines);
    if n < |lines| {
      assert lines == lines[..n] + ([lines[n]] + lines[n + 1..]);
      ExtentConcat(lines[..n], [lines[n]] + lines[n + 1..]);
      assert ([lines[n]] + lines[n + 1..])[1..] == lines[n + 1..];
    } else {
      assert lines[..n] == lines;
    }
  }

  // -------------------------------------------- export, then import again

  /** What is read back cannot be a program and then some. */
  lemma NoMoreIsRead(lines: seq<Line>, mode: Mode, force: bool, n: nat)
    requires InOrder(lines, mode, force)
    ensures var read := Program(Print(lines, mode, 1), mode, force);
            n <= |read| && read[..n] == lines ==> read == lines
  {
    var read := Program(Print(lines, mode, 1), mode, force);
    if Placeable(lines, mode.Positional?, 1) {
      PlaceableReadsBack(lines, mode, force);
      if n == |read| {
        assert read[..n] == read;
      }
    } else {
      LineZeroIsLost(Print(lines, mode, 1), lines, n, force);
    }
  }

  /** Records and end mark of the lines lie below HIMEM. */
  predicate HasRoom(ram: Ram, lines: seq<Line>) {
    lines == [] || Word(ram, TXTTAB) + Extent(lines) + 2 < Word(ram, HIMEM)
  }

  /** The front part of a program that was read is in order as well. */
  lemma FrontIsInOrder(text: string, mode: Mode, force: bool, n: nat)
    requires n <= |Program(text, mode, force)|
    ensures InOrder(Program(text, mode, force)[..n], mode, force)
  {
    ReadIsInOrder(text, mode, force);
  }

  /**
   Exporting whatever memory holds as a program and importing the text gives the
   same program exactly when the lines are in order, each of them is one the
   tokenizer makes and fits its row, and the records, which need not have lain end
   to end before, fit between the pointers as they are put right.
   */
  lemma ExportThenImport(ram: Ram, mode: Mode, force: bool)
    ensures var lines := ProgramIn(ram);
            ProgramIn(Import(ram, Export(ram, mode), mode, force)) == lines
            <==> InOrder(lines, mode, force) && AllFitRows(lines, mode) && HasRoom(Prepared(ram), lines)
  {
    var lines, text, r := ProgramIn(ram), Export(ram, mode), Prepared(ram);
    var read, txttab, himem := Program(text, mode, force), Word(r, TXTTAB), Word(r, HIMEM);
    ProgramIsStorable(text, mode, force);
    PlacedIsSeen(r, read);
    FrontIsInOrder(text, mode, force, Fitting(txttab, himem, read));
    if InOrder(lines, mode, force) {
      ProgramReadsBack(lines, mode, force);
      AllFit(txttab, himem, lines);
      FittingIsMost(txttab, himem, read);
      NoMoreIsRead(lines, mode, force, Fitting(txttab, himem, read));
    }
  }

  /** When it is the same program, its very records are written, from TXTTAB on. */
  lemma ExportThenImportWritesRecords(ram: Ram, mode: Mode, force: bool)
    requires ProgramIn(Import(ram, Export(ram, mode), mode, force)) == ProgramIn(ram)
    ensures var lines, txttab := ProgramIn(ram), Word(Prepared(ram), TXTTAB);
            var after := Import(ram, Export(ram, mode), mode, force);
            && txttab + Extent(lines) <= CEILING
            && after[txttab..txttab + Extent(lines)] == Records(txttab, lines)
            && Word(after, VARTAB) == txttab + Extent(lines) + 2
  {
    ExportThenImport(ram, mode, force);
    ExportIsReadBack(ram, mode, force);
    PlacedWhole(Prepared(ram), ProgramIn(ram));
  }

  lemma ExportIsReadBack(ram: Ram, mode: Mode, force: bool)
    requires InOrder(ProgramIn(ram), mode, force) && AllFitRows(ProgramIn(ram), mode)
    ensures Import(ram, Export(ram, mode), mode, force) == Placed(Prepared(ram), ProgramIn(ram))
  {
    ProgramReadsBack(ProgramIn(ram), mode, force);
  }

  lemma PlacedWhole(ram: Ram, lines: seq<Line>)
    requires Usable(ram) && HasRoom(ram, lines)
    ensures var txttab := Word(ram, TXTTAB);
            && txttab + Extent(lines) <= CEILING
            && Placed(ram, lines)[txttab..txttab + Extent(lines)] == Records(txttab, lines)
            && Word(Placed(ram, lines), VARTAB) == txttab + Extent(lines) + 2
  {
    AllFit(Word(ram, TXTTAB), Word(ram, HIMEM), lines);
    PlacedReads(ram, lines);
  }

  lemma PreparedKeepsPointers(ram: Ram)
    requires Usable(ram)
    ensures Word(Prepared(ram), TXTTAB) == Word(ram, TXTTAB) && Word(Prepared(ram), HIMEM) == Word(ram, HIMEM)
    ensures forall a | 0 <= a < 0x10000 && a != Word(ram, TXTTAB) - 1 :: Prepared(ram)[a] == ram[a]
    ensures Prepared(ram)[Word(ram, TXTTAB) - 1] == 0
  {
    SetWordIsIdle(ram, TXTTAB);
  }

  lemma SetWordIsIdle(ram: Ram, at: nat)
    requires at + 1 < 0x10000
    ensures SetWord(ram, at, Word(ram, at)) == ram
  {
  }

  /**
   Once a text is imported, exporting the program and importing the result leaves
   the whole memory as it is, byte for byte, exactly when the imported lines fit
   their rows and, by position, no two have one number.
   */
  lemma SecondImportChangesNothing(ram: Ram, text: string, first: Mode, mode: Mode, force: bool)
    ensures var r, lines := Import(ram, text, first, force), Kept(ram, text, first, force);
            Import(r, Export(r, mode), mode, force) == r
            <==> AllFitRows(lines, mode) && (mode.Positional? ==> Increasing(lines))
  {
    var r, lines := Import(ram, text, first, force), Kept(ram, text, first, force);
    KeptIsSeen(ram, text, first, force);
    if AllFitRows(lines, mode) && (mode.Positional? ==> Increasing(lines)) {
      SecondImportIsIdle(ram, text, first, mode, force);
    } else if Import(r, Export(r, mode), mode, force) == r {
      ExportThenImport(r, mode, force);
    }
  }

  /** What an import leaves in memory is the lines that found room. */
  lemma KeptIsSeen(ram: Ram, text: string, mode: Mode, force: bool)
    ensures var lines := Kept(ram, text, mode, force);
            ProgramIn(Import(ram, text, mode, force)) == lines && AllCanonical(lines, force) && Sorted(lines)
  {
    ProgramIsStorable(text, mode, force);
    PlacedIsSeen(Prepared(ram), Program(text, mode, force));
    ProgramIsCanonical(text, mode, force);
  }

  lemma SecondImportIsIdle(ram: Ram, text: string, first: Mode, mode: Mode, force: bool)
    requires var lines := Kept(ram, text, first, force);
             AllFitRows(lines, mode) && (mode.Positional? ==> Increasing(lines))
    ensures var r := Import(ram, text, first, force);
            Import(r, Export(r, mode), mode, force) == r
  {
    KeptIsSeen(ram, text, first, force);
    ImportThenExport(ram, text, first, mode, force);
    ProgramReadsBack(Kept(ram, text, first, force), mode, force);
    PlacedStaysPrepared(Prepared(ram), Program(text, first, force));
    PlacedAgainIsIdle(Prepared(ram), Program(text, first, force));
  }

  /** The zero before a program survives placing it, and so do the pointers' values. */
  lemma PlacedStaysPrepared(p: Ram, all: seq<Line>)
    requires Usable(p) && p[Word(p, TXTTAB) - 1] == 0
    ensures Prepared(Placed(p, all)) == Placed(p, all)
  {
    PlacedReads(p, all);
    PreparedKeepsPointers(Placed(p, all));
  }

  lemma InjectedAgain(txttab: nat, himem: nat, all: seq<Line>)
    ensures var lines := Injected(txttab, himem, all);
            Injected(txttab, himem, lines) == lines
  {
    FittingIsMost(txttab, himem, all);
    AllFit(txttab, himem, Injected(txttab, himem, all));
  }

  lemma PlacedAgainIsIdle(p: Ram, all: seq<Line>)
    requires Usable(p)
    ensures var r := Placed(p, all);
            Usable(r) && Placed(r, Injected(Word(p, TXTTAB), Word(p, HIMEM), all)) == r
  {
    var r, txttab, himem := Placed(p, all), Word(p, TXTTAB), Word(p, HIMEM);
    var lines := Injected(txttab, himem, all);
    InjectedAgain(txttab, himem, all);
    PlacedReads(p, all);
    PlacedReads(r, lines);
    SamePlace(r, Placed(r, lines), txttab, EndOf(txttab, himem, all));
  }

  // ------------------------------------------------------- the end mark

  /** No byte from `himem` on changes, the pointers in zero page aside. */
  predicate KeepsFrom(himem: nat, before: Ram, after: Ram) {
    forall a | 0x100 <= a < 0x10000 && himem <= a :: after[a] == before[a]
  }

  predicate PointersAre(ram: Ram, txttab: nat, himem: nat) {
    Word(ram, TXTTAB) == txttab && Word(ram, HIMEM) == himem
  }

  /** With these pointers after the fix-ups, imports stay below HIMEM in every memory exactly when TXTTAB + 2 does. */
  lemma ImportStaysBelowHimem(txttab: nat, himem: nat, text: string, mode: Mode, force: bool)
    requires exists ram: Ram :: Usable(ram) && PointersAre(ram, txttab, himem)
    ensures (forall ram: Ram | PointersAre(Prepared(ram), txttab, himem) ::
              KeepsFrom(himem, ram, Import(ram, text, mode, force)))
            <==> txttab + 2 < himem
  {
    if txttab + 2 < himem {
      forall ram: Ram | PointersAre(Prepared(ram), txttab, himem)
        ensures KeepsFrom(himem, ram, Import(ram, text, mode, force))
      {
        EndMarkIsBelow(ram, text, mode, force);
      }
    } else {
      var other: Ram :| Usable(other) && PointersAre(other, txttab, himem);
      var ram := OnesWith(txttab, himem);
      OnesWithPointers(other, txttab, himem);
      EndMarkIsAbove(ram, text, mode, force);
      assert !KeepsFrom(himem, ram, Import(ram, text, mode, force));
    }
  }

  lemma EndMarkIsBelow(ram: Ram, text: string, mode: Mode, force: bool)
    requires Word(Prepared(ram), TXTTAB) + 2 < Word(Prepared(ram), HIMEM)
    ensures KeepsFrom(Word(Prepared(ram), HIMEM), ram, Import(ram, text, mode, force))
  {
    var p := Prepared(ram);
    PreparedChangesLittle(ram);
    PlacedKeepsAbove(p, Program(text, mode, force));
  }

  lemma PreparedChangesLittle(ram: Ram)
    ensures forall a | 0x100 <= a < 0x10000 && a != Word(Prepared(ram), TXTTAB) - 1 :: Prepared(ram)[a] == ram[a]
  {
    var fixed := WithTxttab(WithHimem(ram));
    assert forall a | 0x100 <= a < 0x10000 :: fixed[a] == ram[a];
  }

  lemma PlacedKeepsAbove(p: Ram, lines: seq<Line>)
    requires Usable(p) && Word(p, TXTTAB) + 2 < Word(p, HIMEM)
    ensures KeepsFrom(Word(p, HIMEM), p, Placed(p, lines))
  {
    PlacedReads(p, lines);
    EndIsBelowHimem(Word(p, TXTTAB), Word(p, HIMEM), lines);
  }

  /** All bytes one but the two pointers. */
  function OnesWith(txttab: nat, himem: nat): Ram {
    SetWord(SetWord(Ones(), TXTTAB, txttab), HIMEM, himem)
  }

  lemma OnesWithPointers(other: Ram, txttab: nat, himem: nat)
    requires Usable(other) && PointersAre(other, txttab, himem)
    ensures Usable(OnesWith(txttab, himem)) && PointersAre(OnesWith(txttab, himem), txttab, himem)
    ensures forall a | 0x100 <= a < 0x10000 :: OnesWith(txttab, himem)[a] == 1
  {
    var ones := Ones();
    SetWordReads(ones, TXTTAB, txttab, HIMEM);
    SetWordReads(SetWord(ones, TXTTAB, txttab), HIMEM, himem, TXTTAB);
  }

  lemma EndMarkIsAbove(ram: Ram, text: string, mode: Mode, force: bool)
    requires Usable(ram) && Word(ram, TXTTAB) + 2 >= Word(ram, HIMEM) && ram[Word(ram, TXTTAB) + 2] == 1
    ensures PointersAre(Prepared(ram), Word(ram, TXTTAB), Word(ram, HIMEM))
    ensures Import(ram, text, mode, force)[Word(ram, TXTTAB) + 2] != ram[Word(ram, TXTTAB) + 2]
  {
    PreparedKeepsPointers(ram);
    EndMarkIsZero(Prepared(ram), Program(text, mode, force));
  }

  lemma EndMarkIsZero(p: Ram, lines: seq<Line>)
    requires Usable(p) && Word(p, TXTTAB) + 2 >= Word(p, HIMEM)
    ensures Placed(p, lines)[Word(p, TXTTAB) + 2] == 0
  {
    var txttab, after := Word(p, TXTTAB), Placed(p, lines);
    EndIsBelowHimem(txttab, Word(p, HIMEM), lines);
    PlacedReads(p, lines);
    assert after[txttab + 2] == after[txttab..txttab + 3][2];
  }

  /** Such pointers come of a HIMEM of $0400: the program starts above it, and its end mark is all there is. */
  lemma LowHimemIsOverrun(ram: Ram, text: string, mode: Mode, force: bool)
    requires Word(ram, HIMEM) == 0x0400
    ensures PointersAre(Prepared(ram), 0x0801, 0x0400)
    ensures Import(ram, text, mode, force)[0x0801..0x0804] == [0, 0, 0]
    ensures ProgramIn(Import(ram, text, mode, force)) == []
  {
    var all := Program(text, mode, force);
    SetWordReads(ram, TXTTAB, DEFAULT_TXTTAB, HIMEM);
    EndIsBelowHimem(0x0801, 0x0400, all);
    PlacedReads(Prepared(ram), all);
    ProgramIsStorable(text, mode, force);
    PlacedIsSeen(Prepared(ram), all);
  }

  /** Equal pointers, records and end marks in otherwise equal memories leave no difference. */
  lemma SamePlace(r: Ram, q: Ram, txttab: nat, end: nat)
    requires txttab <= end <= CEILING
    requires Word(r, PRGEND) == Word(q, PRGEND) && Word(r, VARTAB) == Word(q, VARTAB)
    requires Word(r, ARYTAB) == Word(q, ARYTAB) && Word(r, STREND) == Word(q, STREND)
    requires Word(r, FRETOP) == Word(q, FRETOP)
    requires r[txttab..end] == q[txttab..end] && r[end..end + 3] == q[end..end + 3]
    requires forall a | 0 <= a < 0x10000 && !IsPointer(a) && !(txttab <= a < end + 3) :: r[a] == q[a]
    ensures r == q
  {
    WordsAgree(r, q, PRGEND);
    WordsAgree(r, q, VARTAB);
    WordsAgree(r, q, ARYTAB);
    WordsAgree(r, q, STREND);
    WordsAgree(r, q, FRETOP);
    forall a | 0 <= a < 0x10000 ensures r[a] == q[a] {
      if txttab <= a < end {
        assert r[txttab..end][a - txttab] == q[txttab..end][a - txttab];
      } else if end <= a < end + 3 {
        assert r[end..end + 3][a - end] == q[end..end + 3][a - end];
      }
    }
  }

  lemma WordsAgree(r: Ram, q: Ram, at: nat)
    requires at + 1 < 0x10000 && Word(r, at) == Word(q, at)
    ensures r[at] == q[at] && r[at + 1] == q[at + 1]
  {
  }
}
