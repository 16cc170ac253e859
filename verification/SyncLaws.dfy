/**
 Import and export by addresses and numbers: which bytes of zero page hold which
 pointer, what the fix-ups make of any pointers, and what export reads from a chain
 whose bounds are unusable.
 */
module SyncLaws {
  import opened Bytes
  import opened ProgramText
  import opened ProgramImage
  import opened ProgramSync

  /** The word at `a`, low byte first. */
  function WordOf(ram: Ram, a: nat): nat
    requires a + 1 < 0x10000
  {
    ram[a] as int + 256 * ram[a + 1] as int
  }

  /**
   The fix-ups: a HIMEM at $73 that is zero or above $C000 becomes $9600; then a TXTTAB
   at $67 below $0801 or not below HIMEM becomes $0801; the byte before the program
   becomes zero; nothing else changes.
   */
  lemma FixUps(ram: Ram)
    ensures var r, h := Prepared(ram), WordOf(ram, 0x73);
            var himem := if 0 < h <= 0xC000 then h else 0x9600;
            var txttab := if 0x0801 <= WordOf(ram, 0x67) < himem then WordOf(ram, 0x67) else 0x0801;
            && WordOf(r, 0x73) == himem && WordOf(r, 0x67) == txttab && r[txttab - 1] == 0
            && forall a | 0 <= a < 0x10000 && a !in {0x67, 0x68, 0x73, 0x74, txttab - 1} :: r[a] == ram[a]
  {
    SetWordReads(ram, HIMEM, DEFAULT_HIMEM, TXTTAB);
    SetWordReads(WithHimem(ram), TXTTAB, DEFAULT_TXTTAB, HIMEM);
  }

  /** The pointers an import leaves, by address: the program's end, the variables' three, and the strings'. */
  lemma PointersAfterImport(ram: Ram, lines: seq<Line>)
    requires Usable(ram)
    ensures var r, end := Placed(ram, lines), EndOf(Word(ram, TXTTAB), Word(ram, HIMEM), lines);
            && WordOf(r, 0x67) == WordOf(ram, 0x67) && WordOf(r, 0x73) == WordOf(ram, 0x73)
            && WordOf(r, 0xAF) == end && WordOf(r, 0x69) == end + 2 && WordOf(r, 0x6B) == end + 2
            && WordOf(r, 0x6D) == end + 2 && WordOf(r, 0x6F) == WordOf(ram, 0x73)
            && r[end] == 0 && r[end + 1] == 0 && r[end + 2] == 0
  {
    var r, end := Placed(ram, lines), EndOf(Word(ram, TXTTAB), Word(ram, HIMEM), lines);
    PlacedReads(ram, lines);
    assert r[end] == r[end..end + 3][0] && r[end + 1] == r[end..end + 3][1] && r[end + 2] == r[end..end + 3][2];
  }

  /** A record, byte by byte: the next one's address, the number, the tokens, a zero. */
  lemma RecordBytes(at: nat, line: Line)
    ensures var r, n := Record(at, line), |line.tokens|;
            && |r| == n + 5 && r[4..n + 4] == line.tokens && r[n + 4] == 0
            && r[0] as int == (at + n + 5) % 256 && r[1] as int == (at + n + 5) / 256 % 256
            && r[2] as int == line.number % 256 && r[3] as int == line.number / 256 % 256
  {
  }

  /**
   The program ends at VARTAB; where that lies outside of TXTTAB and HIMEM, export goes
   on to HIMEM, or to $C000 where HIMEM is above that.
   */
  lemma ExportBound(ram: Ram)
    ensures var low, vartab, himem := WordOf(ram, 0x67), WordOf(ram, 0x69), WordOf(ram, 0x73);
            var high := if himem > 0xC000 then 0xC000 else himem;
            ProgramEnd(ram) == if low < vartab <= high then vartab else high
  {
  }

  /** Behind its end mark a program has no more lines, wherever the bound lies. */
  lemma {:induction false} WalkEndsAtTheMark(ram: Ram, at: nat, lines: seq<Line>, end: nat, bound: nat)
    requires forall i | 0 <= i < |lines| :: Storable(lines[i])
    requires at + Extent(lines) + 2 == end <= bound <= 0x10000
    requires ram[at..at + Extent(lines)] == Records(at, lines) && ram[end - 2] == 0 && ram[end - 1] == 0
    ensures Walk(ram, at, bound) == lines
    decreases |lines|
  {
    if lines != [] {
      var line, next := lines[0], at + Size(lines[0]);
      assert at + Extent(lines) == next + Extent(lines[1..]);
      TwoParts(ram, at, lines);
      RecordReadsBack(ram, at, line);
      WalkEndsAtTheMark(ram, next, lines[1..], end, bound);
      WalkHead(ram, at, next, bound, line);
      assert [line] + lines[1..] == lines;
    }
  }

  /** So an imported program is exported whole even if VARTAB is lost afterwards. */
  lemma VartabMayBeLost(ram: Ram, lines: seq<Line>, vartab: nat)
    requires Usable(ram) && forall i | 0 <= i < |lines| :: Storable(lines[i])
    requires vartab < 0x10000 && Word(ram, TXTTAB) + 2 < Word(ram, HIMEM)
    requires vartab <= Word(ram, TXTTAB) || vartab >= Word(Placed(ram, lines), VARTAB)
    ensures ProgramIn(SetWord(Placed(ram, lines), 0x69, vartab)) == Injected(Word(ram, TXTTAB), Word(ram, HIMEM), lines)
  {
    var txttab, himem := Word(ram, TXTTAB), Word(ram, HIMEM);
    var p, end := Placed(ram, lines), EndOf(txttab, himem, lines);
    var r := SetWord(p, VARTAB, vartab);
    PlacedReads(ram, lines);
    EndIsBelowHimem(txttab, himem, lines);
    SetWordReads(p, VARTAB, vartab, TXTTAB);
    SetWordReads(p, VARTAB, vartab, HIMEM);
    assert r[txttab..end] == p[txttab..end];
    assert r[end] == p[end..end + 3][0] && r[end + 1] == p[end..end + 3][1];
    WalkEndsAtTheMark(r, txttab, Injected(txttab, himem, lines), end + 2, ProgramEnd(r));
  }

  // ------------------------------------------------------- any chain at all

  /**
   One step of the walk over any memory: a line is seen exactly when its address and
   number fit and the next address lies beyond both, within the bound, and the number
   is one a program can have.
   */
  lemma WalkSees(ram: Ram, at: nat, end: nat)
    requires end <= 0x10000
    ensures Walk(ram, at, end) != []
            <==> at + 4 < end && at + 4 < WordOf(ram, at) <= end && WordOf(ram, at + 2) <= 63999
  {
  }

  /** What it sees of a line: its number, and its bytes up to a zero or the next line. */
  lemma WalkSeesLine(ram: Ram, at: nat, end: nat)
    requires end <= 0x10000 && Walk(ram, at, end) != []
    ensures var line, next := Walk(ram, at, end)[0], WordOf(ram, at);
            && line.number == WordOf(ram, at + 2)
            && |line.tokens| <= next - at - 4 && line.tokens == ram[at + 4..at + 4 + |line.tokens|]
            && (forall i | 0 <= i < |line.tokens| :: line.tokens[i] != 0)
            && (at + 4 + |line.tokens| < next ==> ram[at + 4 + |line.tokens|] == 0)
            && Walk(ram, at, end)[1..] == Walk(ram, next, end)
  {
    BytesUpToZero(ram[at + 4..WordOf(ram, at)]);
    assert Walk(ram, at, end) == [Walk(ram, at, end)[0]] + Walk(ram, WordOf(ram, at), end);
  }

  lemma {:induction false} BytesUpToZero(bytes: seq<Byte>)
    ensures var s := UpToZero(bytes);
            && |s| <= |bytes| && s == bytes[..|s|] && (forall i | 0 <= i < |s| :: s[i] != 0)
            && (|s| < |bytes| ==> bytes[|s|] == 0)
  {
    if bytes != [] && bytes[0] != 0 {
      BytesUpToZero(bytes[1..]);
    }
  }
}
