/**
 Programs and their text undo each other: which rows read back as the line they
 were printed from, and which programs as themselves, in either mode.
 */
module TextRoundTrips {
  import opened Bytes
  import opened TokenTable
  import opened Tokenizer
  import opened StoredLines
  import opened LineNumbers
  import opened ProgramText
  import opened RowLayout

  /** A line as the tokenizer leaves it: its listing tokenizes to it again. */
  ghost predicate Canonical(line: Line, force: bool) {
    var s := ListingOf(line);
    && line.number <= MAX_LINE_NUMBER && AllPrintable(s) && (force ==> NoLower(s))
    && Tokens(APPLESOFT, s, false, false, force) == line.tokens
  }

  ghost predicate AllCanonical(lines: seq<Line>, force: bool) {
    forall i | 0 <= i < |lines| :: Canonical(lines[i], force)
  }

  function TokenLine(number: nat, statement: string, force: bool): Line {
    Line(number, Tokens(APPLESOFT, statement, false, false, force))
  }

  /** Tokenizing yields such a line, whose listing echoes the statement. */
  lemma TokenLineIsCanonical(number: nat, statement: string, force: bool)
    requires number <= MAX_LINE_NUMBER && AllPrintable(statement)
    ensures Canonical(TokenLine(number, statement, force), force)
    ensures Echoes(ListingOf(TokenLine(number, statement, force)), statement)
  {
    ApplesoftIsGood();
    ListingEchoes(APPLESOFT, statement, false, false, force);
    EchoIsPrintable(ListingOf(TokenLine(number, statement, force)), statement);
    RetokenizeExact(APPLESOFT, statement, false, false, force);
  }

  /** Byte by byte, those are the lines whose every byte the tokenizer would choose in its place. */
  lemma CanonicalExactly(line: Line, force: bool)
    ensures Canonical(line, force)
            <==> && line.number <= MAX_LINE_NUMBER && AllPrintable(ListingOf(line))
                 && (force ==> NoLower(ListingOf(line)))
                 && Chosen(APPLESOFT, line.tokens, false, false, force)
  {
    ApplesoftIsGood();
    ChosenExactly(APPLESOFT, line.tokens, false, false, force);
  }

  /** Every line a row yields is such a line. */
  lemma ReadLineIsCanonical(row: string, index: nat, mode: Mode, force: bool)
    requires LineOf(row, index, mode, force).Some?
    ensures Canonical(LineOf(row, index, mode, force).value, force)
  {
    var clean := Sanitize(row, force);
    var item := ParseRow(clean, index, mode).value;
    SanitizeCleans(row, force);
    if mode.Positional? {
      PositionalStatement(clean, index);
    } else {
      ExplicitStatement(clean);
    }
    TokenLineIsCanonical(item.number, item.statement, force);
  }

  /** Statements of different lengths make different lines. */
  lemma LengthsTellLinesApart(line: Line, statement: string, force: bool)
    requires Canonical(line, force) && AllPrintable(statement)
    ensures |statement| != |ListingOf(line)| ==> TokenLine(line.number, statement, force) != line
    ensures statement == ListingOf(line) ==> TokenLine(line.number, statement, force) == line
  {
    TokenLineIsCanonical(line.number, statement, force);
  }

  // ---------------------------------------------------------- one row

  function ExplicitRow(line: Line): string {
    Decimal(line.number) + " " + ListingOf(line)
  }

  predicate FitsExplicit(line: Line) {
    SpaceRun(ListingOf(line)) == 0 && |ExplicitRow(line)| <= MAX_ROW
  }

  predicate FitsPositional(line: Line) {
    var s := ListingOf(line);
    0 < |s| <= MAX_ROW && !SelfNumbered(s, line.number)
  }

  predicate Fits(line: Line, mode: Mode) {
    if mode.Positional? then FitsPositional(line) else FitsExplicit(line)
  }

  /** The room a printed number leaves for its statement. */
  function Room(number: nat): nat {
    if |Decimal(number)| < MAX_ROW then MAX_ROW - 1 - |Decimal(number)| else 0
  }

  function Cut(s: string, n: nat): string {
    if |s| <= n then s else s[..n]
  }

  lemma DigitsArePlain(digits: string)
    requires AllDigits(digits)
    ensures AllPrintable(digits + " ") && NoLower(digits + " ")
  {
  }

  lemma PlainConcat(a: string, b: string)
    ensures AllPrintable(a) && AllPrintable(b) ==> AllPrintable(a + b)
    ensures NoLower(a) && NoLower(b) ==> NoLower(a + b)
  {
  }

  lemma CutConcat(a: string, b: string, n: nat)
    requires |a| <= n
    ensures Cut(a + b, n) == a + Cut(b, n - |a|)
  {
  }

  /** What is left of a printed row once it is cleaned: the statement loses what is over the limit. */
  lemma CleanExplicitRow(line: Line, force: bool)
    requires line.number < 0x10000
    ensures Sanitize(ExplicitRow(line), force)
         == Decimal(line.number) + " " + Cut(Kept(ListingOf(line), force), Room(line.number))
  {
    var head, s := Decimal(line.number) + " ", ListingOf(line);
    DecimalReadsBack(line.number);
    DigitsArePlain(Decimal(line.number));
    KeptWhole(head, force);
    KeptConcat(head, s, force);
    CutConcat(head, Kept(s, force), MAX_ROW);
  }

  lemma CutAndSkip(s: string, n: nat)
    requires AllPrintable(s)
    ensures var t := Unspaced(Cut(s, n));
            AllPrintable(t) && |t| <= |s| && (|t| == |s| <==> |s| <= n && SpaceRun(s) == 0) && (|t| == |s| ==> t == s)
  {
    SuffixIsPrintable(Cut(s, n), SpaceRun(Cut(s, n)));
    UnspacedStarts(Cut(s, n));
  }

  lemma CleanRowIsRead(row: string, index: nat, number: nat, statement: string, force: bool)
    requires Sanitize(row, force) == Decimal(number) + " " + statement
    ensures LineOf(row, index, Explicit, force) == Some(TokenLine(Clamped(number), Unspaced(statement), force))
  {
    ReadsWhatIsPrinted(number, statement);
  }

  lemma RoomIsWhatIsLeft(line: Line)
    requires line.number <= MAX_LINE_NUMBER
    ensures |ExplicitRow(line)| <= MAX_ROW <==> |ListingOf(line)| <= Room(line.number)
  {
    DecimalReadsBack(line.number);
  }

  /**
   A row printed with its number keeps the number, up to the highest there is,
   whatever the line holds; the line reads back exactly when it fits and is one the
   tokenizer makes.
   */
  lemma ExplicitRowReadsBack(line: Line, index: nat, force: bool)
    ensures var read := LineOf(ExplicitRow(line), index, Explicit, force);
            && (line.number < 0x10000 ==> read.Some? && read.value.number == Clamped(line.number))
            && (read == Some(line) <==> FitsExplicit(line) && Canonical(line, force))
  {
    var row, n := ExplicitRow(line), Room(line.number);
    if line.number < 0x10000 {
      CleanExplicitRow(line, force);
      CleanRowIsRead(row, index, line.number, Cut(Kept(ListingOf(line), force), n), force);
    }
    if Canonical(line, force) {
      CanonicalExplicitRow(line, index, force);
    } else if LineOf(row, index, Explicit, force) == Some(line) {
      ReadLineIsCanonical(row, index, Explicit, force);
    }
  }

  lemma CanonicalExplicitRow(line: Line, index: nat, force: bool)
    requires Canonical(line, force)
    ensures LineOf(ExplicitRow(line), index, Explicit, force) == Some(line) <==> FitsExplicit(line)
  {
    var row, s, n := ExplicitRow(line), ListingOf(line), Room(line.number);
    var statement := Unspaced(Cut(s, n));
    KeptWhole(s, force);
    CleanExplicitRow(line, force);
    CleanRowIsRead(row, index, line.number, Cut(s, n), force);
    CutAndSkip(s, n);
    RoomIsWhatIsLeft(line);
    assert FitsExplicit(line) <==> |statement| == |s|;
    LengthsTellLinesApart(line, statement, force);
    assert LineOf(row, index, Explicit, force) == Some(TokenLine(line.number, statement, force));
  }

  /**
   A row placed by number keeps the number if it yields a line at all, and the line
   reads back exactly when its row is neither empty, nor too long, nor numbered
   itself, and it is one the tokenizer makes.
   */
  lemma PositionalRowReadsBack(line: Line, force: bool)
    ensures var read := LineOf(ListingOf(line), line.number, Positional, force);
            && (read.Some? ==> read.value.number == line.number)
            && (read == Some(line) <==> FitsPositional(line) && Canonical(line, force))
  {
    if Canonical(line, force) {
      CanonicalPositionalRow(line, force);
    } else if LineOf(ListingOf(line), line.number, Positional, force) == Some(line) {
      ReadLineIsCanonical(ListingOf(line), line.number, Positional, force);
    }
  }

  lemma CanonicalPositionalRow(line: Line, force: bool)
    requires Canonical(line, force)
    ensures LineOf(ListingOf(line), line.number, Positional, force) == Some(line) <==> FitsPositional(line)
  {
    var s := ListingOf(line);
    KeptWhole(s, force);
    var clean := Cut(s, MAX_ROW);
    if s != [] {
      var statement := ParsePositional(clean, line.number).value.statement;
      PositionalStatement(clean, line.number);
      assert LineOf(s, line.number, Positional, force) == Some(TokenLine(line.number, statement, force));
      PositionalKeepsTheRow(clean, line.number);
      LengthsTellLinesApart(line, statement, force);
      if SelfNumbered(clean, line.number) {
        assert |statement| < |clean|;
      }
    }
  }

  // --------------------------------------------------- whole programs

  /** The row a line is printed on. */
  function Shower(mode: Mode): Line -> string {
    if mode.Positional? then (line: Line) => ListingOf(line) else (line: Line) => ExplicitRow(line)
  }

  function Whole(mode: Mode): Line -> bool {
    (line: Line) => Fits(line, mode)
  }

  /** The rows a program is printed on. */
  function PrintedRows(lines: seq<Line>, mode: Mode, expected: nat): seq<string> {
    Layout(lines, Shower(mode), mode.Positional?, expected)
  }

  lemma RowReadsBack(line: Line, index: nat, mode: Mode, force: bool)
    requires Canonical(line, force)
    ensures Reads(Reader(mode, force), Shower(mode), Whole(mode), mode.Positional?, line, index)
  {
    if mode.Positional? {
      PositionalRowReadsBack(line, force);
    } else {
      ExplicitRowReadsBack(line, index, force);
    }
  }

  lemma PrintedLine(line: Line, mode: Mode, expected: nat)
    ensures Prefix(mode, line.number, expected) + ListingOf(line)
         == Newlines(Lead(line.number, mode.Positional?, expected)) + Shower(mode)(line)
  {
  }

  lemma {:induction false} PrintIsJoined(lines: seq<Line>, mode: Mode, expected: nat)
    ensures Print(lines, mode, expected) == Joined(PrintedRows(lines, mode, expected))
    decreases |lines|
  {
    if lines != [] {
      var line, next := lines[0], lines[0].number + 1;
      PrintIsJoined(lines[1..], mode, next);
      PrintedLine(line, mode, expected);
      RowsJoined(Lead(line.number, mode.Positional?, expected), Shower(mode)(line),
                 PrintedRows(lines[1..], mode, next));
    }
  }

  lemma RowsJoined(n: nat, row: string, rest: seq<string>)
    ensures Joined(BlankRows(n) + ([row] + rest)) == Newlines(n) + row + "\n" + Joined(rest)
  {
    BlankRowsJoin(n, [row] + rest);
    JoinedHead(row, rest);
  }

  lemma PrintableIsOneRow(s: string)
    requires AllPrintable(s)
    ensures OneRow(s)
  {
  }

  lemma ShownOnOneRow(line: Line, mode: Mode, force: bool)
    requires Canonical(line, force)
    ensures OneRow(Shower(mode)(line))
  {
    DecimalReadsBack(line.number);
    DigitsArePlain(Decimal(line.number));
    PlainConcat(Decimal(line.number) + " ", ListingOf(line));
    PrintableIsOneRow(ExplicitRow(line));
    PrintableIsOneRow(ListingOf(line));
  }

  lemma {:induction false} BlankRowsAreRows(n: nat)
    ensures forall row | row in BlankRows(n) :: OneRow(row)
  {
    if n > 0 {
      BlankRowsAreRows(n - 1);
    }
  }

  lemma {:induction false} PrintedRowsAreRows(lines: seq<Line>, mode: Mode, expected: nat, force: bool)
    requires AllCanonical(lines, force)
    ensures forall row | row in PrintedRows(lines, mode, expected) :: OneRow(row)
    decreases |lines|
  {
    if lines != [] {
      PrintedRowsAreRows(lines[1..], mode, lines[0].number + 1, force);
      ShownOnOneRow(lines[0], mode, force);
      BlankRowsAreRows(Lead(lines[0].number, mode.Positional?, expected));
    }
  }

  /** The printed text falls into the printed rows. */
  lemma PrintedTextHasItsRows(lines: seq<Line>, mode: Mode, force: bool)
    requires AllCanonical(lines, force)
    ensures RowsOf(Print(lines, mode, 1)) == PrintedRows(lines, mode, 1)
  {
    PrintIsJoined(lines, mode, 1);
    var rows := PrintedRows(lines, mode, 1);
    PrintedRowsAreRows(lines, mode, 1, force);
    forall k | 0 <= k < |rows| ensures OneRow(rows[k]) {
      assert rows[k] in rows;
    }
    RowsOfJoined(rows);
  }

  /** By position, line k stands on row k, counted from one. */
  lemma PositionalRowIsTheNumber(lines: seq<Line>, i: nat, force: bool)
    requires AllCanonical(lines, force) && Increasing(lines) && i < |lines| && 1 <= lines[0].number
    ensures var rows := RowsOf(Print(lines, Positional, 1));
            1 <= lines[i].number <= |rows| && rows[lines[i].number - 1] == ListingOf(lines[i])
  {
    PrintedTextHasItsRows(lines, Positional, force);
    LineStandsOnItsRow(lines, Shower(Positional), 1, i);
  }

  lemma RowsReadBack(lines: seq<Line>, mode: Mode, force: bool)
    requires AllCanonical(lines, force) && Placeable(lines, mode.Positional?, 1)
    ensures ReadAs(ParseRows(PrintedRows(lines, mode, 1), mode, force), lines, Whole(mode))
  {
    forall k, i: nat | 0 <= k < |lines|
      ensures Reads(Reader(mode, force), Shower(mode), Whole(mode), mode.Positional?, lines[k], i)
    {
      RowReadsBack(lines[k], i, mode, force);
    }
    LayoutReadsBack(lines, Shower(mode), Reader(mode, force), Whole(mode), mode.Positional?, 1, 1);
  }

  lemma {:induction false} RowsCountFrom(rows: seq<string>, index: nat, force: bool)
    ensures forall line | line in Collect(rows, index, Reader(Positional, force)) :: index <= line.number
    decreases |rows|
  {
    if rows != [] {
      RowsCountFrom(rows[1..], index + 1, force);
    }
  }

  /** By position no line is read with number 0. */
  lemma ReadFromOne(text: string, force: bool)
    ensures var read := Program(text, Positional, force);
            forall i | 0 <= i < |read| :: 1 <= read[i].number
  {
    var lines := ParseRows(RowsOf(text), Positional, force);
    RowsCountFrom(RowsOf(text), 1, force);
    SortSorts(lines);
    forall i | 0 <= i < |Sort(lines)| ensures 1 <= Sort(lines)[i].number {
      assert Sort(lines)[i] in multiset(Sort(lines));
    }
  }

  lemma LineZeroIsLost(text: string, lines: seq<Line>, n: nat, force: bool)
    requires lines != [] && lines[0].number == 0
    ensures Program(text, Positional, force) != lines
    ensures n <= |Program(text, Positional, force)| ==> Program(text, Positional, force)[..n] != lines
  {
    ReadFromOne(text, force);
  }

  lemma PlaceableReadsBack(lines: seq<Line>, mode: Mode, force: bool)
    requires AllCanonical(lines, force) && Placeable(lines, mode.Positional?, 1)
    ensures ReadAs(Program(Print(lines, mode, 1), mode, force), lines, Whole(mode))
  {
    PrintedTextHasItsRows(lines, mode, force);
    RowsReadBack(lines, mode, force);
    SortKeeps(ParseRows(PrintedRows(lines, mode, 1), mode, force));
  }

  /** Lines that some text yields, in an order some text yields them in. */
  ghost predicate InOrder(lines: seq<Line>, mode: Mode, force: bool) {
    AllCanonical(lines, force) && if mode.Positional? then Increasing(lines) else Sorted(lines)
  }

  predicate AllFitRows(lines: seq<Line>, mode: Mode) {
    && (forall i | 0 <= i < |lines| :: Fits(lines[i], mode))
    && (mode.Positional? && lines != [] ==> 1 <= lines[0].number)
  }

  lemma InOrderReadsBack(lines: seq<Line>, mode: Mode, force: bool)
    requires InOrder(lines, mode, force)
    ensures Program(Print(lines, mode, 1), mode, force) == lines <==> AllFitRows(lines, mode)
  {
    if Placeable(lines, mode.Positional?, 1) {
      PlaceableReadsBack(lines, mode, force);
    } else {
      LineZeroIsLost(Print(lines, mode, 1), lines, 0, force);
    }
  }

  /**
   A program printed and read in the same mode is the same program exactly when it
   is in order, each of its lines is one the tokenizer makes and fits its row, and
   by position the numbers start at 1, the first row there is.
   */
  lemma ProgramReadsBack(lines: seq<Line>, mode: Mode, force: bool)
    ensures Program(Print(lines, mode, 1), mode, force) == lines
            <==> InOrder(lines, mode, force) && AllFitRows(lines, mode)
  {
    if InOrder(lines, mode, force) {
      InOrderReadsBack(lines, mode, force);
    } else {
      ReadIsInOrder(Print(lines, mode, 1), mode, force);
    }
  }

  // ---------------------------------------------------------- any text

  lemma {:induction false} ReadLinesAreCanonical(rows: seq<string>, index: nat, mode: Mode, force: bool)
    ensures forall line | line in Collect(rows, index, Reader(mode, force)) :: Canonical(line, force)
    decreases |rows|
  {
    if rows != [] {
      ReadLinesAreCanonical(rows[1..], index + 1, mode, force);
      if LineOf(rows[0], index, mode, force).Some? {
        ReadLineIsCanonical(rows[0], index, mode, force);
      }
    }
  }

  /** Every program read from a text is one the round trip speaks about. */
  lemma ProgramIsCanonical(text: string, mode: Mode, force: bool)
    ensures AllCanonical(Program(text, mode, force), force) && Sorted(Program(text, mode, force))
  {
    var lines := ParseRows(RowsOf(text), mode, force);
    SortSorts(lines);
    ReadLinesAreCanonical(RowsOf(text), 1, mode, force);
    forall i | 0 <= i < |Sort(lines)| ensures Canonical(Sort(lines)[i], force) {
      assert Sort(lines)[i] in multiset(Sort(lines));
    }
  }

  lemma {:induction false} RowsIncrease(rows: seq<string>, index: nat, force: bool)
    ensures Increasing(Collect(rows, index, Reader(Positional, force)))
    decreases |rows|
  {
    if rows != [] {
      var more := Collect(rows[1..], index + 1, Reader(Positional, force));
      RowsIncrease(rows[1..], index + 1, force);
      RowsCountFrom(rows[1..], index + 1, force);
      assert forall i | 0 <= i < |more| :: more[i] in more;
    }
  }

  /** And its order is one that can be printed in the same mode. */
  lemma ReadIsInOrder(text: string, mode: Mode, force: bool)
    ensures InOrder(Program(text, mode, force), mode, force)
  {
    ProgramIsCanonical(text, mode, force);
    if mode.Positional? {
      RowsIncrease(RowsOf(text), 1, force);
      SortKeeps(ParseRows(RowsOf(text), mode, force));
    }
  }

  // --------------------------------------- lines no text yields

  lemma {:induction false} EntryIsThere(groups: seq<seq<TokenDef>>, k: nat, t: TokenDef)
    requires k < |groups| && t in groups[k]
    ensures t in Concat(groups)
  {
    if k > 0 {
      EntryIsThere(groups[1..], k - 1, t);
    }
  }

  lemma ForIsMatched()
    ensures FirstMatch(APPLESOFT, "FOR").Some?
  {
    var k, t := 10, TokenDef(0x81, "FOR");
    assert GROUPS[k] == THREE_1 && THREE_1[1] == t;
    EntryIsThere(GROUPS, k, t);
    ApplesoftIsGood();
    FirstMatchIsLongest(APPLESOFT, "FOR");
    assert StartsWith("FOR", t.name);
  }

  lemma PlainListing(b: Byte, rest: seq<Byte>)
    requires b < 0x80 && b != '"' as int
    ensures Listing(APPLESOFT, [b] + rest, false, false) == [b as char] + Listing(APPLESOFT, rest, false, false)
  {
  }

  lemma ForIsListed()
    ensures Listing(APPLESOFT, [0x46, 0x4F, 0x52], false, false) == "FOR"
  {
    PlainListing(0x52, []);
    PlainListing(0x4F, [0x52]);
    PlainListing(0x46, [0x4F, 0x52]);
    assert [0x46] + [0x4F, 0x52] == [0x46, 0x4F, 0x52] && [0x4F] + [0x52] == [0x4F, 0x52] && [0x52] + [] == [0x52];
  }

  lemma ForFits(line: Line, mode: Mode)
    requires ListingOf(line) == "FOR" && 1 <= line.number <= MAX_LINE_NUMBER
    ensures AllFitRows([line], mode)
  {
    DecimalReadsBack(line.number);
  }

  lemma ForIsNotChosen(bytes: seq<Byte>, s: string, force: bool)
    requires bytes != [] && bytes[0] == 0x46 && s == Listing(APPLESOFT, bytes, false, false)
    requires FirstMatch(APPLESOFT, s).Some?
    ensures !Chosen(APPLESOFT, bytes, false, false, force)
  {
  }

  /** Applesoft keeps the letters of FOR in a DATA statement; such a line fits its row in either mode and is lost. */
  lemma SpelledForIsLost(line: Line, mode: Mode, force: bool)
    requires line.tokens == [0x46, 0x4F, 0x52] && 1 <= line.number <= MAX_LINE_NUMBER
    ensures ListingOf(line) == "FOR" && AllFitRows([line], mode) && !Canonical(line, force)
    ensures Program(Print([line], mode, 1), mode, force) != [line]
  {
    ForIsListed();
    ForIsMatched();
    ForFits(line, mode);
    ForIsNotChosen(line.tokens, "FOR", force);
    CanonicalExactly(line, force);
    ProgramReadsBack([line], mode, force);
  }

  // ------------------------------------------- rows in their normal form

  /** A row of the form the lister prints: number, one blank, upper-case statement. */
  predicate NormalRow(item: Numbered) {
    && item.number <= MAX_LINE_NUMBER && AllPrintable(item.statement) && NoLower(item.statement)
    && SpaceRun(item.statement) == 0 && |RowOf(item)| <= MAX_ROW
  }

  function RowOf(item: Numbered): string {
    Decimal(item.number) + " " + item.statement
  }

  function Rows(items: seq<Numbered>): (rows: seq<string>)
    ensures |rows| == |items| && forall i | 0 <= i < |rows| :: rows[i] == RowOf(items[i])
  {
    if items == [] then [] else [RowOf(items[0])] + Rows(items[1..])
  }

  /** The rows of a program, in its order. */
  function ExplicitRows(lines: seq<Line>): (rows: seq<string>)
    ensures |rows| == |lines| && forall i | 0 <= i < |rows| :: rows[i] == ExplicitRow(lines[i])
  {
    if lines == [] then [] else [ExplicitRow(lines[0])] + ExplicitRows(lines[1..])
  }

  /** Such a row becomes a line of its number that is listed as that very row. */
  lemma NormalRowIsEchoed(item: Numbered, index: nat, force: bool)
    requires NormalRow(item)
    ensures var read := LineOf(RowOf(item), index, Explicit, force);
            read.Some? && read.value.number == item.number && ExplicitRow(read.value) == RowOf(item)
  {
    var line := TokenLine(item.number, item.statement, force);
    TokenLineIsCanonical(item.number, item.statement, force);
    assert ListingOf(line) == item.statement;
    ExplicitRowReadsBack(line, index, force);
  }

  lemma {:induction false} NormalRowsAreEchoed(items: seq<Numbered>, index: nat, force: bool)
    requires forall i | 0 <= i < |items| :: NormalRow(items[i])
    ensures var lines := Collect(Rows(items), index, Reader(Explicit, force));
            && ExplicitRows(lines) == Rows(items)
            && forall i | 0 <= i < |lines| :: lines[i].number == items[i].number
    decreases |items|
  {
    if items != [] {
      NormalRowIsEchoed(items[0], index, force);
      NormalRowsAreEchoed(items[1..], index + 1, force);
      var line := LineOf(RowOf(items[0]), index, Explicit, force).value;
      var more := Collect(Rows(items[1..]), index + 1, Reader(Explicit, force));
      assert Rows(items)[1..] == Rows(items[1..]);
      assert Collect(Rows(items), index, Reader(Explicit, force)) == [line] + more;
      assert ([line] + more)[1..] == more;
    }
  }

  lemma SortKeepsRows(lines: seq<Line>)
    ensures multiset(ExplicitRows(Sort(lines))) == multiset(ExplicitRows(lines))
  {
    SortKeepsShown(lines, Shower(Explicit));
    AsShown(lines);
    AsShown(Sort(lines));
  }

  lemma AsShown(lines: seq<Line>)
    ensures ExplicitRows(lines) == Shown(lines, Shower(Explicit))
  {
  }

  lemma {:induction false} PrintExplicit(lines: seq<Line>, expected: nat)
    ensures Print(lines, Explicit, expected) == Joined(ExplicitRows(lines))
    decreases |lines|
  {
    if lines != [] {
      PrintExplicit(lines[1..], lines[0].number + 1);
    }
  }

  /** A text of such rows is a program of exactly those rows, put in the order of their numbers. */
  lemma NormalTextIsEchoedSorted(items: seq<Numbered>, force: bool)
    requires forall i | 0 <= i < |items| :: NormalRow(items[i])
    ensures var lines := Program(Joined(Rows(items)), Explicit, force);
            && Sorted(lines) && multiset(ExplicitRows(lines)) == multiset(Rows(items))
            && Print(lines, Explicit, 1) == Joined(ExplicitRows(lines))
  {
    var rows := Rows(items);
    forall k | 0 <= k < |rows| ensures OneRow(rows[k]) {
      DecimalReadsBack(items[k].number);
      DigitsArePlain(Decimal(items[k].number));
      PlainConcat(Decimal(items[k].number) + " ", items[k].statement);
      PrintableIsOneRow(rows[k]);
    }
    RowsOfJoined(rows);
    var lines := ParseRows(rows, Explicit, force);
    NormalRowsAreEchoed(items, 1, force);
    SortSorts(lines);
    SortKeepsRows(lines);
    PrintExplicit(Sort(lines), 1);
  }
}
