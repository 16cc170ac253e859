/**
 A BASIC program as text: rows cut from the text, cleaned, parsed, tokenized and
 sorted on the way in, and printed in either mode on the way out.
 */
module ProgramText {
  import opened Bytes
  import opened TokenTable
  import opened Tokenizer
  import opened LineNumbers

  const MAX_ROW: nat := 255

  datatype Mode = Explicit | Positional

  /** A program line as it is kept in memory. */
  datatype Line = Line(number: nat, tokens: seq<Byte>)

  // ------------------------------------------------------------- rows

  function LineEnd(text: string): (n: nat)
    ensures n <= |text| && (forall i | 0 <= i < n :: text[i] != '\n') && (n < |text| ==> text[n] == '\n')
  {
    if text == [] || text[0] == '\n' then 0
    else 1 + LineEnd(text[1..])
  }

  /** The rows of a text; a final newline opens no row. */
  function RowsOf(text: string): seq<string>
    decreases |text|
  {
    if text == [] then []
    else
      var n := LineEnd(text);
      [text[..n]] + if n < |text| then RowsOf(text[n + 1..]) else []
  }

  function Joined(rows: seq<string>): string {
    if rows == [] then "" else rows[0] + "\n" + Joined(rows[1..])
  }

  predicate OneRow(row: string) {
    '\n' !in row
  }

  lemma FirstRowOf(row: string, rest: string)
    requires OneRow(row)
    ensures RowsOf(row + "\n" + rest) == [row] + RowsOf(rest)
  {
    var text := row + "\n" + rest;
    assert text[|row|] == '\n';
    assert forall i | 0 <= i < |row| :: text[i] == row[i];
    assert LineEnd(text) == |row|;
    assert text[..|row|] == row && text[|row| + 1..] == rest;
  }

  /** Rows that are joined are cut apart again. */
  lemma {:induction false} RowsOfJoined(rows: seq<string>)
    requires forall k | 0 <= k < |rows| :: OneRow(rows[k])
    ensures RowsOf(Joined(rows)) == rows
  {
    if rows != [] {
      RowsOfJoined(rows[1..]);
      FirstRowOf(rows[0], Joined(rows[1..]));
    }
  }

  // --------------------------------------------------------- cleaning

  /** The printable characters of a row, raised to upper case when that is forced. */
  function Kept(row: string, force: bool): (s: string)
    ensures |s| <= |row|
    decreases |row|
  {
    if row == [] then []
    else if Printable(row[0]) then [Normalized(row[0], force)] + Kept(row[1..], force)
    else Kept(row[1..], force)
  }

  function Sanitize(row: string, force: bool): (s: string) {
    var kept := Kept(row, force);
    if |kept| <= MAX_ROW then kept else kept[..MAX_ROW]
  }

  lemma {:induction false} KeptIsPlain(row: string, force: bool)
    ensures AllPrintable(Kept(row, force)) && (force ==> NoLower(Kept(row, force)))
    decreases |row|
  {
    if row != [] {
      KeptIsPlain(row[1..], force);
    }
  }

  /** Whatever the row, what is parsed is printable, short enough, and upper case when that is forced. */
  lemma SanitizeCleans(row: string, force: bool)
    ensures var s := Sanitize(row, force);
            AllPrintable(s) && |s| <= MAX_ROW && (force ==> NoLower(s))
  {
    KeptIsPlain(row, force);
  }

  lemma {:induction false} KeptWhole(row: string, force: bool)
    requires AllPrintable(row) && (force ==> NoLower(row))
    ensures Kept(row, force) == row
  {
    if row != [] {
      assert Printable(row[0]) && (force ==> !IsLower(row[0]));
      KeptWhole(row[1..], force);
    }
  }

  lemma {:induction false} KeptConcat(row: string, more: string, force: bool)
    ensures Kept(row + more, force) == Kept(row, force) + Kept(more, force)
  {
    if row == [] {
      assert row + more == more;
    } else {
      assert (row + more)[1..] == row[1..] + more;
      KeptConcat(row[1..], more, force);
    }
  }

  // ---------------------------------------------------- parsing a text

  function ParseRow(row: string, index: nat, mode: Mode): Option<Numbered> {
    if mode.Positional? then ParsePositional(row, index) else ParseExplicit(row)
  }

  /** The line a row contributes, if any. */
  function LineOf(row: string, index: nat, mode: Mode, force: bool): Option<Line> {
    var clean := Sanitize(row, force);
    if clean == [] then None
    else match ParseRow(clean, index, mode)
      case None => None
      case Some(line) => Some(Line(line.number, Tokens(APPLESOFT, line.statement, false, false, force)))
  }

  function Only(line: Option<Line>): seq<Line> {
    match line case Some(l) => [l] case None => []
  }

  /** The lines that rows contribute when each is read at its index. */
  function Collect(rows: seq<string>, index: nat, read: (string, nat) -> Option<Line>): seq<Line>
    decreases |rows|
  {
    if rows == [] then [] else Only(read(rows[0], index)) + Collect(rows[1..], index + 1, read)
  }

  function Reader(mode: Mode, force: bool): (string, nat) -> Option<Line> {
    (row: string, index: nat) => LineOf(row, index, mode, force)
  }

  function ParseRows(rows: seq<string>, mode: Mode, force: bool): seq<Line> {
    Collect(rows, 1, Reader(mode, force))
  }

  function Insert(line: Line, lines: seq<Line>): seq<Line> {
    if lines == [] || line.number < lines[0].number then [line] + lines
    else [lines[0]] + Insert(line, lines[1..])
  }

  /** Lines in the order of their numbers; equal numbers keep the order of the text. */
  function Sort(lines: seq<Line>): seq<Line> {
    if lines == [] then [] else Insert(lines[|lines| - 1], Sort(lines[..|lines| - 1]))
  }

  function Program(text: string, mode: Mode, force: bool): seq<Line> {
    Sort(ParseRows(RowsOf(text), mode, force))
  }

  // ----------------------------------------------------------- sorting

  predicate Sorted(lines: seq<Line>) {
    forall i, j | 0 <= i < j < |lines| :: lines[i].number <= lines[j].number
  }

  predicate Increasing(lines: seq<Line>) {
    forall i, j | 0 <= i < j < |lines| :: lines[i].number < lines[j].number
  }

  predicate DistinctNumbers(lines: seq<Line>) {
    forall i, j | 0 <= i < j < |lines| :: lines[i].number != lines[j].number
  }

  lemma {:induction false} InsertKeepsLines(line: Line, lines: seq<Line>)
    ensures multiset(Insert(line, lines)) == multiset(lines) + multiset{line}
    ensures forall l | l in Insert(line, lines) :: l == line || l in lines
  {
    if lines != [] && line.number >= lines[0].number {
      InsertKeepsLines(line, lines[1..]);
      assert lines == [lines[0]] + lines[1..];
    }
  }

  lemma {:induction false} InsertSorts(line: Line, lines: seq<Line>)
    requires Sorted(lines)
    ensures Sorted(Insert(line, lines))
  {
    if lines != [] && line.number >= lines[0].number {
      var rest := Insert(line, lines[1..]);
      InsertSorts(line, lines[1..]);
      InsertKeepsLines(line, lines[1..]);
      forall j | 0 <= j < |rest| ensures lines[0].number <= rest[j].number {
        assert rest[j] in rest;
      }
    }
  }

  /** Sorting puts the same lines in order. */
  lemma {:induction false} SortSorts(lines: seq<Line>)
    ensures Sorted(Sort(lines)) && multiset(Sort(lines)) == multiset(lines)
  {
    if lines != [] {
      var init := lines[..|lines| - 1];
      SortSorts(init);
      InsertSorts(lines[|lines| - 1], Sort(init));
      InsertKeepsLines(lines[|lines| - 1], Sort(init));
      assert lines == init + [lines[|lines| - 1]];
    }
  }

  lemma HeadsAgree(a: seq<Line>, b: seq<Line>)
    requires Sorted(a) && Sorted(b) && multiset(a) == multiset(b) && DistinctNumbers(a) && a != []
    ensures b != [] && a[0] == b[0]
  {
    assert a[0] in multiset(b);
    var i :| 0 <= i < |b| && b[i] == a[0];
    assert b[0] in multiset(a);
    var j :| 0 <= j < |a| && a[j] == b[0];
    assert a[0].number <= a[j].number && b[0].number <= b[i].number;
  }

  lemma TailLines(lines: seq<Line>)
    requires lines != []
    ensures multiset(lines[1..]) == multiset(lines) - multiset{lines[0]}
  {
    assert lines == [lines[0]] + lines[1..];
  }

  /** With distinct numbers there is one way to sort, whatever the algorithm. */
  lemma {:induction false} SortedIsUnique(a: seq<Line>, b: seq<Line>)
    requires Sorted(a) && Sorted(b) && multiset(a) == multiset(b) && DistinctNumbers(a)
    ensures a == b
  {
    if a == [] {
      assert |multiset(b)| == 0;
    } else {
      HeadsAgree(a, b);
      TailLines(a);
      TailLines(b);
      SortedIsUnique(a[1..], b[1..]);
    }
  }

  lemma InsertLast(line: Line, lines: seq<Line>)
    requires forall i | 0 <= i < |lines| :: lines[i].number <= line.number
    ensures Insert(line, lines) == lines + [line]
  {
    if lines != [] {
      InsertLast(line, lines[1..]);
    }
  }

  lemma {:induction false} SortKeeps(lines: seq<Line>)
    requires Sorted(lines)
    ensures Sort(lines) == lines
  {
    if lines != [] {
      SortKeeps(lines[..|lines| - 1]);
      InsertLast(lines[|lines| - 1], lines[..|lines| - 1]);
    }
  }

  // ---------------------------------------------------------- printing

  function Newlines(n: nat): string {
    if n == 0 then "" else "\n" + Newlines(n - 1)
  }

  /** The empty rows that lead to a line by position; there are none before a number passed already. */
  function Gap(number: nat, expected: nat): string {
    if expected < number then Newlines(number - expected) else ""
  }

  function Prefix(mode: Mode, number: nat, expected: nat): string {
    if mode.Positional? then Gap(number, expected) else Decimal(number) + " "
  }

  function ListingOf(line: Line): string {
    Listing(APPLESOFT, line.tokens, false, false)
  }

  function Print(lines: seq<Line>, mode: Mode, expected: nat): string
    decreases |lines|
  {
    if lines == [] then ""
    else
      Prefix(mode, lines[0].number, expected) + ListingOf(lines[0]) + "\n"
      + Print(lines[1..], mode, lines[0].number + 1)
  }

  /** Every line a text yields fits a program: a number in range and no zero byte. */
  predicate Storable(line: Line) {
    line.number <= MAX_LINE_NUMBER && forall i | 0 <= i < |line.tokens| :: line.tokens[i] != 0
  }

  lemma {:induction false} TokensAreNonzero(table: seq<TokenDef>, s: string, quoted: bool, rem: bool, force: bool)
    requires Good(table) && AllPrintable(s)
    ensures forall b | b in Tokens(table, s, quoted, rem, force) :: b != 0
    ensures |Tokens(table, s, quoted, rem, force)| <= |s|
    decreases |s|
  {
    if s != [] {
      assert Printable(s[0]);
      var m := FirstMatch(table, s);
      if s[0] == '"' {
        TokensAreNonzero(table, s[1..], !quoted, rem, force);
      } else if !quoted && !rem && m.Some? {
        MatchFits(table, s);
        TokensAreNonzero(table, s[|m.value.name|..], false, m.value.token == TOKEN_REM, force);
      } else {
        TokensAreNonzero(table, s[1..], quoted, rem, force);
      }
    }
  }

  lemma SuffixIsPrintable(s: string, n: nat)
    requires AllPrintable(s) && n <= |s|
    ensures AllPrintable(s[n..]) && |s[n..]| <= |s|
  {
  }

  lemma ExplicitStatement(row: string)
    requires AllPrintable(row) && ParseExplicit(row).Some?
    ensures var line := ParseExplicit(row).value;
            line.number <= MAX_LINE_NUMBER && AllPrintable(line.statement) && |line.statement| <= |row|
  {
    var s := Unspaced(row);
    var rest := s[DigitRun(s)..];
    SuffixIsPrintable(row, SpaceRun(row));
    SuffixIsPrintable(s, DigitRun(s));
    SuffixIsPrintable(rest, SpaceRun(rest));
  }

  lemma PositionalStatement(row: string, index: nat)
    requires AllPrintable(row) && ParsePositional(row, index).Some?
    ensures var line := ParsePositional(row, index).value;
            line.number <= MAX_LINE_NUMBER && AllPrintable(line.statement) && |line.statement| <= |row|
  {
    var rest := row[DigitRun(row)..];
    SuffixIsPrintable(row, DigitRun(row));
    SuffixIsPrintable(rest, SpaceRun(rest));
  }

  /** What one row contributes: its statement is printable, so its line can be stored. */
  lemma LineOfIsStorable(row: string, index: nat, mode: Mode, force: bool)
    requires LineOf(row, index, mode, force).Some?
    ensures Storable(LineOf(row, index, mode, force).value)
    ensures |LineOf(row, index, mode, force).value.tokens| <= MAX_ROW
  {
    var clean := Sanitize(row, force);
    SanitizeCleans(row, force);
    var line := ParseRow(clean, index, mode).value;
    if mode.Positional? {
      PositionalStatement(clean, index);
    } else {
      ExplicitStatement(clean);
    }
    ApplesoftIsGood();
    var tokens := Tokens(APPLESOFT, line.statement, false, false, force);
    TokensAreNonzero(APPLESOFT, line.statement, false, false, force);
    forall i | 0 <= i < |tokens| ensures tokens[i] != 0 {
      assert tokens[i] in tokens;
    }
  }

  lemma {:induction false} RowsAreStorable(rows: seq<string>, index: nat, mode: Mode, force: bool)
    ensures forall line | line in Collect(rows, index, Reader(mode, force)) :: Storable(line)
    decreases |rows|
  {
    if rows != [] {
      if LineOf(rows[0], index, mode, force).Some? {
        LineOfIsStorable(rows[0], index, mode, force);
      }
      RowsAreStorable(rows[1..], index + 1, mode, force);
    }
  }

  /** Whatever the text, its program is sorted and can be stored. */
  lemma ProgramIsStorable(text: string, mode: Mode, force: bool)
    ensures Sorted(Program(text, mode, force))
    ensures forall i | 0 <= i < |Program(text, mode, force)| :: Storable(Program(text, mode, force)[i])
  {
    var lines := ParseRows(RowsOf(text), mode, force);
    SortSorts(lines);
    RowsAreStorable(RowsOf(text), 1, mode, force);
    forall i | 0 <= i < |Sort(lines)| ensures Storable(Sort(lines)[i]) {
      assert Sort(lines)[i] in multiset(Sort(lines));
    }
  }
}
