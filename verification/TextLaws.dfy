/**
 Rows of program text, character by character: what cleaning keeps, how a row comes
 apart in either mode whatever its blanks and zeros, and what bytes without a
 keyword are listed as.
 */
module TextLaws {
  import opened Bytes
  import opened TokenTable
  import opened Tokenizer
  import opened LineNumbers
  import opened ProgramText

  // ------------------------------------------------------------- cleaning

  /** The characters from blank to tilde are kept, as they are where upper case is not forced. */
  lemma {:induction false} PrintableIsKept(row: string)
    requires forall i | 0 <= i < |row| :: 0x20 <= row[i] as int <= 0x7E
    ensures Kept(row, false) == row
    decreases |row|
  {
    if row != [] {
      assert forall i | 0 <= i < |row[1..]| :: row[1..][i] == row[i + 1];
      PrintableIsKept(row[1..]);
      assert Normalized(row[0], false) == row[0];
    }
  }

  /** Dropping a character that is not printable from the middle of a row makes no difference. */
  lemma UnprintableIsDropped(a: string, c: char, b: string, force: bool)
    requires c as int < 0x20 || 0x7F <= c as int
    ensures Kept(a + [c] + b, force) == Kept(a + b, force)
  {
    KeptConcat(a + [c], b, force);
    KeptConcat(a, [c], force);
    KeptConcat(a, b, force);
    assert [c][1..] == [];
  }

  /** A row is cut after 255 of them. */
  lemma CleanedIsTheFront(row: string, force: bool)
    ensures Sanitize(row, force) <= Kept(row, force)
    ensures |Sanitize(row, force)| == if |Kept(row, force)| < 255 then |Kept(row, force)| else 255
  {
  }

  // ------------------------------------------------------------- numbers

  /** The blanks of the C library. */
  lemma Blanks(c: char)
    ensures IsSpace(c) <==> c as int in {9, 10, 11, 12, 13, 32}
  {
  }

  predicate AllBlank(s: string) {
    forall i | 0 <= i < |s| :: IsSpace(s[i])
  }

  lemma {:induction false} BlanksAreSkipped(blanks: string, s: string)
    requires AllBlank(blanks)
    ensures Unspaced(blanks + s) == Unspaced(s)
    ensures s == [] || !IsSpace(s[0]) ==> Unspaced(s) == s
    decreases |blanks|
  {
    if blanks == [] {
      assert blanks + s == s;
    } else {
      assert (blanks + s)[1..] == blanks[1..] + s;
      BlanksAreSkipped(blanks[1..], s);
      assert Unspaced(blanks + s) == Unspaced((blanks + s)[1..]);
    }
  }

  /** Leading zeros do not count. */
  lemma {:induction false} ZerosDoNotCount(digits: string)
    requires digits != []
    ensures Value("0" + digits) == Value(digits)
    decreases |digits|
  {
    var row := "0" + digits;
    var init := digits[..|digits| - 1];
    assert row[..|row| - 1] == "0" + init && row[|row| - 1] == digits[|digits| - 1];
    if init != [] {
      ZerosDoNotCount(init);
    } else {
      assert Value("0") == 0 && "0" + init == "0";
    }
  }

  /** The number a run of digits stands for: more than five of them, or a value over 63999, count as 63999. */
  function NumberOf(digits: string): nat {
    if |digits| > 5 || Value(digits) > 63999 then 63999 else Value(digits)
  }

  /**
   A numbered row: blanks, digits, and whatever follows, with a blank between or
   none. It reads as the digits' number and what follows less its opening blanks.
   */
  lemma NumberedRowReads(blanks: string, digits: string, rest: string)
    requires AllBlank(blanks) && AllDigits(digits) && digits != [] && (rest == [] || !IsDigit(rest[0]))
    ensures ParseExplicit(blanks + (digits + rest)) == Some(Numbered(NumberOf(digits), Unspaced(rest)))
  {
    var s := digits + rest;
    assert !IsSpace(s[0]) && s[..|digits|] == digits && s[|digits|..] == rest;
    BlanksAreSkipped(blanks, s);
    DigitRunIs(s, |digits|);
  }

  /** A row whose first character after the blanks is no digit has no number. */
  lemma UnnumberedRowIsNone(blanks: string, rest: string)
    requires AllBlank(blanks) && (rest == [] || (!IsDigit(rest[0]) && !IsSpace(rest[0])))
    ensures ParseExplicit(blanks + rest) == None
  {
    BlanksAreSkipped(blanks, rest);
  }

  /**
   By position a row that opens with digits and a blank loses both if they make its
   own index; with other digits, or with something else behind them, it stays whole.
   */
  lemma PositionalRowReads(digits: string, rest: string, index: nat)
    requires AllDigits(digits) && digits != [] && (rest == [] || !IsDigit(rest[0])) && index <= 63999
    ensures ParsePositional(digits + rest, index)
         == if rest != [] && IsSpace(rest[0]) && (if |digits| > 5 then 63999 else Value(digits)) == index
            then Some(Numbered(index, Unspaced(rest))) else Some(Numbered(index, digits + rest))
  {
    var s := digits + rest;
    assert s[..|digits|] == digits && s[|digits|..] == rest;
    DigitRunIs(s, |digits|);
  }

  /** A row that opens with no digit stays whole, opening blanks included; beyond row 63999 there are no lines. */
  lemma OtherRowStays(row: string, index: nat)
    requires row == [] || !IsDigit(row[0])
    ensures ParsePositional(row, index) == if index <= 63999 then Some(Numbered(index, row)) else None
  {
  }

  // -------------------------------------------------- lines from a text

  /** A cleaned row that is empty, or has no number where it needs one, yields no line; any other yields one. */
  lemma LineFromRow(row: string, index: nat, mode: Mode, force: bool)
    ensures var clean := Sanitize(row, force);
            var item := if mode.Positional? then ParsePositional(clean, index) else ParseExplicit(clean);
            LineOf(row, index, mode, force)
            == if clean == [] || item.None? then None
               else Some(Line(item.value.number, Tokens(APPLESOFT, item.value.statement, false, false, force)))
  {
  }

  /** Rows are counted from one. */
  lemma RowsCountFromOne(row: string, force: bool)
    requires OneRow(row) && Sanitize(row, force) != [] && !IsDigit(Sanitize(row, force)[0])
    ensures var lines := Program(row + "\n", Positional, force);
            |lines| == 1 && lines[0].number == 1
  {
    FirstRowOf(row, "");
    assert row + "\n" + "" == row + "\n";
    OtherRowStays(Sanitize(row, force), 1);
    var line := LineOf(row, 1, Positional, force);
    var read := Reader(Positional, force);
    assert [row][1..] == [] && read(row, 1) == line;
    assert Collect([row], 1, read) == Only(read(row, 1)) + Collect([], 2, read) == [line.value];
    SortKeeps([line.value]);
  }

  // ------------------------------------------------------ unknown bytes

  /** The value of a hexadecimal digit in small letters. */
  function HexValue(c: char): int {
    if '0' <= c <= '9' then c as int - '0' as int else if 'a' <= c <= 'f' then c as int - 'a' as int + 10 else -1
  }

  /** A byte above all tokens is listed by its value, in two hexadecimal digits. */
  lemma UnknownTokenIsSpelled(b: Byte)
    ensures var s := UnknownToken(b);
            && |s| == 11 && s[..8] == "?TOKEN_$" && s[10] == '?'
            && 0 <= HexValue(s[8]) && 0 <= HexValue(s[9]) && 0x10 * HexValue(s[8]) + HexValue(s[9]) == b
  {
    HexDigitIs(b / 16);
    HexDigitIs(b % 16);
  }

  lemma HexDigitIs(d: nat)
    requires d < 16
    ensures HexValue(HexDigit(d)) == d
  {
  }

  /** Only bytes above $EA are listed so. */
  lemma KnownTokensHaveNames(b: Byte)
    ensures FindName(APPLESOFT, b).Some? ==> FindName(APPLESOFT, b).value == Keyword(b) && 0x80 <= b <= 0xEA
  {
    ApplesoftIsGood();
    if FindName(APPLESOFT, b).Some? {
      var i := FoundAt(APPLESOFT, b);
    }
  }

  lemma {:induction false} FoundAt(table: seq<TokenDef>, b: Byte) returns (i: nat)
    requires FindName(table, b).Some?
    ensures i < |table| && table[i] == TokenDef(b, FindName(table, b).value)
  {
    if table[0].token == b {
      i := 0;
    } else {
      var j := FoundAt(table[1..], b);
      i := j + 1;
    }
  }
}
