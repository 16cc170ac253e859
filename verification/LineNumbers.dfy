/**
 Line numbers in program text: how they are printed, and how a row is split
 into its number and its statement when the row carries the number (explicit)
 and when its place in the text is the number (positional).
 */
module LineNumbers {
  import opened Bytes

  const MAX_LINE_NUMBER: nat := 63999

  /** A statement under its line number. */
  datatype Numbered = Numbered(number: nat, statement: string)

  predicate IsDigit(c: char) {
    '0' <= c <= '9'
  }

  predicate IsSpace(c: char) {
    c == ' ' || 9 as char <= c <= 13 as char
  }

  /** How many digits `s` starts with. */
  function DigitRun(s: string): (n: nat)
    ensures n <= |s|
  {
    if s == [] || !IsDigit(s[0]) then 0 else 1 + DigitRun(s[1..])
  }

  /** How many blanks `s` starts with. */
  function SpaceRun(s: string): (n: nat)
    ensures n <= |s|
  {
    if s == [] || !IsSpace(s[0]) then 0 else 1 + SpaceRun(s[1..])
  }

  /** A run of digits ends where they stop. */
  lemma {:induction false} DigitRunStops(s: string)
    ensures AllDigits(s[..DigitRun(s)])
    ensures DigitRun(s) < |s| ==> !IsDigit(s[DigitRun(s)])
  {
    if s != [] && IsDigit(s[0]) {
      DigitRunStops(s[1..]);
      assert s[..DigitRun(s)] == [s[0]] + s[1..][..DigitRun(s[1..])];
    }
  }

  lemma {:induction false} DigitRunIs(s: string, n: nat)
    requires n <= |s| && AllDigits(s[..n]) && (n < |s| ==> !IsDigit(s[n]))
    ensures DigitRun(s) == n
  {
    if n > 0 {
      assert s[..n][0] == s[0];
      assert s[1..][..n - 1] == s[..n][1..];
      DigitRunIs(s[1..], n - 1);
    }
  }

  /** Nothing is left to skip after the blanks. */
  lemma {:induction false} UnspacedStarts(s: string)
    ensures SpaceRun(Unspaced(s)) == 0
    ensures |Unspaced(s)| == |s| <==> SpaceRun(s) == 0
    ensures SpaceRun(s) == 0 ==> Unspaced(s) == s
  {
    if s != [] && IsSpace(s[0]) {
      UnspacedStarts(s[1..]);
      assert Unspaced(s) == Unspaced(s[1..]);
    }
  }

  function Unspaced(s: string): string {
    s[SpaceRun(s)..]
  }

  predicate AllDigits(s: string) {
    forall i | 0 <= i < |s| :: IsDigit(s[i])
  }

  function DigitValue(c: char): nat {
    if IsDigit(c) then c as int - '0' as int else 0
  }

  function Value(digits: string): nat {
    if digits == [] then 0 else 10 * Value(digits[..|digits| - 1]) + DigitValue(digits[|digits| - 1])
  }

  function Decimal(n: nat): string {
    var last := [(n % 10 + '0' as int) as char];
    if n < 10 then last else Decimal(n / 10) + last
  }

  /** The value a run of digits stands for; a run longer than five counts as the highest number. */
  function RunValue(digits: string): nat {
    if |digits| <= 5 then Value(digits) else MAX_LINE_NUMBER
  }

  function Clamped(n: nat): nat {
    if n <= MAX_LINE_NUMBER then n else MAX_LINE_NUMBER
  }

  function ParseExplicit(row: string): Option<Numbered> {
    var s := Unspaced(row);
    var n := DigitRun(s);
    if n == 0 then None else Some(Numbered(Clamped(RunValue(s[..n])), Unspaced(s[n..])))
  }

  /** The row repeats its own index as a number in front. */
  predicate SelfNumbered(row: string, index: nat) {
    var n := DigitRun(row);
    0 < n < |row| && IsSpace(row[n]) && RunValue(row[..n]) == index
  }

  function ParsePositional(row: string, index: nat): Option<Numbered> {
    if index > MAX_LINE_NUMBER then None
    else if SelfNumbered(row, index) then Some(Numbered(index, Unspaced(row[DigitRun(row)..])))
    else Some(Numbered(index, row))
  }

  // ------------------------------------------------- printing and reading

  /** What is printed reads back, has no leading zero, and has five digits exactly when it needs no more. */
  lemma {:induction false} DecimalReadsBack(n: nat)
    ensures AllDigits(Decimal(n)) && Value(Decimal(n)) == n
    ensures Decimal(n) != [] && (Decimal(n)[0] == '0' <==> n == 0)
    ensures |Decimal(n)| <= 5 <==> n < 100000
  {
    if n >= 10 {
      DecimalReadsBack(n / 10);
      assert Decimal(n)[..|Decimal(n)| - 1] == Decimal(n / 10);
      DecimalLength(n);
    }
  }

  lemma DecimalLength(n: nat)
    ensures |Decimal(n)| <= 5 <==> n < 100000
  {
    var a, b, c, d, e := n / 10, n / 10 / 10, n / 10 / 10 / 10, n / 10 / 10 / 10 / 10, n / 10 / 10 / 10 / 10 / 10;
    assert |Decimal(e)| >= 1;
    assert n < 100000 <==> e == 0;
    assert n >= 10 ==> |Decimal(n)| == |Decimal(a)| + 1;
    assert a >= 10 ==> |Decimal(a)| == |Decimal(b)| + 1;
    assert b >= 10 ==> |Decimal(b)| == |Decimal(c)| + 1;
    assert c >= 10 ==> |Decimal(c)| == |Decimal(d)| + 1;
    assert d >= 10 ==> |Decimal(d)| == |Decimal(e)| + 1;
  }

  /** Digits, a blank and a statement come apart where they were put together. */
  lemma DigitsThenSpace(digits: string, statement: string)
    requires AllDigits(digits) && digits != []
    ensures var row := digits + " " + statement;
            && Unspaced(row) == row && DigitRun(row) == |digits|
            && row[..|digits|] == digits && Unspaced(row[|digits|..]) == Unspaced(statement)
  {
    var row := digits + " " + statement;
    assert row[0] == digits[0] && row[|digits|] == ' ';
    assert SpaceRun(row) == 0;
    assert row[..|digits|] == digits;
    assert row[|digits|..] == " " + statement;
    DigitRunIs(row, |digits|);
    SpaceFirst(statement);
  }

  /** A printed number and statement are read back, whatever blanks open the statement. */
  lemma ReadsWhatIsPrinted(n: nat, statement: string)
    ensures ParseExplicit(Decimal(n) + " " + statement) == Some(Numbered(Clamped(n), Unspaced(statement)))
  {
    DecimalReadsBack(n);
    var digits := Decimal(n);
    DigitsThenSpace(digits, statement);
    assert Clamped(RunValue(digits)) == Clamped(n);
  }

  lemma SpaceFirst(s: string)
    ensures Unspaced(" " + s) == Unspaced(s)
  {
    assert (" " + s)[1..] == s;
  }

  /** The printed form is the normal form of every row that has a number: it reads the same. */
  lemma NormalFormReadsTheSame(row: string)
    requires ParseExplicit(row).Some?
    ensures var line := ParseExplicit(row).value;
            && line.number <= MAX_LINE_NUMBER
            && ParseExplicit(Decimal(line.number) + " " + line.statement) == Some(line)
  {
    var line := ParseExplicit(row).value;
    ReadsWhatIsPrinted(line.number, line.statement);
    var s := Unspaced(row);
    UnspacedStarts(s[DigitRun(s)..]);
    UnspacedStarts(line.statement);
  }

  /** By position every row is a statement as it stands, except exactly those that repeat their index. */
  lemma PositionalKeepsTheRow(row: string, index: nat)
    ensures ParsePositional(row, index) == Some(Numbered(index, row))
            <==> index <= MAX_LINE_NUMBER && !SelfNumbered(row, index)
    ensures ParsePositional(row, index).None? <==> index > MAX_LINE_NUMBER
  {
    if SelfNumbered(row, index) {
      assert |Unspaced(row[DigitRun(row)..])| < |row|;
    }
  }

  /** A row printed with its own index in front reads by position as it would read by number. */
  lemma ModesAgreeOnOwnIndex(index: nat, statement: string)
    requires index <= MAX_LINE_NUMBER
    ensures ParsePositional(Decimal(index) + " " + statement, index)
         == ParseExplicit(Decimal(index) + " " + statement)
  {
    ReadsWhatIsPrinted(index, statement);
    DecimalReadsBack(index);
    var digits := Decimal(index);
    DigitsThenSpace(digits, statement);
    assert SelfNumbered(digits + " " + statement, index);
  }
}
