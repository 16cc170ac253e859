/**
 A program in memory: records chained by their next-line addresses from TXTTAB
 on, under the bound HIMEM, and the walk that reads the chain back.
 */
module ProgramImage {
  import opened Bytes
  import opened LineNumbers
  import opened ProgramText

  type Ram = r: seq<Byte> | |r| == 0x10000 witness seq(0x10000, i => 0)

  function Low(n: nat): Byte {
    n % 0x100
  }

  function High(n: nat): Byte {
    n / 0x100 % 0x100
  }

  function Word(ram: Ram, at: nat): nat
    requires at + 1 < 0x10000
  {
    var low: int, high: int := ram[at], ram[at + 1];
    low + 0x100 * high
  }

  function Written(ram: Ram, at: nat, bytes: seq<Byte>): Ram
    requires at + |bytes| <= 0x10000
  {
    ram[..at] + bytes + ram[at + |bytes|..]
  }

  // ----------------------------------------------------------- records

  /** A record: the address of the next, the line number, the tokens, and a zero. */
  function Record(at: nat, line: Line): (r: seq<Byte>)
    ensures |r| == Size(line)
  {
    var next := at + Size(line);
    [Low(next), High(next), Low(line.number), High(line.number)] + line.tokens + [0]
  }

  function Size(line: Line): nat {
    5 + |line.tokens|
  }

  function Extent(lines: seq<Line>): nat {
    if lines == [] then 0 else Size(lines[0]) + Extent(lines[1..])
  }

  function Records(at: nat, lines: seq<Line>): (r: seq<Byte>)
    ensures |r| == Extent(lines)
    decreases |lines|
  {
    if lines == [] then [] else Record(at, lines[0]) + Records(at + Size(lines[0]), lines[1..])
  }

  /** How many lines go in before one would leave no room for the end mark below HIMEM. */
  function Fitting(at: nat, himem: nat, lines: seq<Line>): (n: nat)
    ensures n <= |lines|
    decreases |lines|
  {
    if lines == [] || at + Size(lines[0]) + 2 >= himem then 0
    else 1 + Fitting(at + Size(lines[0]), himem, lines[1..])
  }

  function Injected(txttab: nat, himem: nat, lines: seq<Line>): seq<Line> {
    lines[..Fitting(txttab, himem, lines)]
  }

  function EndOf(txttab: nat, himem: nat, lines: seq<Line>): nat {
    txttab + Extent(Injected(txttab, himem, lines))
  }

  lemma {:induction false} ExtentConcat(a: seq<Line>, b: seq<Line>)
    ensures Extent(a + b) == Extent(a) + Extent(b)
  {
    if a == [] {
      assert a + b == b;
    } else {
      assert (a + b)[1..] == a[1..] + b;
      ExtentConcat(a[1..], b);
    }
  }

  lemma {:induction false} RecordsConcat(at: nat, a: seq<Line>, b: seq<Line>, mid: nat)
    requires mid == at + Extent(a)
    ensures Records(at, a + b) == Records(at, a) + Records(mid, b)
    decreases |a|
  {
    if a == [] {
      assert a + b == b;
    } else {
      var next := at + Size(a[0]);
      RecordsConcat(next, a[1..], b, mid);
      FirstThenRest(at, a, b, next, Records(next, a[1..]), Records(mid, b));
    }
  }

  lemma FirstThenRest(at: nat, a: seq<Line>, b: seq<Line>, next: nat, p: seq<Byte>, q: seq<Byte>)
    requires a != [] && next == at + Size(a[0])
    requires Records(next, a[1..]) == p && Records(next, a[1..] + b) == p + q
    ensures Records(at, a + b) == Records(at, a) + q
  {
    assert (a + b)[0] == a[0] && (a + b)[1..] == a[1..] + b;
    RecordsUnfold(at, a, next);
    RecordsUnfold(at, a + b, next);
    Prolonged(Record(at, a[0]), p, q, Records(at, a), Records(at, a + b));
  }

  lemma RecordsUnfold(at: nat, lines: seq<Line>, next: nat)
    requires lines != [] && next == at + Size(lines[0])
    ensures Records(at, lines) == Record(at, lines[0]) + Records(next, lines[1..])
  {
  }

  lemma Prolonged(head: seq<Byte>, p: seq<Byte>, q: seq<Byte>, short: seq<Byte>, long: seq<Byte>)
    requires short == head + p && long == head + (p + q)
    ensures long == short + q
  {
  }

  /** What is injected ends below HIMEM, with room for the end mark; the next line would not. */
  lemma {:induction false} FittingIsMost(at: nat, himem: nat, lines: seq<Line>)
    ensures var n := Fitting(at, himem, lines);
            && (n > 0 ==> at + Extent(lines[..n]) + 2 < himem)
            && (n < |lines| ==> at + Extent(lines[..n]) + Size(lines[n]) + 2 >= himem)
    decreases |lines|
  {
    var n := Fitting(at, himem, lines);
    if n > 0 {
      FittingIsMost(at + Size(lines[0]), himem, lines[1..]);
      assert lines[1..][..n - 1] == lines[..n][1..];
      if n == 1 {
        assert lines[..n][1..] == [];
      }
    } else {
      assert lines[..n] == [];
    }
  }

  lemma EndIsBelowHimem(txttab: nat, himem: nat, lines: seq<Line>)
    ensures var end := EndOf(txttab, himem, lines);
            && txttab <= end
            && (if Fitting(txttab, himem, lines) == 0 then end == txttab else end + 2 < himem)
            && (end + 2 < himem <==> txttab + 2 < himem)
  {
    FittingIsMost(txttab, himem, lines);
    if Fitting(txttab, himem, lines) == 0 {
      assert Injected(txttab, himem, lines) == [];
    }
  }

  /** Lines from TXTTAB on and the end mark behind them. */
  function Inject(ram: Ram, txttab: nat, himem: nat, lines: seq<Line>): Ram
    requires txttab <= 0xC000 && himem <= 0xC000
  {
    EndIsBelowHimem(txttab, himem, lines);
    Written(ram, txttab, Records(txttab, Injected(txttab, himem, lines)) + [0, 0, 0])
  }

  // ------------------------------------------------------------- walk

  function UpToZero(bytes: seq<Byte>): seq<Byte> {
    if bytes == [] || bytes[0] == 0 then [] else [bytes[0]] + UpToZero(bytes[1..])
  }

  /** The lines that the chain of records from `at` on holds. */
  function Walk(ram: Ram, at: nat, end: nat): seq<Line>
    requires end <= 0x10000
    decreases end - at
  {
    if at + 4 >= end then []
    else
      var next, number := Word(ram, at), Word(ram, at + 2);
      if next <= at + 4 || next > end || number > MAX_LINE_NUMBER then []
      else [Line(number, UpToZero(ram[at + 4..next]))] + Walk(ram, next, end)
  }

  lemma {:induction false} UpToTheZero(tokens: seq<Byte>)
    requires forall i | 0 <= i < |tokens| :: tokens[i] != 0
    ensures UpToZero(tokens + [0]) == tokens
  {
    if tokens != [] {
      assert (tokens + [0])[1..] == tokens[1..] + [0];
      UpToTheZero(tokens[1..]);
    }
  }

  lemma WordIsWhole(n: nat)
    requires n < 0x10000
    ensures Low(n) + 0x100 * High(n) == n
  {
  }

  /** The fields of a record, read where it was written. */
  lemma RecordReadsBack(ram: Ram, at: nat, line: Line)
    requires Storable(line) && at + Size(line) < 0x10000
    requires ram[at..at + Size(line)] == Record(at, line)
    ensures Word(ram, at) == at + Size(line) && Word(ram, at + 2) == line.number
    ensures UpToZero(ram[at + 4..at + Size(line)]) == line.tokens
  {
    var next := at + Size(line);
    var r := ram[at..next];
    assert ram[at] == r[0] && ram[at + 1] == r[1] && ram[at + 2] == r[2] && ram[at + 3] == r[3];
    WordIsWhole(next);
    WordIsWhole(line.number);
    assert ram[at + 4..next] == r[4..] == line.tokens + [0];
    UpToTheZero(line.tokens);
  }

  lemma PartsInPlace(ram: Ram, at: nat, p: seq<Byte>, q: seq<Byte>)
    requires at + |p + q| <= 0x10000 && ram[at..at + |p + q|] == p + q
    ensures ram[at..at + |p|] == p && ram[at + |p|..at + |p| + |q|] == q
  {
    assert ram[at..at + |p|] == (p + q)[..|p|];
    assert ram[at + |p|..at + |p| + |q|] == (p + q)[|p|..];
  }

  lemma TwoParts(ram: Ram, at: nat, lines: seq<Line>)
    requires lines != [] && at + Extent(lines) <= 0x10000 && ram[at..at + Extent(lines)] == Records(at, lines)
    ensures var next := at + Size(lines[0]);
            && next <= at + Extent(lines) && ram[at..next] == Record(at, lines[0])
            && ram[next..next + Extent(lines[1..])] == Records(next, lines[1..])
  {
    PartsInPlace(ram, at, Record(at, lines[0]), Records(at + Size(lines[0]), lines[1..]));
  }

  lemma WalkHead(ram: Ram, at: nat, next: nat, end: nat, line: Line)
    requires at + 4 < next <= end <= 0x10000 && line.number <= MAX_LINE_NUMBER
    requires Word(ram, at) == next && Word(ram, at + 2) == line.number && UpToZero(ram[at + 4..next]) == line.tokens
    ensures Walk(ram, at, end) == [line] + Walk(ram, next, end)
  {
  }

  /** Records are walked in order, with the same numbers and tokens, and nothing after them. */
  lemma {:induction false} WalkReadsRecords(ram: Ram, at: nat, lines: seq<Line>, end: nat)
    requires forall i | 0 <= i < |lines| :: Storable(lines[i])
    requires at + Extent(lines) + 2 == end <= 0x10000
    requires ram[at..at + Extent(lines)] == Records(at, lines)
    ensures Walk(ram, at, end) == lines
    decreases |lines|
  {
    if lines != [] {
      var line, next := lines[0], at + Size(lines[0]);
      assert at + Extent(lines) == next + Extent(lines[1..]);
      TwoParts(ram, at, lines);
      RecordReadsBack(ram, at, line);
      WalkReadsRecords(ram, next, lines[1..], end);
      WalkHead(ram, at, next, end, line);
      assert [line] + lines[1..] == lines;
    }
  }

  // ------------------------------------------------------ main results

  lemma InjectedRecords(ram: Ram, txttab: nat, himem: nat, lines: seq<Line>)
    requires txttab <= 0xC000 && himem <= 0xC000
    ensures var end := EndOf(txttab, himem, lines);
            && end <= 0xC000
            && Inject(ram, txttab, himem, lines)[txttab..end] == Records(txttab, Injected(txttab, himem, lines))
            && Inject(ram, txttab, himem, lines)[end..end + 3] == [0, 0, 0]
  {
    EndIsBelowHimem(txttab, himem, lines);
  }

  /** The export walk visits exactly the injected prefix: same order, numbers and bytes. */
  lemma InjectThenWalk(ram: Ram, txttab: nat, himem: nat, lines: seq<Line>)
    requires txttab <= 0xC000 && himem <= 0xC000
    requires forall i | 0 <= i < |lines| :: Storable(lines[i])
    ensures EndOf(txttab, himem, lines) <= 0xC000
    ensures Walk(Inject(ram, txttab, himem, lines), txttab, EndOf(txttab, himem, lines) + 2)
         == Injected(txttab, himem, lines)
  {
    InjectedRecords(ram, txttab, himem, lines);
    WalkReadsRecords(Inject(ram, txttab, himem, lines), txttab, Injected(txttab, himem, lines),
                     EndOf(txttab, himem, lines) + 2);
  }

  /** Each next-line address is that of the following record, beyond the record itself. */
  lemma LinksIncrease(ram: Ram, txttab: nat, himem: nat, lines: seq<Line>, k: nat)
    requires txttab <= 0xC000 && himem <= 0xC000 && k < Fitting(txttab, himem, lines)
    requires forall i | 0 <= i < |lines| :: Storable(lines[i])
    ensures var here, there := txttab + Extent(lines[..k]), txttab + Extent(lines[..k + 1]);
            here + 4 < there < himem && Word(Inject(ram, txttab, himem, lines), here) == there
  {
    var here, there := txttab + Extent(lines[..k]), txttab + Extent(lines[..k + 1]);
    var image, line := Inject(ram, txttab, himem, lines), lines[k];
    InjectedRecords(ram, txttab, himem, lines);
    EndIsBelowHimem(txttab, himem, lines);
    SplitAround(lines, k, Fitting(txttab, himem, lines));
    OneOfMany(image, txttab, lines[..k], line, lines[k + 1..Fitting(txttab, himem, lines)], here);
    RecordReadsBack(image, here, line);
  }

  lemma SplitAround(lines: seq<Line>, k: nat, n: nat)
    requires k < n <= |lines|
    ensures lines[..n] == lines[..k] + ([lines[k]] + lines[k + 1..n])
    ensures Extent(lines[..k + 1]) == Extent(lines[..k]) + Size(lines[k])
    ensures Extent(lines[..n]) == Extent(lines[..k]) + Size(lines[k]) + Extent(lines[k + 1..n])
  {
    var before, line, after := lines[..k], lines[k], lines[k + 1..n];
    ExtentConcat(before, [line] + after);
    ExtentConcat(before, [line]);
    assert lines[..k + 1] == before + [line];
    assert lines[..n] == before + ([line] + after);
    assert ([line] + after)[1..] == after && [line][1..] == [];
  }

  /** Among records in place, the one after the first few is in its place. */
  lemma OneOfMany(ram: Ram, at: nat, before: seq<Line>, line: Line, after: seq<Line>, here: nat)
    requires here == at + Extent(before)
    requires var lines := before + ([line] + after);
             at + Extent(lines) < 0x10000 && ram[at..at + Extent(lines)] == Records(at, lines)
    ensures here + Size(line) <= at + Extent(before + ([line] + after))
    ensures here + Size(line) < 0x10000 && ram[here..here + Size(line)] == Record(here, line)
  {
    var rest := [line] + after;
    ExtentConcat(before, rest);
    RecordsConcat(at, before, rest, here);
    PartsInPlace(ram, at, Records(at, before), Records(here, rest));
    FirstInPlace(ram, here, line, after);
  }

  lemma FirstInPlace(ram: Ram, at: nat, line: Line, after: seq<Line>)
    requires at + Extent([line] + after) <= 0x10000
    requires ram[at..at + Extent([line] + after)] == Records(at, [line] + after)
    ensures Size(line) <= Extent([line] + after) && ram[at..at + Size(line)] == Record(at, line)
  {
    assert ([line] + after)[1..] == after;
    PartsInPlace(ram, at, Record(at, line), Records(at + Size(line), after));
  }

  predicate ChangesOnly(before: Ram, after: Ram, low: nat, high: nat) {
    forall a | 0 <= a < 0x10000 && before[a] != after[a] :: low <= a < high
  }

  lemma InjectChanges(ram: Ram, txttab: nat, himem: nat, lines: seq<Line>)
    requires txttab <= 0xC000 && himem <= 0xC000
    ensures ChangesOnly(ram, Inject(ram, txttab, himem, lines), txttab, EndOf(txttab, himem, lines) + 3)
  {
    EndIsBelowHimem(txttab, himem, lines);
  }

  /** Injecting stays below HIMEM in every memory exactly when TXTTAB leaves room for the end mark. */
  lemma InjectStaysBelowHimem(txttab: nat, himem: nat, lines: seq<Line>)
    requires txttab <= 0xC000 && himem <= 0xC000
    ensures (forall ram: Ram :: ChangesOnly(ram, Inject(ram, txttab, himem, lines), txttab, himem))
            <==> txttab + 2 < himem
  {
    EndIsBelowHimem(txttab, himem, lines);
    var end := EndOf(txttab, himem, lines);
    forall ram: Ram ensures ChangesOnly(ram, Inject(ram, txttab, himem, lines), txttab, end + 3) {
      InjectChanges(ram, txttab, himem, lines);
    }
    if txttab + 2 >= himem {
      var ram: Ram := Ones();
      InjectedRecords(ram, txttab, himem, lines);
      assert Inject(ram, txttab, himem, lines)[end + 2] == Inject(ram, txttab, himem, lines)[end..end + 3][2];
      assert !ChangesOnly(ram, Inject(ram, txttab, himem, lines), txttab, himem);
    }
  }

  function Ones(): (ram: Ram)
    ensures forall a | 0 <= a < 0x10000 :: ram[a] == 1
  {
    seq(0x10000, i => 1)
  }
}
