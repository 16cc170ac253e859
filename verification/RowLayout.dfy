/**
 How lines are laid out on rows and collected from them again, whatever a row
 looks like: one row a line, or every line on the row of its own number.
 */
module RowLayout {
  import opened Bytes
  import opened ProgramText

  function BlankRows(n: nat): (rows: seq<string>)
    ensures |rows| == n
  {
    if n == 0 then [] else [""] + BlankRows(n - 1)
  }

  /** How many empty rows come before the row of a line. */
  function Lead(number: nat, spaced: bool, expected: nat): nat {
    if spaced && expected < number then number - expected else 0
  }

  function Layout(lines: seq<Line>, show: Line -> string, spaced: bool, expected: nat): seq<string>
    decreases |lines|
  {
    if lines == [] then []
    else
      BlankRows(Lead(lines[0].number, spaced, expected))
      + ([show(lines[0])] + Layout(lines[1..], show, spaced, lines[0].number + 1))
  }

  lemma JoinedHead(row: string, rest: seq<string>)
    ensures Joined([row] + rest) == row + "\n" + Joined(rest)
  {
    assert ([row] + rest)[1..] == rest;
  }

  lemma BlankRowFirst(n: nat, rows: seq<string>)
    requires n > 0
    ensures BlankRows(n) + rows == [""] + (BlankRows(n - 1) + rows)
  {
  }

  lemma {:induction false} BlankRowsJoin(n: nat, rows: seq<string>)
    ensures Joined(BlankRows(n) + rows) == Newlines(n) + Joined(rows)
  {
    if n == 0 {
      assert BlankRows(n) + rows == rows;
    } else {
      var rest := BlankRows(n - 1) + rows;
      BlankRowFirst(n, rows);
      JoinedHead("", rest);
      BlankRowsJoin(n - 1, rows);
      assert "" + "\n" + Joined(rest) == "\n" + (Newlines(n - 1) + Joined(rows));
    }
  }

  lemma CollectHead(row: string, rest: seq<string>, index: nat, read: (string, nat) -> Option<Line>)
    ensures Collect([row] + rest, index, read) == Only(read(row, index)) + Collect(rest, index + 1, read)
  {
    assert ([row] + rest)[1..] == rest;
  }

  /** Empty rows contribute nothing but their place. */
  lemma {:induction false} CollectBlank(n: nat, rows: seq<string>, index: nat, read: (string, nat) -> Option<Line>)
    requires forall i: nat :: read("", i) == None
    ensures Collect(BlankRows(n) + rows, index, read) == Collect(rows, index + n, read)
  {
    if n == 0 {
      assert BlankRows(n) + rows == rows;
    } else {
      BlankRowFirst(n, rows);
      CollectHead("", BlankRows(n - 1) + rows, index, read);
      CollectBlank(n - 1, rows, index + 1, read);
    }
  }

  lemma CollectLed(
    rows: seq<string>, n: nat, row: string, rest: seq<string>, index: nat, at: nat, read: (string, nat) -> Option<Line>)
    requires forall i: nat :: read("", i) == None
    requires rows == BlankRows(n) + ([row] + rest) && at == index + n
    ensures Collect(rows, index, read) == Only(read(row, at)) + Collect(rest, at + 1, read)
  {
    CollectBlank(n, [row] + rest, index, read);
    CollectHead(row, rest, at, read);
  }

  /** Numbers that can stand on the rows from `expected` on, one after the other. */
  predicate Placeable(lines: seq<Line>, spaced: bool, expected: nat) {
    Sorted(lines) && (spaced ==> Increasing(lines) && (lines != [] ==> expected <= lines[0].number))
  }

  lemma PlaceableTail(lines: seq<Line>, spaced: bool, expected: nat)
    requires lines != [] && Placeable(lines, spaced, expected)
    ensures Placeable(lines[1..], spaced, lines[0].number + 1)
  {
  }

  /** A line on its own row k stands on row k. */
  lemma {:induction false} LineStandsOnItsRow(lines: seq<Line>, show: Line -> string, expected: nat, i: nat)
    requires Placeable(lines, true, expected) && i < |lines|
    ensures var rows := Layout(lines, show, true, expected);
            var k := lines[i].number - expected;
            0 <= k < |rows| && rows[k] == show(lines[i])
    decreases |lines|
  {
    var n := lines[0].number - expected;
    var rest := Layout(lines[1..], show, true, lines[0].number + 1);
    if i > 0 {
      LineStandsOnItsRow(lines[1..], show, lines[0].number + 1, i - 1);
      assert lines[1..][i - 1] == lines[i];
    }
    assert Layout(lines, show, true, expected) == BlankRows(n) + ([show(lines[0])] + rest);
  }

  /** A reader for shown lines: the number is kept, and `ok` tells which lines come back whole. */
  ghost predicate Reads(
    read: (string, nat) -> Option<Line>, show: Line -> string, ok: Line -> bool, spaced: bool, line: Line, index: nat)
  {
    var r := read(show(line), if spaced then line.number else index);
    (r.Some? ==> r.value.number == line.number) && (r == Some(line) <==> ok(line))
  }

  /**
   What is collected keeps the order and no more lines than there were, and it is
   the program exactly when every line comes back whole.
   */
  ghost predicate ReadAs(read: seq<Line>, lines: seq<Line>, ok: Line -> bool) {
    && |read| <= |lines| && Sorted(read)
    && (forall i | 0 <= i < |read| :: lines != [] && lines[0].number <= read[i].number)
    && (read == lines <==> forall i | 0 <= i < |lines| :: ok(lines[i]))
  }

  lemma {:induction false} LayoutReadsBack(
    lines: seq<Line>, show: Line -> string, read: (string, nat) -> Option<Line>, ok: Line -> bool,
    spaced: bool, expected: nat, index: nat)
    requires forall i: nat :: read("", i) == None
    requires forall k, i: nat | 0 <= k < |lines| :: Reads(read, show, ok, spaced, lines[k], i)
    requires Placeable(lines, spaced, expected) && (spaced ==> index == expected)
    ensures ReadAs(Collect(Layout(lines, show, spaced, expected), index, read), lines, ok)
    decreases |lines|
  {
    if lines != [] {
      var line, tail := lines[0], lines[1..];
      var n, at := Lead(line.number, spaced, expected), if spaced then line.number else index;
      var rest := Layout(tail, show, spaced, line.number + 1);
      PlaceableTail(lines, spaced, expected);
      assert Reads(read, show, ok, spaced, line, index);
      forall k, i: nat | 0 <= k < |tail| ensures Reads(read, show, ok, spaced, tail[k], i) {
        assert tail[k] == lines[k + 1];
      }
      LayoutReadsBack(tail, show, read, ok, spaced, line.number + 1, at + 1);
      CollectLed(Layout(lines, show, spaced, expected), n, show(line), rest, index, at, read);
      ReadOnTop(lines, read(show(line), at), Collect(rest, at + 1, read), ok);
    }
  }

  /** One more line in front of what was read. */
  lemma ReadOnTop(lines: seq<Line>, read: Option<Line>, more: seq<Line>, ok: Line -> bool)
    requires lines != [] && Sorted(lines) && ReadAs(more, lines[1..], ok)
    requires read.Some? ==> read.value.number == lines[0].number
    requires read == Some(lines[0]) <==> ok(lines[0])
    ensures ReadAs(Only(read) + more, lines, ok)
  {
    var all := Only(read) + more;
    assert lines == [lines[0]] + lines[1..];
    if all == lines {
      assert |all| == |lines| && read.Some? && all[0] == lines[0] && all[1..] == more;
      forall i | 0 <= i < |lines| ensures ok(lines[i]) {
        assert i > 0 ==> lines[i] == lines[1..][i - 1];
      }
    }
    if forall i | 0 <= i < |lines| :: ok(lines[i]) {
      assert forall i | 0 <= i < |lines[1..]| :: lines[1..][i] == lines[i + 1];
    }
  }

  // ------------------------------------------------------------- sorting

  /** One row a line, whatever a row looks like. */
  function Shown(lines: seq<Line>, show: Line -> string): (rows: seq<string>)
    ensures |rows| == |lines| && forall i | 0 <= i < |rows| :: rows[i] == show(lines[i])
  {
    if lines == [] then [] else [show(lines[0])] + Shown(lines[1..], show)
  }

  /** The rows of lines in any order. */
  function Bag(lines: seq<Line>, show: Line -> string): multiset<string> {
    multiset(Shown(lines, show))
  }

  lemma {:induction false} InsertKeepsShown(line: Line, lines: seq<Line>, show: Line -> string)
    ensures Bag(Insert(line, lines), show) == Bag(lines, show) + multiset{show(line)}
  {
    if lines == [] || line.number < lines[0].number {
      assert ([line] + lines)[1..] == lines;
    } else {
      InsertKeepsShown(line, lines[1..], show);
      var more := Insert(line, lines[1..]);
      assert ([lines[0]] + more)[1..] == more;
    }
  }

  lemma ShownLast(lines: seq<Line>, init: seq<Line>, last: Line, show: Line -> string)
    requires lines == init + [last]
    ensures Bag(lines, show) == Bag(init, show) + multiset{show(last)}
  {
    assert Shown(lines, show) == Shown(init, show) + [show(last)];
  }

  /** Sorting lines puts their rows in another order, and no more. */
  lemma {:induction false} SortKeepsShown(lines: seq<Line>, show: Line -> string)
    ensures Bag(Sort(lines), show) == Bag(lines, show)
  {
    if lines != [] {
      var init, last := lines[..|lines| - 1], lines[|lines| - 1];
      SortKeepsShown(init, show);
      InsertKeepsShown(last, Sort(init), show);
      ShownLast(lines, init, last, show);
      assert Sort(lines) == Insert(last, Sort(init));
    }
  }
}
