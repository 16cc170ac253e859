/**
 The live sync itself: loops over text and memory, each proved to compute what
 the functions on texts and memories say.
 */
module LiveSync {
  import opened Bytes
  import opened TokenTable
  import opened Tokenizer
  import opened LineNumbers
  import opened ProgramText
  import opened RowLayout
  import opened ProgramImage
  import opened ProgramSync

  method SanitizeAndTruncate(input: string, force: bool) returns (result: string)
    ensures result == Sanitize(input, force)
  {
    result := "";
    var i := 0;
    while i < |input| && |result| < MAX_ROW
      invariant i <= |input| && |result| <= MAX_ROW
      invariant result == Kept(input[..i], force)
    {
      var c := input[i];
      KeptConcat(input[..i], [c], force);
      assert input[..i + 1] == input[..i] + [c];
      assert [c][1..] == "";
      if Printable(c) {
        result := result + [if force && IsLower(c) then Upper(c) else c];
      }
      i := i + 1;
    }
    KeptConcat(input[..i], input[i..], force);
    assert input == input[..i] + input[i..];
  }

  // --------------------------------------------------------- keywords

  method EqualsPrefix(s: string, pos: nat, name: string) returns (equal: bool)
    requires pos <= |s|
    ensures equal == StartsWith(s[pos..], name)
  {
    if pos + |name| > |s| {
      return false;
    }
    for i := 0 to |name|
      invariant forall k | 0 <= k < i :: Upper(s[pos..][k]) == Upper(name[k])
    {
      assert s[pos..][i] == s[pos + i];
      if Upper(s[pos + i]) != Upper(name[i]) {
        return false;
      }
    }
    return true;
  }

  method FindTokenName(table: seq<TokenDef>, token: Byte) returns (name: Option<string>)
    ensures name == FindName(table, token)
  {
    for i := 0 to |table|
      invariant FindName(table, token) == FindName(table[i..], token)
    {
      assert table[i..][1..] == table[i + 1..];
      if table[i].token == token {
        return Some(table[i].name);
      }
    }
    return None;
  }

  method MatchToken(table: seq<TokenDef>, content: string, pos: nat) returns (matched: Option<TokenDef>)
    requires pos <= |content|
    ensures matched == FirstMatch(table, content[pos..])
  {
    for i := 0 to |table|
      invariant FirstMatch(table, content[pos..]) == FirstMatch(table[i..], content[pos..])
    {
      assert table[i..][1..] == table[i + 1..];
      var equal := EqualsPrefix(content, pos, table[i].name);
      if equal {
        return Some(table[i]);
      }
    }
    return None;
  }

  /** What the text from `i` on is tokenized to, by what it begins with. */
  lemma TokensFrom(table: seq<TokenDef>, content: string, i: nat, quoted: bool, rem: bool, force: bool)
    requires Good(table) && i < |content|
    ensures content[i] == '"' ==>
              Tokens(table, content[i..], quoted, rem, force)
              == ['"' as int] + Tokens(table, content[i + 1..], !quoted, rem, force)
    ensures content[i] != '"' && (quoted || rem || FirstMatch(table, content[i..]).None?) ==>
              Tokens(table, content[i..], quoted, rem, force)
              == [Code(Normalized(content[i], force))] + Tokens(table, content[i + 1..], quoted, rem, force)
    ensures content[i] != '"' && !quoted && !rem && FirstMatch(table, content[i..]).Some? ==>
              var t := FirstMatch(table, content[i..]).value;
              && 0 < |t.name| <= |content| - i
              && Tokens(table, content[i..], quoted, rem, force)
                 == [t.token] + Tokens(table, content[i + |t.name|..], quoted, t.token == TOKEN_REM, force)
  {
    var s := content[i..];
    assert s[1..] == content[i + 1..];
    if content[i] != '"' && !quoted && !rem && FirstMatch(table, s).Some? {
      MatchFits(table, s);
      var n := |FirstMatch(table, s).value.name|;
      assert s[n..] == content[i + n..];
    }
  }

  method TokenizeLineContent(table: seq<TokenDef>, content: string, force: bool) returns (tokens: seq<Byte>)
    requires Good(table)
    ensures tokens == Tokens(table, content, false, false, force)
  {
    tokens := [];
    var inQuotes, inRem, i := false, false, 0;
    ghost var whole := Tokens(table, content, false, false, force);
    assert content[0..] == content;
    while i < |content|
      invariant i <= |content|
      invariant whole == tokens + Tokens(table, content[i..], inQuotes, inRem, force)
      decreases |content| - i
    {
      var c := content[i];
      TokensFrom(table, content, i, inQuotes, inRem, force);
      ghost var done := tokens;
      if c == '"' {
        inQuotes := !inQuotes;
        tokens := tokens + ['"' as int];
        i := i + 1;
        Regroup(done, ['"' as int], Tokens(table, content[i..], inQuotes, inRem, force));
        continue;
      }
      if !inQuotes && !inRem {
        var matched := MatchToken(table, content, i);
        if matched.Some? {
          tokens := tokens + [matched.value.token];
          inRem := matched.value.token == TOKEN_REM;
          i := i + |matched.value.name|;
          Regroup(done, [matched.value.token], Tokens(table, content[i..], inQuotes, inRem, force));
          continue;
        }
      }
      tokens := tokens + [Code(Normalized(c, force))];
      i := i + 1;
      Regroup(done, [Code(Normalized(c, force))], Tokens(table, content[i..], inQuotes, inRem, force));
    }
  }

  // ------------------------------------------------------ line numbers

  method SkipSpaces(s: string, start: nat) returns (pos: nat)
    requires start <= |s|
    ensures pos == start + SpaceRun(s[start..]) <= |s|
  {
    pos := start;
    while pos < |s| && IsSpace(s[pos])
      invariant start <= pos <= |s| && pos + SpaceRun(s[pos..]) == start + SpaceRun(s[start..])
    {
      assert s[pos..][1..] == s[pos + 1..];
      pos := pos + 1;
    }
  }

  method SkipDigits(s: string, start: nat) returns (pos: nat)
    requires start <= |s|
    ensures pos == start + DigitRun(s[start..]) <= |s|
  {
    pos := start;
    while pos < |s| && IsDigit(s[pos])
      invariant start <= pos <= |s| && pos + DigitRun(s[pos..]) == start + DigitRun(s[start..])
    {
      assert s[pos..][1..] == s[pos + 1..];
      pos := pos + 1;
    }
  }

  lemma Slices(s: string, n: nat, k: nat)
    requires n <= k <= |s|
    ensures s[n..][..k - n] == s[n..k] && s[n..][k - n..] == s[k..]
  {
  }

  method ParsePositionalLine(sanitized: string, index: nat) returns (line: Option<Numbered>)
    ensures line == ParsePositional(sanitized, index)
  {
    if index > MAX_LINE_NUMBER {
      return None;
    }
    var pos := SkipDigits(sanitized, 0);
    assert sanitized[0..] == sanitized;
    if pos == 0 || pos >= |sanitized| || !IsSpace(sanitized[pos]) {
      return Some(Numbered(index, sanitized));
    }
    var value := if pos <= 5 then Value(sanitized[..pos]) else MAX_LINE_NUMBER;
    if value != index {
      return Some(Numbered(index, sanitized));
    }
    var rest := SkipSpaces(sanitized, pos);
    Slices(sanitized, pos, rest);
    return Some(Numbered(index, sanitized[rest..]));
  }

  method ParseExplicitLine(sanitized: string) returns (line: Option<Numbered>)
    ensures line == ParseExplicit(sanitized)
  {
    var start := SkipSpaces(sanitized, 0);
    assert sanitized[0..] == sanitized;
    var pos := SkipDigits(sanitized, start);
    if pos == start {
      return None;
    }
    var digits := sanitized[start..pos];
    var value := if pos - start <= 5 then Value(digits) else MAX_LINE_NUMBER;
    var number := if value <= MAX_LINE_NUMBER then value else MAX_LINE_NUMBER;
    var rest := SkipSpaces(sanitized, pos);
    assert number == Clamped(RunValue(digits));
    ExplicitParts(sanitized, start, pos, rest);
    return Some(Numbered(number, sanitized[rest..]));
  }

  lemma ExplicitParts(row: string, start: nat, pos: nat, rest: nat)
    requires start < pos <= rest <= |row|
    requires start == SpaceRun(row) && pos == start + DigitRun(row[start..]) && rest == pos + SpaceRun(row[pos..])
    ensures ParseExplicit(row) == Some(Numbered(Clamped(RunValue(row[start..pos])), row[rest..]))
  {
    var s, tail := row[start..], row[pos..];
    Slices(row, start, pos);
    Slices(row, pos, rest);
    assert DigitRun(s) == pos - start && SpaceRun(tail) == rest - pos;
    NumberParts(row, s, row[start..pos], tail);
  }

  lemma NumberParts(row: string, s: string, digits: string, tail: string)
    requires s == Unspaced(row) && DigitRun(s) > 0 && digits == s[..DigitRun(s)] && tail == s[DigitRun(s)..]
    ensures ParseExplicit(row) == Some(Numbered(Clamped(RunValue(digits)), tail[SpaceRun(tail)..]))
  {
  }

  // -------------------------------------------------------- printing

  lemma {:induction false} NewlinesLast(n: nat)
    ensures Newlines(n + 1) == Newlines(n) + "\n"
  {
    if n > 0 {
      NewlinesLast(n - 1);
    }
  }

  method AppendLinePrefix(ss: string, mode: Mode, number: nat, expected: nat) returns (out: string, next: nat)
    requires number <= MAX_LINE_NUMBER
    ensures out == ss + Prefix(mode, number, expected)
    ensures next == if mode.Positional? then number + 1 else expected
  {
    out, next := ss, expected;
    if mode.Explicit? {
      out := out + Decimal(number) + " ";
      return;
    }
    while next < number && next <= MAX_LINE_NUMBER
      invariant expected <= next && (next <= number || next == expected)
      invariant out == ss + Newlines(next - expected)
    {
      NewlinesLast(next - expected);
      out := out + "\n";
      next := next + 1;
    }
    next := number + 1;
  }

  // ------------------------------------------------------------ memory

  lemma WrittenOn(ram: Ram, at: nat, p: seq<Byte>, q: seq<Byte>)
    requires at + |p| + |q| <= 0x10000
    ensures Written(Written(ram, at, p), at + |p|, q) == Written(ram, at, p + q)
  {
  }

  lemma WordsWritten(ram: Ram, at: nat, one: nat, two: nat)
    requires at + 4 <= 0x10000
    ensures SetWord(SetWord(ram, at, one), at + 2, two) == Written(ram, at, [Low(one), High(one), Low(two), High(two)])
  {
  }

  lemma WrittenByte(ram: Ram, at: nat, p: seq<Byte>, b: Byte)
    requires at + |p| < 0x10000
    ensures Written(ram, at, p)[at + |p| := b] == Written(ram, at, p + [b])
  {
  }

  lemma LastRowOf(row: string)
    requires row != "" && OneRow(row)
    ensures RowsOf(row) == [row]
  {
    assert LineEnd(row) == |row|;
    assert row[..|row|] == row;
  }

  lemma ConcatRow(before: string, prefix: string, listing: string, rest: string)
    ensures before + (prefix + listing + "\n" + rest) == (before + prefix + listing + "\n") + rest
  {
  }

  /** The text of a program as rows are taken from it one by one. */
  lemma RowsFrom(text: string, pos: nat, end: nat)
    requires pos < |text| && pos <= end <= |text|
    requires (forall i | pos <= i < end :: text[i] != '\n') && (end < |text| ==> text[end] == '\n')
    ensures RowsOf(text[pos..]) == [text[pos..end]] + if end < |text| then RowsOf(text[end + 1..]) else []
  {
    var s, row := text[pos..], text[pos..end];
    if end < |text| {
      assert s == row + "\n" + text[end + 1..];
      FirstRowOf(row, text[end + 1..]);
    } else {
      assert s == row;
      if row != "" {
        LastRowOf(row);
      }
    }
  }

  /** The sync of one machine's memory; `uppercaseOnly` is true of the machines without lower case. */
  class Sync {
    const mem: array<Byte>
    const uppercaseOnly: bool

    constructor (mem: array<Byte>, uppercaseOnly: bool)
      ensures this.mem == mem && this.uppercaseOnly == uppercaseOnly
    {
      this.mem := mem;
      this.uppercaseOnly := uppercaseOnly;
    }

    predicate Valid() {
      mem.Length == 0x10000
    }

    method ReadWord(at: nat) returns (value: nat)
      requires Valid() && at + 1 < 0x10000
      ensures value == Word(mem[..], at)
    {
      var low: int, high: int := mem[at], mem[at + 1];
      value := low + 0x100 * high;
    }

    method WriteWord(at: nat, value: nat)
      requires Valid() && at + 1 < 0x10000
      modifies mem
      ensures mem[..] == SetWord(old(mem[..]), at, value)
    {
      mem[at] := value % 0x100;
      mem[at + 1] := value / 0x100 % 0x100;
    }

    method DetokenizeLineBytes(start: nat, end: nat) returns (line: string)
      requires Valid() && start <= end <= 0x10000
      ensures line == Listing(APPLESOFT, UpToZero(mem[start..end]), false, false)
    {
      line := "";
      var inQuotes, inRem, at := false, false, start;
      ghost var bytes := UpToZero(mem[start..end]);
      while at < end && mem[at] != 0
        invariant start <= at <= end
        invariant Listing(APPLESOFT, bytes, false, false)
               == line + Listing(APPLESOFT, UpToZero(mem[at..end]), inQuotes, inRem)
      {
        assert mem[at..end][0] == mem[at] && mem[at..end][1..] == mem[at + 1..end];
        ghost var rest := UpToZero(mem[at + 1..end]);
        assert UpToZero(mem[at..end]) == [mem[at]] + rest;
        var piece: string;
        piece, inQuotes, inRem := DetokenizeByte(mem[at], inQuotes, inRem, rest);
        Regroup(line, piece, Listing(APPLESOFT, rest, inQuotes, inRem));
        line := line + piece;
        at := at + 1;
      }
    }

    /** One byte of a line, and whether what follows is quoted or remark. */
    static method DetokenizeByte(b: Byte, inQuotes: bool, inRem: bool, ghost rest: seq<Byte>)
      returns (piece: string, quoted: bool, rem: bool)
      ensures Listing(APPLESOFT, [b] + rest, inQuotes, inRem) == piece + Listing(APPLESOFT, rest, quoted, rem)
    {
      ListingHead(APPLESOFT, b, rest, inQuotes, inRem);
      quoted, rem := inQuotes, inRem;
      if b == '"' as int {
        quoted := !inQuotes;
        piece := "\"";
      } else if inQuotes || inRem || b < 0x80 {
        piece := [(b % 0x80) as char];
      } else {
        var name := FindTokenName(APPLESOFT, b);
        if name.Some? {
          rem := inRem || b == TOKEN_REM;
          piece := name.value;
        } else {
          piece := UnknownToken(b);
        }
      }
    }

    method WriteRecord(at: nat, line: Line)
      requires Valid() && at + Size(line) < 0x10000
      modifies mem
      ensures mem[..] == Written(old(mem[..]), at, Record(at, line))
    {
      var next := at + Size(line);
      ghost var was: Ram := mem[..];
      WriteWord(at, next);
      WriteWord(at + 2, line.number);
      ghost var head: seq<Byte> := [Low(next), High(next), Low(line.number), High(line.number)];
      WordsWritten(was, at, next, line.number);
      WriteTokens(at + 4, line.tokens);
      WrittenOn(was, at, head, line.tokens);
      WrittenByte(was, at, head + line.tokens, 0);
      mem[at + 4 + |line.tokens|] := 0;
    }

    method WriteTokens(at: nat, tokens: seq<Byte>)
      requires Valid() && at + |tokens| <= 0x10000
      modifies mem
      ensures mem[..] == Written(old(mem[..]), at, tokens)
    {
      ghost var was: Ram := mem[..];
      assert Written(was, at, tokens[..0]) == was;
      for k := 0 to |tokens|
        invariant mem[..] == Written(was, at, tokens[..k])
      {
        WrittenByte(was, at, tokens[..k], tokens[k]);
        mem[at + k] := tokens[k];
        assert tokens[..k + 1] == tokens[..k] + [tokens[k]];
      }
      assert tokens[..|tokens|] == tokens;
    }

    method InjectProgramLines(txttab: nat, himem: nat, lines: seq<Line>) returns (end: nat)
      requires Valid() && txttab <= CEILING && himem <= CEILING
      modifies mem
      ensures mem[..] == Inject(old(mem[..]), txttab, himem, lines)
      ensures end == EndOf(txttab, himem, lines) <= CEILING
    {
      ghost var kept := Injected(txttab, himem, lines);
      EndIsBelowHimem(txttab, himem, lines);
      WrittenOn(mem[..], txttab, Records(txttab, kept), [0, 0, 0]);
      end := WriteRecords(txttab, himem, lines);
      WriteEndMark(end);
    }

    method WriteRecords(txttab: nat, himem: nat, lines: seq<Line>) returns (end: nat)
      requires Valid() && txttab <= CEILING && himem <= CEILING
      modifies mem
      ensures end == EndOf(txttab, himem, lines) <= CEILING
      ensures mem[..] == Written(old(mem[..]), txttab, Records(txttab, Injected(txttab, himem, lines)))
    {
      ghost var was: Ram := mem[..];
      end := txttab;
      var k := 0;
      while k < |lines|
        invariant Reached(txttab, himem, lines, k, end)
        invariant mem[..] == Filled(was, txttab, lines, k)
      {
        FittingFrom(txttab, himem, lines, k, end);
        if end + Size(lines[k]) + 2 >= himem {
          break;
        }
        RecordOn(was, txttab, lines, k, end);
        WriteRecord(end, lines[k]);
        end := end + Size(lines[k]);
        k := k + 1;
      }
      assert lines[..k] == Injected(txttab, himem, lines);
    }

    method WriteEndMark(at: nat)
      requires Valid() && at <= CEILING
      modifies mem
      ensures mem[..] == Written(old(mem[..]), at, [0, 0, 0])
    {
      mem[at] := 0;
      mem[at + 1] := 0;
      mem[at + 2] := 0;
    }

    method ExportToString(mode: Mode) returns (ss: string)
      requires Valid()
      ensures ss == Export(mem[..], mode)
    {
      var txttab := ReadWord(TXTTAB);
      var vartab := ReadWord(VARTAB);
      var himem := ReadWord(HIMEM);
      himem := if himem <= CEILING then himem else CEILING;
      var programEnd := himem;
      if vartab > txttab && vartab <= himem {
        programEnd := vartab;
      }
      ss := ExportFrom(txttab, programEnd, mode);
    }

    method ExportFrom(start: nat, programEnd: nat, mode: Mode) returns (ss: string)
      requires Valid() && programEnd <= CEILING
      ensures ss == Print(Walk(mem[..], start, programEnd), mode, 1)
    {
      ss := "";
      var at, expected := start, 1;
      ghost var ram, whole := mem[..], Unprinted(mem[..], start, programEnd, mode, 1);
      while at + 4 < programEnd
        invariant whole == ss + Unprinted(ram, at, programEnd, mode, expected)
        decreases programEnd - at
      {
        var next := ReadWord(at);
        if next == 0 || next <= at + 4 || next > programEnd {
          break;
        }
        var number := ReadWord(at + 2);
        if number > MAX_LINE_NUMBER {
          break;
        }
        ghost var before, prefix := ss, Prefix(mode, number, expected);
        ghost var rest := Unprinted(ram, next, programEnd, mode, number + 1);
        PrintFrom(ram, at, programEnd, mode, expected);
        var listing := DetokenizeLineBytes(at + 4, next);
        assert ram[at + 4..next] == mem[at + 4..next];
        assert Unprinted(ram, at, programEnd, mode, expected) == prefix + listing + "\n" + rest;
        ss, expected := AppendLinePrefix(ss, mode, number, expected);
        ss := ss + listing + "\n";
        at := next;
        ConcatRow(before, prefix, listing, rest);
        PrintExplicitFrom(ram, next, programEnd, mode, expected, number + 1);
      }
      PrintEnds(ram, at, programEnd, mode, expected);
    }

    method ImportFromString(text: string, mode: Mode) returns (ok: bool)
      requires Valid()
      modifies mem
      ensures ok && mem[..] == Import(old(mem[..]), text, mode, uppercaseOnly)
    {
      ghost var was: Ram := mem[..];
      var himem := ReadWord(HIMEM);
      if himem == 0 || himem > CEILING {
        SetWordReads(mem[..], HIMEM, DEFAULT_HIMEM, TXTTAB);
        himem := DEFAULT_HIMEM;
        WriteWord(HIMEM, DEFAULT_HIMEM);
      }
      assert mem[..] == WithHimem(was) && himem == Word(mem[..], HIMEM);
      var txttab := ReadWord(TXTTAB);
      if txttab < DEFAULT_TXTTAB || txttab >= himem {
        SetWordReads(mem[..], TXTTAB, DEFAULT_TXTTAB, HIMEM);
        txttab := DEFAULT_TXTTAB;
        WriteWord(TXTTAB, DEFAULT_TXTTAB);
      }
      assert mem[..] == WithTxttab(WithHimem(was)) && himem == Word(mem[..], HIMEM) && txttab == Word(mem[..], TXTTAB);
      mem[txttab - 1] := 0;
      assert mem[..] == Prepared(was);
      var lines := ReadLines(text, mode);
      lines := Sort(lines);
      Place(txttab, himem, lines);
      ok := true;
    }

    static method FindNewline(text: string, pos: nat) returns (end: nat)
      requires pos <= |text|
      ensures pos <= end <= |text| && forall i | pos <= i < end :: text[i] != '\n'
      ensures end < |text| ==> text[end] == '\n'
    {
      end := pos;
      while end < |text| && text[end] != '\n'
        invariant pos <= end <= |text| && forall i | pos <= i < end :: text[i] != '\n'
      {
        end := end + 1;
      }
    }

    method ReadLines(text: string, mode: Mode) returns (lines: seq<Line>)
      ensures lines == ParseRows(RowsOf(text), mode, uppercaseOnly)
    {
      lines := [];
      var pos, index := 0, 1;
      assert text[0..] == text;
      while pos < |text|
        invariant pos <= |text|
        invariant ParseRows(RowsOf(text), mode, uppercaseOnly) == lines + Unread(text, pos, index, mode, uppercaseOnly)
        decreases |text| - pos
      {
        var end := FindNewline(text, pos);
        UnreadFrom(text, pos, end, index, mode, uppercaseOnly);
        var line := ReadLine(text[pos..end], index, mode);
        ghost var before := lines;
        if line.Some? {
          lines := lines + [line.value];
        }
        assert lines == before + Only(line);
        index := index + 1;
        pos := if end < |text| then end + 1 else end;
        Regroup(before, Only(line), Unread(text, pos, index, mode, uppercaseOnly));
      }
    }

    method ReadLine(row: string, index: nat, mode: Mode) returns (line: Option<Line>)
      ensures line == LineOf(row, index, mode, uppercaseOnly)
    {
      var sanitized := SanitizeAndTruncate(row, uppercaseOnly);
      if sanitized == "" {
        return None;
      }
      var parsed: Option<Numbered>;
      if mode.Positional? {
        parsed := ParsePositionalLine(sanitized, index);
      } else {
        parsed := ParseExplicitLine(sanitized);
      }
      if parsed.None? {
        return None;
      }
      ApplesoftIsGood();
      var tokens := TokenizeLineContent(APPLESOFT, parsed.value.statement, uppercaseOnly);
      return Some(Line(parsed.value.number, tokens));
    }

    /** Lines go in, and the pointers around them are set. */
    method Place(txttab: nat, himem: nat, lines: seq<Line>)
      requires Valid() && Usable(mem[..]) && txttab == Word(mem[..], TXTTAB) && himem == Word(mem[..], HIMEM)
      modifies mem
      ensures mem[..] == Placed(old(mem[..]), lines)
    {
      var end := InjectProgramLines(txttab, himem, lines);
      var variables := end + 2;
      WriteWord(PRGEND, end);
      WriteWord(VARTAB, variables);
      WriteWord(ARYTAB, variables);
      WriteWord(STREND, variables);
      WriteWord(FRETOP, himem);
    }
  }

  /** With the first k lines in place, the next goes to `end`, and the rest decides what else fits. */
  ghost predicate Reached(txttab: nat, himem: nat, lines: seq<Line>, k: nat, end: nat) {
    && k <= |lines| && end == txttab + Extent(lines[..k]) && end <= CEILING
    && Fitting(txttab, himem, lines) == k + Fitting(end, himem, lines[k..])
  }

  lemma FittingFrom(txttab: nat, himem: nat, lines: seq<Line>, k: nat, end: nat)
    requires k < |lines| && Reached(txttab, himem, lines, k, end) && himem <= CEILING
    ensures if end + Size(lines[k]) + 2 >= himem then Fitting(txttab, himem, lines) == k
            else Reached(txttab, himem, lines, k + 1, end + Size(lines[k]))
  {
    assert lines[k..][1..] == lines[k + 1..];
    RecordsOn(txttab, lines, k, end);
  }

  /** Memory with the first k records in place. */
  ghost function Filled(ram: Ram, at: nat, lines: seq<Line>, k: nat): Ram
    requires k <= |lines| && at + Extent(lines[..k]) <= 0x10000
  {
    Written(ram, at, Records(at, lines[..k]))
  }

  lemma RecordsOn(at: nat, lines: seq<Line>, k: nat, here: nat)
    requires k < |lines| && here == at + Extent(lines[..k])
    ensures Extent(lines[..k + 1]) == Extent(lines[..k]) + Size(lines[k])
    ensures Records(at, lines[..k + 1]) == Records(at, lines[..k]) + Record(here, lines[k])
  {
    assert lines[..k + 1] == lines[..k] + [lines[k]];
    ExtentConcat(lines[..k], [lines[k]]);
    RecordsConcat(at, lines[..k], [lines[k]], here);
    OneRecord(here, lines[k]);
  }

  lemma OneRecord(at: nat, line: Line)
    ensures Records(at, [line]) == Record(at, line) && Extent([line]) == Size(line)
  {
    assert Records(at + Size(line), []) == [];
  }

  /** One more record after the first k. */
  lemma RecordOn(ram: Ram, at: nat, lines: seq<Line>, k: nat, here: nat)
    requires k < |lines| && here == at + Extent(lines[..k]) && here + Size(lines[k]) <= 0x10000
    ensures at + Extent(lines[..k + 1]) == here + Size(lines[k])
    ensures Written(Filled(ram, at, lines, k), here, Record(here, lines[k])) == Filled(ram, at, lines, k + 1)
  {
    RecordsOn(at, lines, k, here);
    WrittenOn(ram, at, Records(at, lines[..k]), Record(here, lines[k]));
  }

  /** The lines that the text from `pos` on still has. */
  ghost function Unread(text: string, pos: nat, index: nat, mode: Mode, force: bool): seq<Line>
    requires pos <= |text|
  {
    Collect(RowsOf(text[pos..]), index, Reader(mode, force))
  }

  lemma UnreadFrom(text: string, pos: nat, end: nat, index: nat, mode: Mode, force: bool)
    requires pos < |text| && pos <= end <= |text|
    requires (forall i | pos <= i < end :: text[i] != '\n') && (end < |text| ==> text[end] == '\n')
    ensures Unread(text, pos, index, mode, force)
         == Only(LineOf(text[pos..end], index, mode, force))
            + Unread(text, if end < |text| then end + 1 else end, index + 1, mode, force)
  {
    RowsFrom(text, pos, end);
    CollectHead(text[pos..end], if end < |text| then RowsOf(text[end + 1..]) else [], index, Reader(mode, force));
  }

  /** What is still to be printed of the chain from `at` on. */
  ghost function Unprinted(ram: Ram, at: nat, end: nat, mode: Mode, expected: nat): string
    requires end <= 0x10000
  {
    Print(Walk(ram, at, end), mode, expected)
  }

  lemma PrintEnds(ram: Ram, at: nat, end: nat, mode: Mode, expected: nat)
    requires end <= 0x10000
    requires at + 4 >= end || Word(ram, at) <= at + 4 || Word(ram, at) > end || Word(ram, at + 2) > MAX_LINE_NUMBER
    ensures Unprinted(ram, at, end, mode, expected) == ""
  {
  }

  /** Only by position does it matter which row is next. */
  lemma PrintExplicitFrom(ram: Ram, at: nat, end: nat, mode: Mode, expected: nat, other: nat)
    requires end <= 0x10000 && (mode.Positional? ==> expected == other)
    ensures Unprinted(ram, at, end, mode, expected) == Unprinted(ram, at, end, mode, other)
  {
  }

  /** What is printed of a chain, by its first record. */
  lemma PrintFrom(ram: Ram, at: nat, end: nat, mode: Mode, expected: nat)
    requires at + 4 < end <= 0x10000
    requires at + 4 < Word(ram, at) <= end && Word(ram, at + 2) <= MAX_LINE_NUMBER
    ensures var next, number := Word(ram, at), Word(ram, at + 2);
            Unprinted(ram, at, end, mode, expected)
            == Prefix(mode, number, expected) + Listing(APPLESOFT, UpToZero(ram[at + 4..next]), false, false) + "\n"
               + Unprinted(ram, next, end, mode, number + 1)
  {
  }
}
