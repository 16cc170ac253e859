/**
 Upper and lower case in program text, letter by letter: what raising does, that
 keywords are found in any spelling, and that where upper case is forced a row and
 its raised spelling are one.
 */
module CaseLaws {
  import opened Bytes
  import opened TokenTable
  import opened Tokenizer
  import opened LineNumbers
  import opened ProgramText
  import opened ProgramImage
  import opened ProgramSync

  function Small(k: nat): char
    requires k < 26
  {
    "abcdefghijklmnopqrstuvwxyz"[k]
  }

  function Capital(k: nat): char
    requires k < 26
  {
    "ABCDEFGHIJKLMNOPQRSTUVWXYZ"[k]
  }

  /** `d` is the capital of the small letter `c`. */
  predicate CapitalOf(c: char, d: char) {
    exists k | 0 <= k < 26 :: Small(k) == c && Capital(k) == d
  }

  predicate IsSmall(c: char) {
    exists k | 0 <= k < 26 :: Small(k) == c
  }

  /** `d` is `c`, or its capital if `c` is a small letter. */
  predicate Raised(c: char, d: char) {
    if IsSmall(c) then CapitalOf(c, d) else d == c
  }

  predicate RaisedText(s: string, t: string) {
    |s| == |t| && forall i | 0 <= i < |s| :: Raised(s[i], t[i])
  }

  lemma LettersInOrder(k: nat)
    requires k < 26
    ensures Small(k) as int == 97 + k && Capital(k) as int == 65 + k
  {
  }

  lemma SmallIsLower(c: char)
    ensures IsSmall(c) <==> IsLower(c)
  {
    if IsLower(c) {
      LettersInOrder(c as int - 97);
    } else if IsSmall(c) {
      var k :| 0 <= k < 26 && Small(k) == c;
      LettersInOrder(k);
    }
  }

  /** Raising a letter gives its capital, and leaves every other character alone. */
  lemma UpperRaises(c: char)
    ensures Raised(c, Upper(c))
  {
    SmallIsLower(c);
    if IsLower(c) {
      LettersInOrder(c as int - 97);
    }
  }

  lemma CapitalIsUpper(c: char, d: char)
    requires CapitalOf(c, d)
    ensures d == Upper(c) && !IsLower(d)
  {
    var k :| 0 <= k < 26 && Small(k) == c && Capital(k) == d;
    LettersInOrder(k);
  }

  lemma RaisedIsUpper(c: char, d: char)
    requires Raised(c, d)
    ensures d == Upper(c) && !IsLower(d)
  {
    SmallIsLower(c);
    if IsSmall(c) {
      CapitalIsUpper(c, d);
    }
  }

  // ------------------------------------------------ where it is forced

  /** A cleaned row is that of its raised spelling, which cleaning leaves as it is. */
  lemma {:induction false} KeptIsRaised(s: string, t: string)
    requires RaisedText(s, t)
    ensures Kept(s, true) == Kept(t, true)
    ensures AllPrintable(t) ==> Kept(s, true) == t
    decreases |s|
  {
    if s != [] {
      RaisedIsUpper(s[0], t[0]);
      assert RaisedText(s[1..], t[1..]);
      KeptIsRaised(s[1..], t[1..]);
      assert t == [t[0]] + t[1..];
    }
  }

  ghost predicate RaisedRows(rows: seq<string>, others: seq<string>) {
    |rows| == |others| && forall i | 0 <= i < |rows| :: RaisedText(rows[i], others[i])
  }

  lemma {:induction false} RowEndsAreKept(s: string, t: string)
    requires RaisedText(s, t)
    ensures LineEnd(s) == LineEnd(t)
  {
    if s != [] {
      RaisedIsUpper(s[0], t[0]);
      assert RaisedText(s[1..], t[1..]);
      RowEndsAreKept(s[1..], t[1..]);
    }
  }

  lemma {:induction false} RowsAreRaised(s: string, t: string)
    requires RaisedText(s, t)
    ensures RaisedRows(RowsOf(s), RowsOf(t))
    decreases |s|
  {
    if s != [] {
      var n := LineEnd(s);
      RowEndsAreKept(s, t);
      assert RaisedText(s[..n], t[..n]);
      if n < |s| {
        assert RaisedText(s[n + 1..], t[n + 1..]);
        RowsAreRaised(s[n + 1..], t[n + 1..]);
        RowsOnTop(s[..n], t[..n], RowsOf(s[n + 1..]), RowsOf(t[n + 1..]));
      }
    }
  }

  lemma RowsOnTop(row: string, other: string, rows: seq<string>, others: seq<string>)
    requires RaisedText(row, other) && RaisedRows(rows, others)
    ensures RaisedRows([row] + rows, [other] + others)
  {
  }

  lemma SameLine(row: string, other: string, index: nat, mode: Mode)
    requires RaisedText(row, other)
    ensures LineOf(row, index, mode, true) == LineOf(other, index, mode, true)
  {
    KeptIsRaised(row, other);
  }

  lemma {:induction false} SameLines(rows: seq<string>, others: seq<string>, index: nat, mode: Mode)
    requires RaisedRows(rows, others)
    ensures Collect(rows, index, Reader(mode, true)) == Collect(others, index, Reader(mode, true))
    decreases |rows|
  {
    if rows != [] {
      SameLine(rows[0], others[0], index, mode);
      assert RaisedRows(rows[1..], others[1..]);
      SameLines(rows[1..], others[1..], index + 1, mode);
    }
  }

  /** Where upper case is forced, importing a text is importing its spelling in capitals. */
  lemma ForcedImportIsRaised(ram: Ram, text: string, capitals: string, mode: Mode)
    requires RaisedText(text, capitals)
    ensures Import(ram, text, mode, true) == Import(ram, capitals, mode, true)
  {
    RowsAreRaised(text, capitals);
    SameLines(RowsOf(text), RowsOf(capitals), 1, mode);
  }

  // ------------------------------------------------------- keywords

  /** `s` starts with the keyword, each letter a capital or a small one. */
  predicate Spelled(s: string, name: string) {
    |name| <= |s| && RaisedText(s[..|name|], name)
  }

  /** A keyword in any spelling is found, or a longer one that starts there too. */
  lemma KeywordIsFound(t: TokenDef, s: string)
    requires t in APPLESOFT && Spelled(s, t.name)
    ensures FirstMatch(APPLESOFT, s).Some? && |FirstMatch(APPLESOFT, s).value.name| >= |t.name|
  {
    ApplesoftIsGood();
    FirstMatchIsLongest(APPLESOFT, s);
    forall k | 0 <= k < |t.name| ensures Upper(s[k]) == Upper(t.name[k]) {
      RaisedIsUpper(s[..|t.name|][k], t.name[k]);
    }
    assert StartsWith(s, t.name);
  }

  lemma MatchIsSpelled(s: string)
    requires FirstMatch(APPLESOFT, s).Some?
    ensures var t := FirstMatch(APPLESOFT, s).value;
            && t in APPLESOFT && 0 < |t.name| <= |s| && t.name[0] != '"' && Spelled(s, t.name)
            && Keyword(t.token) == t.name
  {
    ApplesoftIsGood();
    var i := MatchComesFromTable(APPLESOFT, s);
    var name := APPLESOFT[i].name;
    forall k | 0 <= k < |name| ensures Raised(s[..|name|][k], name[k]) {
      UpperRaises(s[k]);
      assert Upper(name[k]) == name[k];
    }
  }

  lemma SpelledAlike(s: string, name: string, other: string)
    requires RaisedText(s, name) && RaisedText(s, other)
    ensures name == other
  {
    forall k | 0 <= k < |s| ensures name[k] == other[k] {
      RaisedIsUpper(s[k], name[k]);
      RaisedIsUpper(s[k], other[k]);
    }
  }

  /** A keyword that stands alone, in any spelling, becomes the one byte that Applesoft has for it. */
  lemma KeywordBecomesItsToken(t: TokenDef, s: string, force: bool)
    requires t in APPLESOFT && RaisedText(s, t.name)
    ensures var tokens := Tokens(APPLESOFT, s, false, false, force);
            |tokens| == 1 && Keyword(tokens[0]) == t.name
  {
    assert s[..|s|] == s;
    KeywordIsFound(t, s);
    MatchIsSpelled(s);
    var m := FirstMatch(APPLESOFT, s).value;
    RaisedIsUpper(s[0], m.name[0]);
    SpelledAlike(s, t.name, m.name);
    assert s[|m.name|..] == [];
  }

  /** The token behind which everything is a remark is that of REM. */
  lemma RemarksFollowRem()
    ensures Keyword(TOKEN_REM) == "REM"
  {
  }
}
