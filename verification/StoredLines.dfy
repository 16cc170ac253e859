/**
 Which bytes in memory are a statement the tokenizer makes: those that it would
 choose again, one after the other, for their listing.
 */
module StoredLines {
  import opened Bytes
  import opened TokenTable
  import opened Tokenizer

  /** The byte of a character outside any keyword that the tokenizer would leave as it is. */
  predicate Stays(b: Byte, force: bool) {
    b < 0x80 && (force ==> !IsLower(b as char))
  }

  /**
   Each byte in turn is the one the tokenizer chooses where its listing starts: a
   keyword's token exactly where that keyword is the first match, and a character
   only inside quotes or a remark or where no keyword matches.
   */
  predicate Chosen(table: seq<TokenDef>, bytes: seq<Byte>, quoted: bool, rem: bool, force: bool)
    decreases |bytes|
  {
    bytes == [] ||
    var b, rest, m := bytes[0], bytes[1..], FirstMatch(table, Listing(table, bytes, quoted, rem));
    if b == '"' as int then Chosen(table, rest, !quoted, rem, force)
    else if quoted || rem then Stays(b, force) && Chosen(table, rest, quoted, rem, force)
    else if b < 0x80 then m.None? && Stays(b, force) && Chosen(table, rest, quoted, rem, force)
    else m.Some? && m.value.token == b && Chosen(table, rest, quoted, b == TOKEN_REM, force)
  }

  predicate Retokenizes(table: seq<TokenDef>, bytes: seq<Byte>, quoted: bool, rem: bool, force: bool) {
    Tokens(table, Listing(table, bytes, quoted, rem), quoted, rem, force) == bytes
  }

  lemma CharStays(b: Byte, force: bool)
    ensures Code(Normalized((b % 0x80) as char, force)) == b <==> Stays(b, force)
  {
  }

  /** A character in front, where no keyword is looked for or none is found. */
  lemma CharInFront(table: seq<TokenDef>, bytes: seq<Byte>, quoted: bool, rem: bool, force: bool)
    requires bytes != [] && bytes[0] != '"' as int && (quoted || rem || bytes[0] < 0x80)
    requires quoted || rem || FirstMatch(table, Listing(table, bytes, quoted, rem)).None?
    ensures Retokenizes(table, bytes, quoted, rem, force)
            <==> Stays(bytes[0], force) && Retokenizes(table, bytes[1..], quoted, rem, force)
  {
    var b, rest := bytes[0], bytes[1..];
    var c, s := (b % 0x80) as char, Listing(table, rest, quoted, rem);
    assert bytes == [b] + rest;
    ListingHead(table, b, rest, quoted, rem);
    CharTokens(table, c, s, quoted, rem, force);
    CharStays(b, force);
    assert Listing(table, bytes, quoted, rem) == [c] + s;
    SameFront(Code(Normalized(c, force)), b, Tokens(table, s, quoted, rem, force), rest);
  }

  lemma SameFront(a: Byte, b: Byte, s: seq<Byte>, t: seq<Byte>)
    ensures [a] + s == [b] + t <==> a == b && s == t
  {
    assert ([a] + s)[1..] == s && ([b] + t)[1..] == t;
    assert ([a] + s)[0] == a && ([b] + t)[0] == b;
  }

  lemma CharTokens(table: seq<TokenDef>, c: char, s: string, quoted: bool, rem: bool, force: bool)
    requires quoted || rem || FirstMatch(table, [c] + s).None?
    ensures var tokens := Tokens(table, [c] + s, quoted, rem, force);
            if c == '"' then tokens != [] && tokens[0] == '"' as int
            else tokens == [Code(Normalized(c, force))] + Tokens(table, s, quoted, rem, force)
  {
    assert ([c] + s)[1..] == s;
  }

  /** A byte that no match at its listing has as token. */
  lemma OtherMatch(table: seq<TokenDef>, bytes: seq<Byte>, force: bool)
    requires Good(table) && bytes != [] && bytes[0] != '"' as int
    requires var m := FirstMatch(table, Listing(table, bytes, false, false));
             if bytes[0] < 0x80 then m.Some? else m.None? || m.value.token != bytes[0]
    ensures !Retokenizes(table, bytes, false, false, force)
  {
    var s := Listing(table, bytes, false, false);
    if FirstMatch(table, s).Some? {
      MatchFits(table, s);
    } else {
      UnmatchedByte(table, bytes);
    }
  }

  /** With no match at all the byte is of no keyword, and its listing starts with a character below $80. */
  lemma UnmatchedByte(table: seq<TokenDef>, bytes: seq<Byte>)
    requires Good(table) && bytes != [] && 0x80 <= bytes[0]
    requires FirstMatch(table, Listing(table, bytes, false, false)).None?
    ensures var s := Listing(table, bytes, false, false);
            s != [] && s[0] == '?'
  {
    if FindName(table, bytes[0]).Some? {
      NameIsMatched(table, bytes);
    }
  }

  /** Where a keyword's token is listed, some keyword matches. */
  lemma NameIsMatched(table: seq<TokenDef>, bytes: seq<Byte>)
    requires Good(table) && bytes != [] && 0x80 <= bytes[0] && FindName(table, bytes[0]).Some?
    ensures FirstMatch(table, Listing(table, bytes, false, false)).Some?
  {
    var s, name := Listing(table, bytes, false, false), FindName(table, bytes[0]).value;
    FirstMatchIsLongest(table, s);
    FoundIsThere(table, bytes[0]);
    assert StartsWith(s, name);
  }

  lemma {:induction false} FoundIsThere(table: seq<TokenDef>, token: Byte)
    requires FindName(table, token).Some?
    ensures TokenDef(token, FindName(table, token).value) in table
  {
    if table[0].token != token {
      FoundIsThere(table[1..], token);
    }
  }

  lemma MatchOpensPlain(table: seq<TokenDef>, s: string)
    requires Good(table) && FirstMatch(table, s).Some?
    ensures FirstMatch(table, s).value.name != [] && FirstMatch(table, s).value.name[0] != '"'
  {
    var i := MatchComesFromTable(table, s);
  }

  lemma KeywordInFront(table: seq<TokenDef>, bytes: seq<Byte>, force: bool)
    requires Good(table) && bytes != [] && 0x80 <= bytes[0]
    requires var m := FirstMatch(table, Listing(table, bytes, false, false));
             m.Some? && m.value.token == bytes[0]
    ensures Retokenizes(table, bytes, false, false, force)
            <==> Retokenizes(table, bytes[1..], false, bytes[0] == TOKEN_REM, force)
  {
    var b, rest := bytes[0], bytes[1..];
    var s := Listing(table, bytes, false, false);
    var name, tail := FirstMatch(table, s).value.name, Listing(table, rest, false, b == TOKEN_REM);
    MatchFits(table, s);
    MatchOpensPlain(table, s);
    assert s == name + tail && s[|name|..] == tail;
    assert bytes == [b] + rest;
    SameFront(b, b, Tokens(table, tail, false, b == TOKEN_REM, force), rest);
  }

  lemma QuoteInFront(table: seq<TokenDef>, bytes: seq<Byte>, quoted: bool, rem: bool, force: bool)
    requires bytes != [] && bytes[0] == '"' as int
    ensures Retokenizes(table, bytes, quoted, rem, force) <==> Retokenizes(table, bytes[1..], !quoted, rem, force)
  {
    var b, rest := bytes[0], bytes[1..];
    var s := Listing(table, rest, !quoted, rem);
    assert Listing(table, bytes, quoted, rem) == ['"'] + s && (['"'] + s)[1..] == s;
    assert bytes == [b] + rest;
    SameFront(b, b, Tokens(table, s, !quoted, rem, force), rest);
  }

  /** Bytes are the tokens of their own listing exactly when each is chosen in its place. */
  lemma {:induction false} ChosenExactly(table: seq<TokenDef>, bytes: seq<Byte>, quoted: bool, rem: bool, force: bool)
    requires Good(table)
    ensures Retokenizes(table, bytes, quoted, rem, force) <==> Chosen(table, bytes, quoted, rem, force)
    decreases |bytes|
  {
    if bytes != [] {
      var b, rest, m := bytes[0], bytes[1..], FirstMatch(table, Listing(table, bytes, quoted, rem));
      if b == '"' as int {
        QuoteInFront(table, bytes, quoted, rem, force);
        ChosenExactly(table, rest, !quoted, rem, force);
      } else if quoted || rem || (b < 0x80 && m.None?) {
        CharInFront(table, bytes, quoted, rem, force);
        ChosenExactly(table, rest, quoted, rem, force);
      } else if 0x80 <= b && m.Some? && m.value.token == b {
        KeywordInFront(table, bytes, force);
        ChosenExactly(table, rest, quoted, b == TOKEN_REM, force);
      } else {
        OtherMatch(table, bytes, force);
      }
    }
  }
}
