/**
 The tokenizer and the lister of BASIC live sync, on values. A statement's text
 and its token bytes say the same thing: listing the tokens gives the text back,
 up to the case of what was tokenized, and tokenizing the listing gives the
 bytes back.
 */
module Tokenizer {
  import opened Bytes
  import opened TokenTable

  const TOKEN_REM: Byte := 0xB2

  predicate Printable(c: char) {
    ' ' <= c <= '~'
  }

  predicate AllPrintable(s: string) {
    forall i | 0 <= i < |s| :: Printable(s[i])
  }

  predicate NoLower(s: string) {
    forall i | 0 <= i < |s| :: !IsLower(s[i])
  }

  function Upper(c: char): char {
    if IsLower(c) then (c as int - 32) as char else c
  }

  function Normalized(c: char, force: bool): char {
    if force then Upper(c) else c
  }

  // ----------------------------------------------------------- matching

  /** `s` starts with `name`, letters compared without regard to case. */
  predicate StartsWith(s: string, name: string) {
    |name| <= |s| && forall k | 0 <= k < |name| :: Upper(s[k]) == Upper(name[k])
  }

  /** The first entry of the table that matches the start of `s`. */
  function FirstMatch(table: seq<TokenDef>, s: string): Option<TokenDef> {
    if table == [] then None
    else if StartsWith(s, table[0].name) then Some(table[0])
    else FirstMatch(table[1..], s)
  }

  function FindName(table: seq<TokenDef>, token: Byte): Option<string> {
    if table == [] then None
    else if table[0].token == token then Some(table[0].name)
    else FindName(table[1..], token)
  }

  /** With the longest names first, the first match is as long as any. */
  lemma {:induction false} FirstMatchIsLongest(table: seq<TokenDef>, s: string)
    requires LongestFirst(table)
    ensures match FirstMatch(table, s)
      case Some(t) => t in table && StartsWith(s, t.name)
                      && forall u | u in table && StartsWith(s, u.name) :: |u.name| <= |t.name|
      case None => forall u | u in table :: !StartsWith(s, u.name)
  {
    if table != [] && !StartsWith(s, table[0].name) {
      FirstMatchIsLongest(table[1..], s);
      forall u | u in table && StartsWith(s, u.name) ensures u in table[1..] {
      }
    }
  }

  lemma {:induction false} MatchComesFromTable(table: seq<TokenDef>, s: string) returns (i: nat)
    requires FirstMatch(table, s).Some?
    ensures i < |table| && table[i] == FirstMatch(table, s).value && StartsWith(s, table[i].name)
  {
    if StartsWith(s, table[0].name) {
      i := 0;
    } else {
      var j := MatchComesFromTable(table[1..], s);
      i := j + 1;
    }
  }

  /** With distinct tokens, looking a token up finds the entry it came from. */
  lemma {:induction false} NameOfToken(table: seq<TokenDef>, i: nat)
    requires Distinct(table) && i < |table|
    ensures FindName(table, table[i].token) == Some(table[i].name)
  {
    if i > 0 {
      assert table[0].token != table[i].token;
      assert Distinct(table[1..]) by {
        forall j, k | 0 <= j < k < |table[1..]| ensures table[1..][j].token != table[1..][k].token {
          assert table[1..][j] == table[j + 1] && table[1..][k] == table[k + 1];
        }
      }
      NameOfToken(table[1..], i - 1);
    }
  }

  predicate SameButCase(s: string, t: string) {
    |s| == |t| && forall i | 0 <= i < |s| :: Upper(s[i]) == Upper(t[i])
  }

  /** Matching does not see case. */
  lemma {:induction false} MatchIgnoresCase(table: seq<TokenDef>, s: string, t: string)
    requires SameButCase(s, t)
    ensures FirstMatch(table, s) == FirstMatch(table, t)
  {
    if table != [] {
      var name := table[0].name;
      assert StartsWith(s, name) == StartsWith(t, name) by {
        if |name| <= |s| {
          assert forall k | 0 <= k < |name| :: Upper(s[k]) == Upper(t[k]);
        }
      }
      MatchIgnoresCase(table[1..], s, t);
    }
  }

  // -------------------------------------------------------- tokenizing

  /** Token bytes of `s`, read on from inside or outside quotes and a remark. */
  function Tokens(table: seq<TokenDef>, s: string, quoted: bool, rem: bool, force: bool): seq<Byte>
    decreases |s|
  {
    if s == [] then []
    else if s[0] == '"' then ['"' as int] + Tokens(table, s[1..], !quoted, rem, force)
    else
      var m := if quoted || rem then None else FirstMatch(table, s);
      if m.Some? && 0 < |m.value.name| <= |s| then
        [m.value.token] + Tokens(table, s[|m.value.name|..], quoted, m.value.token == TOKEN_REM, force)
      else
        [Code(Normalized(s[0], force))] + Tokens(table, s[1..], quoted, rem, force)
  }

  /** A character as the byte that holds it; the program's characters have eight bits. */
  function Code(c: char): Byte {
    c as int % 0x100
  }

  function Listing(table: seq<TokenDef>, bytes: seq<Byte>, quoted: bool, rem: bool): string {
    if bytes == [] then []
    else
      var b, rest := bytes[0], bytes[1..];
      if b == '"' as int then ['"'] + Listing(table, rest, !quoted, rem)
      else if quoted || rem || b < 0x80 then [(b % 0x80) as char] + Listing(table, rest, quoted, rem)
      else
        match FindName(table, b)
        case Some(name) => name + Listing(table, rest, quoted, rem || b == TOKEN_REM)
        case None => UnknownToken(b) + Listing(table, rest, quoted, rem)
  }

  function HexDigit(d: nat): char
    requires d < 16
  {
    "0123456789abcdef"[d]
  }

  /** What stands in a listing for a byte no keyword has. */
  function UnknownToken(b: Byte): string {
    "?TOKEN_$" + [HexDigit(b / 16), HexDigit(b % 16)] + "?"
  }

  // --------------------------------------------------------- round trips

  /** `d` is `s` with perhaps some letters raised to upper case. */
  predicate Echoes(d: string, s: string) {
    |d| == |s| && forall i | 0 <= i < |s| :: d[i] == s[i] || d[i] == Upper(s[i])
  }

  function Listed(table: seq<TokenDef>, s: string, quoted: bool, rem: bool, force: bool): string {
    Listing(table, Tokens(table, s, quoted, rem, force), quoted, rem)
  }

  /** What a match promises: the name lies in the text, and its token stands for it alone. */
  lemma MatchFits(table: seq<TokenDef>, s: string)
    requires Good(table) && FirstMatch(table, s).Some?
    ensures var t := FirstMatch(table, s).value;
            && 0 < |t.name| <= |s| && NoLower(t.name) && StartsWith(s, t.name)
            && 0x80 <= t.token && FindName(table, t.token) == Some(t.name)
  {
    var i := MatchComesFromTable(table, s);
    NameOfToken(table, i);
  }

  lemma ListedKeyword(table: seq<TokenDef>, s: string, t: TokenDef, force: bool)
    requires Good(table) && s != [] && s[0] != '"' && FirstMatch(table, s) == Some(t)
    ensures 0 < |t.name| <= |s|
    ensures Listed(table, s, false, false, force)
         == t.name + Listed(table, s[|t.name|..], false, t.token == TOKEN_REM, force)
  {
    MatchFits(table, s);
    var rest := Tokens(table, s[|t.name|..], false, t.token == TOKEN_REM, force);
    ListingHead(table, t.token, rest, false, false);
  }

  lemma ListedChar(table: seq<TokenDef>, s: string, quoted: bool, rem: bool, force: bool)
    requires AllPrintable(s) && s != [] && s[0] != '"'
    requires quoted || rem || FirstMatch(table, s).None?
    ensures Listed(table, s, quoted, rem, force)
         == [Normalized(s[0], force)] + Listed(table, s[1..], quoted, rem, force)
  {
    var c := Normalized(s[0], force);
    assert Printable(s[0]) && Printable(c) && Code(c) == c as int < 0x80 && c != '"';
    ListingHead(table, Code(c), Tokens(table, s[1..], quoted, rem, force), quoted, rem);
  }

  lemma ListedMark(table: seq<TokenDef>, s: string, quoted: bool, rem: bool, force: bool)
    requires s != [] && s[0] == '"'
    ensures Listed(table, s, quoted, rem, force) == "\"" + Listed(table, s[1..], !quoted, rem, force)
  {
    ListingHead(table, '"' as int, Tokens(table, s[1..], !quoted, rem, force), quoted, rem);
  }

  lemma ListingHead(table: seq<TokenDef>, b: Byte, rest: seq<Byte>, quoted: bool, rem: bool)
    ensures Listing(table, [b] + rest, quoted, rem) ==
            if b == '"' as int then "\"" + Listing(table, rest, !quoted, rem)
            else if quoted || rem || b < 0x80 then [(b % 0x80) as char] + Listing(table, rest, quoted, rem)
            else if FindName(table, b).Some?
            then FindName(table, b).value + Listing(table, rest, quoted, rem || b == TOKEN_REM)
            else UnknownToken(b) + Listing(table, rest, quoted, rem)
  {
    assert ([b] + rest)[1..] == rest;
  }

  /** How the round trip begins, whatever the text begins with. */
  lemma ListedUnfolds(table: seq<TokenDef>, s: string, quoted: bool, rem: bool, force: bool)
    requires Good(table) && AllPrintable(s) && s != []
    ensures s[0] == '"' ==>
              Listed(table, s, quoted, rem, force) == "\"" + Listed(table, s[1..], !quoted, rem, force)
    ensures s[0] != '"' && (quoted || rem || FirstMatch(table, s).None?) ==>
              Listed(table, s, quoted, rem, force)
              == [Normalized(s[0], force)] + Listed(table, s[1..], quoted, rem, force)
    ensures s[0] != '"' && !quoted && !rem && FirstMatch(table, s).Some? ==>
              var t := FirstMatch(table, s).value;
              && 0 < |t.name| <= |s| && NoLower(t.name) && StartsWith(s, t.name)
              && Listed(table, s, quoted, rem, force)
                 == t.name + Listed(table, s[|t.name|..], false, t.token == TOKEN_REM, force)
  {
    if s[0] == '"' {
      ListedMark(table, s, quoted, rem, force);
    } else if !quoted && !rem && FirstMatch(table, s).Some? {
      MatchFits(table, s);
      ListedKeyword(table, s, FirstMatch(table, s).value, force);
    } else {
      ListedChar(table, s, quoted, rem, force);
    }
  }

  /** Listing what was tokenized echoes the text. */
  lemma {:induction false} ListingEchoes(table: seq<TokenDef>, s: string, quoted: bool, rem: bool, force: bool)
    requires Good(table) && AllPrintable(s)
    ensures Echoes(Listed(table, s, quoted, rem, force), s)
    ensures force ==> NoLower(Listed(table, s, quoted, rem, force))
    decreases |s|
  {
    if s != [] {
      ListedUnfolds(table, s, quoted, rem, force);
      var m := FirstMatch(table, s);
      if s[0] == '"' {
        ListingEchoes(table, s[1..], !quoted, rem, force);
        EchoCons('"', Listed(table, s[1..], !quoted, rem, force), s);
      } else if !quoted && !rem && m.Some? {
        var name := m.value.name;
        ListingEchoes(table, s[|name|..], false, m.value.token == TOKEN_REM, force);
        EchoKeyword(name, Listed(table, s[|name|..], false, m.value.token == TOKEN_REM, force), s);
      } else {
        ListingEchoes(table, s[1..], quoted, rem, force);
        EchoCons(Normalized(s[0], force), Listed(table, s[1..], quoted, rem, force), s);
      }
    }
  }

  lemma EchoCons(c: char, e: string, s: string)
    requires s != [] && (c == s[0] || c == Upper(s[0])) && Echoes(e, s[1..])
    ensures Echoes([c] + e, s)
    ensures !IsLower(c) && NoLower(e) ==> NoLower([c] + e)
  {
  }

  lemma EchoKeyword(name: string, e: string, s: string)
    requires StartsWith(s, name) && NoLower(name) && Echoes(e, s[|name|..])
    ensures Echoes(name + e, s)
    ensures NoLower(e) ==> NoLower(name + e)
  {
    EchoAppend(name, s[..|name|], e, s[|name|..]);
    assert s == s[..|name|] + s[|name|..];
  }

  lemma EchoAppend(d: string, s: string, e: string, t: string)
    requires |d| == |s| && forall k | 0 <= k < |s| :: !IsLower(d[k]) && Upper(s[k]) == Upper(d[k])
    requires Echoes(e, t)
    ensures Echoes(d + e, s + t)
    ensures NoLower(e) ==> NoLower(d + e)
  {
    forall i | 0 <= i < |s + t| ensures (d + e)[i] == (s + t)[i] || (d + e)[i] == Upper((s + t)[i]) {
      if i < |s| {
        assert Upper(d[i]) == d[i];
      }
    }
  }

  /** Text without lower-case letters comes back exactly. */
  lemma UpperCaseExact(table: seq<TokenDef>, s: string, force: bool)
    requires Good(table) && AllPrintable(s) && NoLower(s)
    ensures Listed(table, s, false, false, force) == s
  {
    ListingEchoes(table, s, false, false, force);
  }

  /** After REM every character comes back exactly, unless upper case is forced. */
  lemma {:induction false} RemarkExact(table: seq<TokenDef>, s: string, quoted: bool)
    requires Good(table) && AllPrintable(s)
    ensures Listed(table, s, quoted, true, false) == s
    decreases |s|
  {
    if s != [] {
      var inside := if s[0] == '"' then !quoted else quoted;
      RemarkExact(table, s[1..], inside);
      if s[0] == '"' {
        ListedMark(table, s, quoted, true, false);
      } else {
        ListedChar(table, s, quoted, true, false);
      }
      assert Listed(table, s, quoted, true, false) == [s[0]] + Listed(table, s[1..], inside, true, false);
    }
  }

  /** So does everything inside quotes, up to and including the closing one. */
  lemma {:induction false} QuotedExact(table: seq<TokenDef>, inside: string, after: string)
    requires Good(table) && AllPrintable(inside + "\"" + after) && '"' !in inside
    ensures Listed(table, inside + "\"" + after, true, false, false)
         == inside + "\"" + Listed(table, after, false, false, false)
    decreases |inside|
  {
    var s := inside + "\"" + after;
    ListedUnfolds(table, s, true, false, false);
    if inside == [] {
      assert s[1..] == after;
    } else {
      assert s[1..] == inside[1..] + "\"" + after;
      QuotedExact(table, inside[1..], after);
    }
  }

  lemma EchoIsSameButCase(d: string, s: string)
    requires Echoes(d, s)
    ensures SameButCase(d, s)
  {
  }

  lemma EchoIsPrintable(d: string, s: string)
    requires Echoes(d, s) && AllPrintable(s)
    ensures AllPrintable(d)
  {
  }

  /** Tokenizing the listing gives the same bytes: keywords are found where they were. */
  lemma {:induction false} RetokenizeExact(table: seq<TokenDef>, s: string, quoted: bool, rem: bool, force: bool)
    requires Good(table) && AllPrintable(s)
    ensures Tokens(table, Listed(table, s, quoted, rem, force), quoted, rem, force)
         == Tokens(table, s, quoted, rem, force)
    decreases |s|
  {
    if s != [] {
      var d := Listed(table, s, quoted, rem, force);
      ListedUnfolds(table, s, quoted, rem, force);
      ListingEchoes(table, s, quoted, rem, force);
      EchoIsSameButCase(d, s);
      MatchIgnoresCase(table, d, s);
      assert d[0] == '"' <==> s[0] == '"';
      var m := FirstMatch(table, s);
      if s[0] == '"' {
        RetokenizeExact(table, s[1..], !quoted, rem, force);
        assert d[1..] == Listed(table, s[1..], !quoted, rem, force);
      } else if !quoted && !rem && m.Some? {
        var n := |m.value.name|;
        RetokenizeExact(table, s[n..], false, m.value.token == TOKEN_REM, force);
        assert d[n..] == Listed(table, s[n..], false, m.value.token == TOKEN_REM, force);
      } else {
        RetokenizeExact(table, s[1..], quoted, rem, force);
        assert d[1..] == Listed(table, s[1..], quoted, rem, force);
        assert Normalized(d[0], force) == Normalized(s[0], force);
      }
    }
  }
}
