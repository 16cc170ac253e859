/**
 The keywords of Applesoft BASIC in the order the tokenizer tries them: longer
 ones first, so that the first match is a longest one. What the tokenizer needs
 of the table is checked here, a few entries at a time, against the places where
 their tokens should be.
 */
module TokenTable {
  import opened Bytes

  datatype TokenDef = TokenDef(token: Byte, name: string)

  const SEVEN: seq<TokenDef> := [
    TokenDef(0x92, "HCOLOR="), TokenDef(0x9C, "NOTRACE"), TokenDef(0x9E, "INVERSE"), TokenDef(0xAE, "RESTORE")]

  const SIX_1: seq<TokenDef> := [
    TokenDef(0x99, "SCALE="), TokenDef(0x9A, "SHLOAD"), TokenDef(0x9D, "NORMAL"), TokenDef(0xA0, "COLOR="),
    TokenDef(0xA3, "HIMEM:"), TokenDef(0xA4, "LOMEM:")]

  const SIX_2: seq<TokenDef> := [
    TokenDef(0xA6, "RESUME"), TokenDef(0xA7, "RECALL"), TokenDef(0xA9, "SPEED="), TokenDef(0xB1, "RETURN"),
    TokenDef(0xE9, "RIGHT$")]

  const FIVE_1: seq<TokenDef> := [
    TokenDef(0x84, "INPUT"), TokenDef(0x93, "HPLOT"), TokenDef(0x95, "XDRAW"), TokenDef(0x9B, "TRACE"),
    TokenDef(0x9F, "FLASH"), TokenDef(0xA5, "ONERR")]

  const FIVE_2: seq<TokenDef> := [
    TokenDef(0xA8, "STORE"), TokenDef(0xB0, "GOSUB"), TokenDef(0xBA, "PRINT"), TokenDef(0xBD, "CLEAR"),
    TokenDef(0xD7, "SCRN("), TokenDef(0xE8, "LEFT$")]

  const FOUR_1: seq<TokenDef> := [
    TokenDef(0x82, "NEXT"), TokenDef(0x83, "DATA"), TokenDef(0x87, "READ"), TokenDef(0x89, "TEXT"),
    TokenDef(0x8C, "CALL"), TokenDef(0x8D, "PLOT")]

  const FOUR_2: seq<TokenDef> := [
    TokenDef(0x8E, "HLIN"), TokenDef(0x8F, "VLIN"), TokenDef(0x90, "HGR2"), TokenDef(0x94, "DRAW"),
    TokenDef(0x96, "HTAB"), TokenDef(0x97, "HOME")]

  const FOUR_3: seq<TokenDef> := [
    TokenDef(0x98, "ROT="), TokenDef(0xA2, "VTAB"), TokenDef(0xAB, "GOTO"), TokenDef(0xB3, "STOP"),
    TokenDef(0xB5, "WAIT"), TokenDef(0xB6, "LOAD")]

  const FOUR_4: seq<TokenDef> := [
    TokenDef(0xB7, "SAVE"), TokenDef(0xB9, "POKE"), TokenDef(0xBB, "CONT"), TokenDef(0xBC, "LIST"),
    TokenDef(0xC0, "TAB("), TokenDef(0xC3, "SPC(")]

  const FOUR_5: seq<TokenDef> := [
    TokenDef(0xC4, "THEN"), TokenDef(0xC7, "STEP"), TokenDef(0xE2, "PEEK"), TokenDef(0xE4, "STR$"),
    TokenDef(0xE7, "CHR$"), TokenDef(0xEA, "MID$")]

  const THREE_1: seq<TokenDef> := [
    TokenDef(0x80, "END"), TokenDef(0x81, "FOR"), TokenDef(0x85, "DEL"), TokenDef(0x86, "DIM"),
    TokenDef(0x8A, "PR#"), TokenDef(0x8B, "IN#")]

  const THREE_2: seq<TokenDef> := [
    TokenDef(0x91, "HGR"), TokenDef(0xA1, "POP"), TokenDef(0xAA, "LET"), TokenDef(0xAC, "RUN"),
    TokenDef(0xB2, "REM"), TokenDef(0xB8, "DEF")]

  const THREE_3: seq<TokenDef> := [
    TokenDef(0xBE, "GET"), TokenDef(0xBF, "NEW"), TokenDef(0xC6, "NOT"), TokenDef(0xCD, "AND"),
    TokenDef(0xD2, "SGN"), TokenDef(0xD3, "INT")]

  const THREE_4: seq<TokenDef> := [
    TokenDef(0xD4, "ABS"), TokenDef(0xD5, "USR"), TokenDef(0xD6, "FRE"), TokenDef(0xD8, "PDL"),
    TokenDef(0xD9, "POS"), TokenDef(0xDA, "SQR")]

  const THREE_5: seq<TokenDef> := [
    TokenDef(0xDB, "RND"), TokenDef(0xDC, "LOG"), TokenDef(0xDD, "EXP"), TokenDef(0xDE, "COS"),
    TokenDef(0xDF, "SIN")]

  const THREE_6: seq<TokenDef> := [
    TokenDef(0xE0, "TAN"), TokenDef(0xE1, "ATN"), TokenDef(0xE3, "LEN"), TokenDef(0xE5, "VAL"),
    TokenDef(0xE6, "ASC")]

  const TWO_1: seq<TokenDef> := [
    TokenDef(0x88, "GR"), TokenDef(0xAD, "IF"), TokenDef(0xB4, "ON"), TokenDef(0xC1, "TO")]

  const TWO_2: seq<TokenDef> := [
    TokenDef(0xC2, "FN"), TokenDef(0xC5, "AT"), TokenDef(0xCE, "OR")]

  const ONE_1: seq<TokenDef> := [
    TokenDef(0xAF, "&"), TokenDef(0xC8, "+"), TokenDef(0xC9, "-"), TokenDef(0xCA, "*"),
    TokenDef(0xCB, "/")]

  const ONE_2: seq<TokenDef> := [
    TokenDef(0xCC, "^"), TokenDef(0xCF, ">"), TokenDef(0xD0, "="), TokenDef(0xD1, "<")]

  const GROUPS: seq<seq<TokenDef>> :=
    [SEVEN, SIX_1, SIX_2, FIVE_1, FIVE_2, FOUR_1, FOUR_2, FOUR_3, FOUR_4, FOUR_5, THREE_1, THREE_2,
     THREE_3, THREE_4, THREE_5, THREE_6, TWO_1, TWO_2, ONE_1, ONE_2]

  const LENGTHS: seq<nat> := [7, 6, 6, 5, 5, 4, 4, 4, 4, 4, 3, 3, 3, 3, 3, 3, 2, 2, 1, 1]

  /** How many keywords come before each group. */
  const STARTS: seq<nat> := [0, 4, 10, 15, 21, 27, 33, 39, 45, 51, 57, 63, 69, 75, 81, 86, 91, 95, 98, 103]

  /** The whole table: the groups one after another. */
  const APPLESOFT: seq<TokenDef> := Concat(GROUPS)

  function Concat(groups: seq<seq<TokenDef>>): seq<TokenDef> {
    if groups == [] then [] else groups[0] + Concat(groups[1..])
  }

  predicate IsLower(c: char) {
    'a' <= c <= 'z'
  }

  /** Tokens lie above the characters; names are non-empty and have no lower-case letter and no quote. */
  ghost predicate WellFormed(table: seq<TokenDef>) {
    forall i | 0 <= i < |table| ::
      && 0x80 <= table[i].token
      && 0 < |table[i].name|
      && forall k | 0 <= k < |table[i].name| :: !IsLower(table[i].name[k]) && table[i].name[k] != '"'
  }

  ghost predicate Distinct(table: seq<TokenDef>) {
    forall i, j | 0 <= i < j < |table| :: table[i].token != table[j].token
  }

  ghost predicate LongestFirst(table: seq<TokenDef>) {
    forall i, j | 0 <= i < j < |table| :: |table[i].name| >= |table[j].name|
  }

  /** Everything the tokenizer relies on. */
  ghost predicate Good(table: seq<TokenDef>) {
    WellFormed(table) && Distinct(table) && LongestFirst(table)
  }

  /** The keywords of Applesoft in the order of their tokens, from $80 to $EA. */
  function Keyword(token: Byte): string {
    if token < 0x80 || token > 0xEA then ""
    else if token < 0x88 then ["END", "FOR", "NEXT", "DATA", "INPUT", "DEL", "DIM", "READ"][token - 0x80]
    else if token < 0x90 then ["GR", "TEXT", "PR#", "IN#", "CALL", "PLOT", "HLIN", "VLIN"][token - 0x88]
    else if token < 0x98 then ["HGR2", "HGR", "HCOLOR=", "HPLOT", "DRAW", "XDRAW", "HTAB", "HOME"][token - 0x90]
    else if token < 0xA0 then
      ["ROT=", "SCALE=", "SHLOAD", "TRACE", "NOTRACE", "NORMAL", "INVERSE", "FLASH"][token - 0x98]
    else if token < 0xA8 then ["COLOR=", "POP", "VTAB", "HIMEM:", "LOMEM:", "ONERR", "RESUME", "RECALL"][token - 0xA0]
    else if token < 0xB0 then ["STORE", "SPEED=", "LET", "GOTO", "RUN", "IF", "RESTORE", "&"][token - 0xA8]
    else if token < 0xB8 then ["GOSUB", "RETURN", "REM", "STOP", "ON", "WAIT", "LOAD", "SAVE"][token - 0xB0]
    else if token < 0xC0 then ["DEF", "POKE", "PRINT", "CONT", "LIST", "CLEAR", "GET", "NEW"][token - 0xB8]
    else if token < 0xC8 then ["TAB(", "TO", "FN", "SPC(", "THEN", "AT", "NOT", "STEP"][token - 0xC0]
    else if token < 0xD0 then ["+", "-", "*", "/", "^", "AND", "OR", ">"][token - 0xC8]
    else if token < 0xD8 then ["=", "<", "SGN", "INT", "ABS", "USR", "FRE", "SCRN("][token - 0xD0]
    else if token < 0xE0 then ["PDL", "POS", "SQR", "RND", "LOG", "EXP", "COS", "SIN"][token - 0xD8]
    else if token < 0xE8 then ["TAN", "ATN", "PEEK", "LEN", "STR$", "VAL", "ASC", "CHR$"][token - 0xE0]
    else ["LEFT$", "RIGHT$", "MID$"][token - 0xE8]
  }

  /** Where the keyword of each token stands in the table: its inverse, from $80 to $EA. */
  function PlaceOf(token: Byte): int {
    if token < 0x80 || token > 0xEA then -1
    else if token < 0x88 then [57, 58, 27, 28, 15, 59, 60, 29][token - 0x80]
    else if token < 0x90 then [91, 30, 61, 62, 31, 32, 33, 34][token - 0x88]
    else if token < 0x98 then [35, 63, 0, 16, 36, 17, 37, 38][token - 0x90]
    else if token < 0xA0 then [39, 4, 5, 18, 1, 6, 2, 19][token - 0x98]
    else if token < 0xA8 then [7, 64, 40, 8, 9, 20, 10, 11][token - 0xA0]
    else if token < 0xB0 then [21, 12, 65, 41, 66, 92, 3, 98][token - 0xA8]
    else if token < 0xB8 then [22, 13, 67, 42, 93, 43, 44, 45][token - 0xB0]
    else if token < 0xC0 then [68, 46, 23, 47, 48, 24, 69, 70][token - 0xB8]
    else if token < 0xC8 then [49, 94, 95, 50, 51, 96, 71, 52][token - 0xC0]
    else if token < 0xD0 then [99, 100, 101, 102, 103, 72, 97, 104][token - 0xC8]
    else if token < 0xD8 then [105, 106, 73, 74, 75, 76, 77, 25][token - 0xD0]
    else if token < 0xE0 then [78, 79, 80, 81, 82, 83, 84, 85][token - 0xD8]
    else if token < 0xE8 then [86, 87, 53, 88, 54, 89, 90, 55][token - 0xE0]
    else [26, 14, 56][token - 0xE8]
  }

  /** Keywords of one length, in their places from `start` on. */
  ghost predicate InPlace(group: seq<TokenDef>, start: nat, length: nat) {
    forall i | 0 <= i < |group| ::
      && 0x80 <= group[i].token && PlaceOf(group[i].token) == start + i && Keyword(group[i].token) == group[i].name
      && |group[i].name| == length
      && forall k | 0 <= k < length :: !IsLower(group[i].name[k]) && group[i].name[k] != '"'
  }

  /** Each token has the keyword that Applesoft gives it. */
  ghost predicate Spells(table: seq<TokenDef>) {
    forall i | 0 <= i < |table| :: Keyword(table[i].token) == table[i].name
  }

  lemma SevenInPlace()
    ensures InPlace(SEVEN, 0, 7)
  {
  }

  lemma Six1InPlace()
    ensures InPlace(SIX_1, 4, 6)
  {
  }

  lemma Six2InPlace()
    ensures InPlace(SIX_2, 10, 6)
  {
  }

  lemma Five1InPlace()
    ensures InPlace(FIVE_1, 15, 5)
  {
  }

  lemma Five2InPlace()
    ensures InPlace(FIVE_2, 21, 5)
  {
  }

  lemma Four1InPlace()
    ensures InPlace(FOUR_1, 27, 4)
  {
  }

  lemma Four2InPlace()
    ensures InPlace(FOUR_2, 33, 4)
  {
  }

  lemma Four3InPlace()
    ensures InPlace(FOUR_3, 39, 4)
  {
  }

  lemma Four4InPlace()
    ensures InPlace(FOUR_4, 45, 4)
  {
  }

  lemma Four5InPlace()
    ensures InPlace(FOUR_5, 51, 4)
  {
  }

  lemma Three1InPlace()
    ensures InPlace(THREE_1, 57, 3)
  {
  }

  lemma Three2InPlace()
    ensures InPlace(THREE_2, 63, 3)
  {
  }

  lemma Three3InPlace()
    ensures InPlace(THREE_3, 69, 3)
  {
  }

  lemma Three4InPlace()
    ensures InPlace(THREE_4, 75, 3)
  {
  }

  lemma Three5InPlace()
    ensures InPlace(THREE_5, 81, 3)
  {
  }

  lemma Three6InPlace()
    ensures InPlace(THREE_6, 86, 3)
  {
  }

  lemma Two1InPlace()
    ensures InPlace(TWO_1, 91, 2)
  {
  }

  lemma Two2InPlace()
    ensures InPlace(TWO_2, 95, 2)
  {
  }

  lemma One1InPlace()
    ensures InPlace(ONE_1, 98, 1)
  {
  }

  lemma One2InPlace()
    ensures InPlace(ONE_2, 103, 1)
  {
  }

  /** Groups one after another, each in its place, the longer names first. */
  ghost predicate AllInPlace(groups: seq<seq<TokenDef>>, starts: seq<nat>, lengths: seq<nat>) {
    && |groups| == |starts| == |lengths|
    && (forall k | 0 <= k < |groups| :: InPlace(groups[k], starts[k], lengths[k]) && lengths[k] > 0)
    && (forall k | 0 < k < |groups| :: Follows(groups[k - 1], starts[k - 1], starts[k], lengths[k - 1], lengths[k]))
  }

  predicate Follows(group: seq<TokenDef>, start: nat, next: nat, length: nat, nextLength: nat) {
    next == start + |group| && length >= nextLength
  }

  /** Then each token's place in the whole table is its own, which makes the tokens distinct. */
  lemma {:induction false} ConcatInPlace(groups: seq<seq<TokenDef>>, starts: seq<nat>, lengths: seq<nat>)
    requires AllInPlace(groups, starts, lengths)
    ensures var table := Concat(groups);
            && WellFormed(table) && LongestFirst(table)
            && (forall i | 0 <= i < |table| :: PlaceOf(table[i].token) == starts[0] + i)
            && (forall i | 0 <= i < |table| :: |table[i].name| <= lengths[0])
            && Spells(table)
    decreases |groups|
  {
    if groups != [] {
      assert AllInPlace(groups[1..], starts[1..], lengths[1..]) by {
        forall k | 0 < k < |groups[1..]|
          ensures Follows(groups[1..][k - 1], starts[1..][k - 1], starts[1..][k], lengths[1..][k - 1], lengths[1..][k])
        {
          assert Follows(groups[k], starts[k], starts[k + 1], lengths[k], lengths[k + 1]);
        }
      }
      ConcatInPlace(groups[1..], starts[1..], lengths[1..]);
      if |groups| > 1 {
        assert Follows(groups[0], starts[0], starts[1], lengths[0], lengths[1]);
      }
      OnTop(groups[0], Concat(groups[1..]), starts[0], lengths[0]);
    }
  }

  lemma OnTop(group: seq<TokenDef>, rest: seq<TokenDef>, start: nat, length: nat)
    requires InPlace(group, start, length) && length > 0 && WellFormed(rest) && LongestFirst(rest)
    requires forall i | 0 <= i < |rest| :: PlaceOf(rest[i].token) == start + |group| + i && |rest[i].name| <= length
    requires Spells(rest)
    ensures var table := group + rest;
            && WellFormed(table) && LongestFirst(table)
            && (forall i | 0 <= i < |table| :: PlaceOf(table[i].token) == start + i)
            && (forall i | 0 <= i < |table| :: |table[i].name| <= length)
            && Spells(table)
  {
  }

  lemma GroupsInPlace()
    ensures |GROUPS| == |STARTS| == |LENGTHS|
    ensures forall k | 0 <= k < |GROUPS| :: InPlace(GROUPS[k], STARTS[k], LENGTHS[k]) && LENGTHS[k] > 0
  {
    SevenInPlace();
    Six1InPlace();
    Six2InPlace();
    Five1InPlace();
    Five2InPlace();
    Four1InPlace();
    Four2InPlace();
    Four3InPlace();
    Four4InPlace();
    Four5InPlace();
    Three1InPlace();
    Three2InPlace();
    Three3InPlace();
    Three4InPlace();
    Three5InPlace();
    Three6InPlace();
    Two1InPlace();
    Two2InPlace();
    One1InPlace();
    One2InPlace();
  }

  lemma GroupsFollow()
    ensures |GROUPS| == |STARTS| == |LENGTHS|
    ensures forall k | 0 < k < |GROUPS| ::
      Follows(GROUPS[k - 1], STARTS[k - 1], STARTS[k], LENGTHS[k - 1], LENGTHS[k])
  {
  }

  /** The real table meets everything the tokenizer relies on. */
  lemma ApplesoftIsGood()
    ensures Good(APPLESOFT) && Spells(APPLESOFT)
    ensures forall i | 0 <= i < |APPLESOFT| :: PlaceOf(APPLESOFT[i].token) == i
  {
    GroupsInPlace();
    GroupsFollow();
    ConcatInPlace(GROUPS, STARTS, LENGTHS);
    assert STARTS[0] == 0;
  }
}
