/**
 * The text form of a move request and its translation to board coordinates,
 * as `makeMove` does it (Main.kt:17, 59-71): four characters matching
 * `[a-h][1-8][a-h][1-8]`, rank digit d mapped to row |d - 8| and file f to
 * column f - 'a'.
 */
module Notation {
  import opened Prelude

  /** A parsed request: source row and column, destination row and column. */
  datatype Req = Req(x1: int, y1: int, x2: int, y2: int)

  predicate InRange(r: Req)
  {
    0 <= r.x1 < 8 && 0 <= r.y1 < 8 && 0 <= r.x2 < 8 && 0 <= r.y2 < 8
  }

  predicate IsFile(ch: char)
  {
    'a' <= ch <= 'h'
  }

  predicate IsRank(ch: char)
  {
    '1' <= ch <= '8'
  }

  /** `Regex("[a-h][1-8][a-h][1-8]").matches(input)`: the whole input must match. */
  predicate Matches(s: string)
  {
    |s| == 4 && IsFile(s[0]) && IsRank(s[1]) && IsFile(s[2]) && IsRank(s[3])
  }

  /** `Char.digitToInt` on a decimal digit. */
  function DigitToInt(ch: char): int
    requires '0' <= ch <= '9'
  {
    ch as int - '0' as int
  }

  /** Main.kt:63 and 70: `abs(input[k].digitToInt() - 8)`. */
  function RowOf(ch: char): int
    requires IsRank(ch)
  {
    Abs(DigitToInt(ch) - 8)
  }

  /** Main.kt:64 and 71: `input[k] - 'a'`. */
  function ColumnOf(ch: char): int
  {
    ch as int - 'a' as int
  }

  /**
   * The request `makeMove` reads from its input, or None when the input is
   * rejected as "Invalid Input" by the pattern check.
   */
  function Parse(s: string): (r: Option<Req>)
    ensures r.Some? <==> Matches(s)
    ensures r.Some? ==> InRange(r.value)
  {
    if Matches(s) then Some(Req(RowOf(s[1]), ColumnOf(s[0]), RowOf(s[3]), ColumnOf(s[2])))
    else None
  }

  function FileChar(col: int): char
    requires 0 <= col < 8
  {
    ('a' as int + col) as char
  }

  function RankChar(row: int): char
    requires 0 <= row < 8
  {
    ('0' as int + 8 - row) as char
  }

  /** The algebraic notation of a request, e.g. Req(6, 4, 4, 4) is "e2e4". */
  function Format(r: Req): (s: string)
    requires InRange(r)
  {
    [FileChar(r.y1), RankChar(r.x1), FileChar(r.y2), RankChar(r.x2)]
  }

  /** Every request on the board has a text form that parses back to it. */
  lemma ParseFormat(r: Req)
    requires InRange(r)
    ensures Matches(Format(r)) && Parse(Format(r)) == Some(r)
  {
    var s := Format(r);
    assert RowOf(s[1]) == r.x1 && RowOf(s[3]) == r.x2;
  }

  /** Every accepted text is the form of the request it parses to. */
  lemma FormatParse(s: string)
    requires Matches(s)
    ensures Format(Parse(s).value) == s
  {
    var r := Parse(s).value;
    assert RankChar(r.x1) == s[1] && RankChar(r.x2) == s[3];
  }
}
