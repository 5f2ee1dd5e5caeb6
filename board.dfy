/**
 * The state of a pawns-only chess game (Main.kt:6-12, 128-129, 192-212) as a value:
 * an arena of sixteen pawns addressed by id, an 8x8 grid of cells that are empty or
 * hold a pawn id, the two rosters, the en-passant marker and the win flag.
 *
 * Row 0 is Black's back rank (rank 8), row 7 is White's back rank (rank 1).
 */
module Board {
  import opened Prelude

  /** The colours of Main.kt; `Null` is the colour of the empty-square sentinel. */
  datatype Color = White | Black | Null

  /**
   * Identity of one of the sixteen pawns of Main.kt:7-8: ids 0..7 are
   * whitePawns[0..7], ids 8..15 are blackPawns[0..7]. Pawns are compared by
   * reference in the source, so identity is the id.
   */
  type PawnId = i: int | 0 <= i < 16

  /** A board cell: the empty-square sentinel `Pawn(Color.NULL)`, or a pawn. */
  datatype Cell = Empty | Occupied(id: PawnId)

  type Grid = seq<seq<Cell>>

  /**
   * The whole mutable state of the engine: `board`, each pawn's `x`, `y` and
   * `startPosition`, the rosters `whitePawns` and `blackPawns`, `enPassantPawn`
   * and `win`.
   */
  datatype Pos = Pos(
    board: Grid,
    x: seq<int>,
    y: seq<int>,
    start: seq<bool>,
    white: seq<PawnId>,
    black: seq<PawnId>,
    ep: Option<PawnId>,
    win: bool)

  predicate OnBoard(r: int, c: int)
  {
    0 <= r < 8 && 0 <= c < 8
  }

  /** `Pawn.color`, fixed at creation (Main.kt:7-8). */
  function ColorOf(id: PawnId): Color
  {
    if id < 8 then White else Black
  }

  /** `board[r][c].color`: the sentinel has colour NULL. */
  function CellColor(cell: Cell): Color
  {
    match cell
    case Empty => Null
    case Occupied(id) => ColorOf(id)
  }

  /** `getDirection` (Main.kt:192-198): White moves to lower rows, Black to higher. */
  function Dir(c: Color): int
  {
    match c
    case White => -1
    case Black => 1
    case Null => 0
  }

  /** The enemy colour as Main.kt:97 and Main.kt:183 compute it. */
  function Enemy(c: Color): Color
  {
    if c == White then Black else White
  }

  /** The row every pawn of colour c starts on (Main.kt:7-8). */
  function StartRow(c: Color): int
    requires c != Null
  {
    if c == White then 6 else 1
  }

  /** The row whose arrival wins the game for colour c (Main.kt:150). */
  function GoalRow(c: Color): int
    requires c != Null
  {
    if c == White then 0 else 7
  }

  /** The roster of a colour, chosen as Main.kt:96 chooses it. */
  function Roster(p: Pos, c: Color): seq<PawnId>
  {
    if c == White then p.white else p.black
  }

  ghost predicate IsGrid(b: Grid)
  {
    |b| == 8 && forall r :: 0 <= r < 8 ==> |b[r]| == 8
  }

  ghost predicate Shaped(p: Pos)
  {
    IsGrid(p.board) && |p.x| == 16 && |p.y| == 16 && |p.start| == 16
  }

  /** `board[r][c] = v`. */
  function Set(b: Grid, r: int, c: int, v: Cell): (b': Grid)
    requires IsGrid(b) && OnBoard(r, c)
    ensures IsGrid(b')
    ensures forall i, j :: OnBoard(i, j) ==> b'[i][j] == if i == r && j == c then v else b[i][j]
  {
    b[r := b[r][c := v]]
  }

  /** Two grids with the same cells are the same grid. */
  lemma GridExt(b1: Grid, b2: Grid)
    requires IsGrid(b1) && IsGrid(b2)
    requires forall r, c :: OnBoard(r, c) ==> b1[r][c] == b2[r][c]
    ensures b1 == b2
  {
    forall r | 0 <= r < 8 ensures b1[r] == b2[r] {
      assert forall c :: 0 <= c < 8 ==> b1[r][c] == b2[r][c];
    }
  }

  ghost predicate Distinct(s: seq<PawnId>)
  {
    forall i, j :: 0 <= i < j < |s| ==> s[i] != s[j]
  }

  /**
   * `MutableList.remove(element)`: drops the first element equal to `id`
   * (Pawn has no `equals`, so equality is identity) and leaves the list alone
   * when `id` is absent.
   */
  function Remove(s: seq<PawnId>, id: PawnId): seq<PawnId>
  {
    if s == [] then []
    else if s[0] == id then s[1..] else [s[0]] + Remove(s[1..], id)
  }

  /** `remove` takes away one occurrence of the element when there is one, and nothing else. */
  lemma {:induction false} RemoveSpec(s: seq<PawnId>, id: PawnId)
    ensures multiset(Remove(s, id)) == multiset(s) - multiset{id}
    ensures id in s ==> |Remove(s, id)| == |s| - 1
    ensures id !in s ==> Remove(s, id) == s
  {
    if s != [] {
      assert s == [s[0]] + s[1..];
      RemoveSpec(s[1..], id);
    }
  }

  /** `remove` adds nothing: whatever is in the result was in the list. */
  lemma {:induction false} RemoveWithin(s: seq<PawnId>, id: PawnId, k: PawnId)
    requires k in Remove(s, id)
    ensures k in s
  {
    if s != [] && s[0] != id && k != s[0] {
      assert k in Remove(s[1..], id);
      RemoveWithin(s[1..], id, k);
    }
  }

  /** Removing from a list without repetitions leaves none, and the removed pawn is gone. */
  lemma {:induction false} RemoveDistinct(s: seq<PawnId>, id: PawnId)
    requires Distinct(s)
    ensures Distinct(Remove(s, id)) && id !in Remove(s, id)
  {
    if s != [] {
      var tail := s[1..];
      assert Distinct(tail);
      RemoveDistinct(tail, id);
      if s[0] == id {
        assert s[0] !in tail;
      } else {
        var t := Remove(tail, id);
        if s[0] in t {
          RemoveWithin(tail, id, s[0]);
          assert false;
        }
        var r := [s[0]] + t;
        assert Remove(s, id) == r;
        forall i, j | 0 <= i < j < |r| ensures r[i] != r[j] {
          if i > 0 { assert r[i] == t[i - 1] && r[j] == t[j - 1]; } else { assert r[j] in t; }
        }
      }
    }
  }

  /**
   * `remove(board[r][c])`: removing the object found in a cell; a fresh
   * empty-square sentinel is in no roster, so removing it changes nothing.
   */
  function RemoveCell(s: seq<PawnId>, cell: Cell): seq<PawnId>
  {
    match cell
    case Empty => s
    case Occupied(id) => Remove(s, id)
  }

  /** Every roster holds pawns of its own colour, each once. */
  ghost predicate RostersOk(p: Pos)
  {
    (forall id :: id in p.white ==> ColorOf(id) == White) &&
    (forall id :: id in p.black ==> ColorOf(id) == Black) &&
    Distinct(p.white) && Distinct(p.black)
  }

  /** A pawn is on the board exactly while it is in its colour's roster. */
  ghost predicate Live(p: Pos, id: PawnId)
  {
    id in Roster(p, ColorOf(id))
  }

  /** Rows a pawn of colour c can ever stand on: its start row or ahead of it. */
  ghost predicate NotBehindStart(c: Color, r: int)
    requires c != Null
  {
    if c == White then r <= StartRow(c) else r >= StartRow(c)
  }

  /**
   * A live pawn sits on the board at its own coordinates, has never moved
   * backwards, and still stands on its start row while `startPosition` is set.
   */
  ghost predicate Placed(p: Pos, id: PawnId)
    requires Shaped(p)
  {
    OnBoard(p.x[id], p.y[id]) &&
    p.board[p.x[id]][p.y[id]] == Occupied(id) &&
    NotBehindStart(ColorOf(id), p.x[id]) &&
    (p.start[id] ==> p.x[id] == StartRow(ColorOf(id)))
  }

  ghost predicate PawnsPlaced(p: Pos)
    requires Shaped(p)
  {
    forall id: PawnId :: Live(p, id) ==> Placed(p, id)
  }

  /** Every non-empty cell holds a live pawn whose coordinates are that cell. */
  ghost predicate CellsOwned(p: Pos)
    requires Shaped(p)
  {
    forall r, c :: OnBoard(r, c) && p.board[r][c].Occupied? ==>
      Live(p, p.board[r][c].id) && p.x[p.board[r][c].id] == r && p.y[p.board[r][c].id] == c
  }

  /**
   * The en-passant marker, when set, names a live pawn that has just made its
   * double step: it stands two rows ahead of its start row and the square it
   * passed over is empty.
   */
  ghost predicate EpOk(p: Pos)
    requires Shaped(p)
  {
    p.ep.Some? ==>
      var e := p.ep.value;
      var c := ColorOf(e);
      Live(p, e) &&
      p.x[e] == StartRow(c) + 2 * Dir(c) &&
      OnBoard(p.x[e] - Dir(c), p.y[e]) &&
      p.board[p.x[e] - Dir(c)][p.y[e]] == Empty
  }

  /** The board/roster consistency invariant every operation preserves. */
  ghost predicate Valid(p: Pos)
  {
    Shaped(p) && RostersOk(p) && PawnsPlaced(p) && CellsOwned(p) && EpOk(p)
  }

  /** A roster member has its roster's colour and is placed on the board. */
  lemma RosterPawnPlaced(p: Pos, c: Color, id: PawnId)
    requires Valid(p) && c != Null && id in Roster(p, c)
    ensures ColorOf(id) == c && Live(p, id) && Placed(p, id)
  {
  }

  /** No live pawn of colour c stands on c's goal row. */
  ghost predicate NoneOnGoal(p: Pos, c: Color)
    requires Shaped(p) && c != Null
  {
    forall id :: id in Roster(p, c) ==> p.x[id] != GoalRow(c)
  }

  /** The state of a game still being played: nobody has won yet. */
  ghost predicate InProgress(p: Pos)
    requires Shaped(p)
  {
    !p.win && NoneOnGoal(p, White) && NoneOnGoal(p, Black) && |p.white| > 0 && |p.black| > 0
  }

  /** What colour c has achieved when `win` is set after its move. */
  ghost predicate WinReached(p: Pos, c: Color)
    requires Shaped(p) && c != Null
  {
    !NoneOnGoal(p, c) || |Roster(p, Enemy(c))| == 0
  }

  /** The initial value of every pawn's `x` (Main.kt:7-8). */
  function StartX(i: int): int
  {
    if i < 8 then 6 else 1
  }

  /** The initial value of every pawn's `y` (Main.kt:7-8). */
  function StartY(i: int): int
  {
    if i < 8 then i else i - 8
  }

  /** The state after the global initialisers of Main.kt:6-12: pawns exist, the board is all sentinels. */
  function Created(): Pos
  {
    Pos(seq(8, r => seq(8, c => Empty)),
        seq(16, StartX), seq(16, StartY), seq(16, i => true),
        seq(8, (i: int) requires 0 <= i < 8 => i as PawnId),
        seq(8, (i: int) requires 0 <= i < 8 => (8 + i) as PawnId),
        None, false)
  }

  /** The cell `arrangeFigures` leaves at (r, c). */
  function InitialCell(r: int, c: int): Cell
    requires 0 <= c < 8
  {
    if r == 1 then Occupied(8 + c) else if r == 6 then Occupied(c) else Empty
  }

  /** `Created()` after `arrangeFigures` (Main.kt:35-40). */
  function Initial(): Pos
  {
    Created().(board := seq(8, r => seq(8, (c: int) requires 0 <= c < 8 => InitialCell(r, c))))
  }

  /**
   * The board `arrangeFigures` (Main.kt:35-40) leaves: row 1 holds
   * blackPawns[0..7] and row 6 whitePawns[0..7], every other cell is kept.
   */
  function Arranged(b: Grid, white: seq<PawnId>, black: seq<PawnId>): (b': Grid)
    requires IsGrid(b) && |white| >= 8 && |black| >= 8
    ensures IsGrid(b')
  {
    seq(8, (r: int) requires 0 <= r < 8 =>
      seq(8, (c: int) requires 0 <= c < 8 =>
        if r == 1 then Occupied(black[c]) else if r == 6 then Occupied(white[c]) else b[r][c]))
  }

  /** Arranging the freshly created pawns gives the initial board. */
  lemma ArrangedCreated()
    ensures Arranged(Created().board, Created().white, Created().black) == Initial().board
  {
    var a := Arranged(Created().board, Created().white, Created().black);
    forall r, c | OnBoard(r, c) ensures a[r][c] == Initial().board[r][c] {
      assert Initial().board[r][c] == InitialCell(r, c);
    }
    GridExt(a, Initial().board);
  }

  /** `arrangeFigures` establishes the consistency invariant; the game starts in progress. */
  lemma InitialValid()
    ensures Valid(Initial()) && InProgress(Initial())
    ensures Initial().ep == None && Initial().white == Created().white && Initial().black == Created().black
  {
    var p := Initial();
    assert Shaped(p);
    assert forall i :: 0 <= i < 8 ==> p.white[i] == i && p.black[i] == 8 + i;
    forall id: PawnId | Live(p, id) ensures Placed(p, id) {
      assert p.x[id] == StartX(id) && p.y[id] == StartY(id);
    }
    forall r, c | OnBoard(r, c) && p.board[r][c].Occupied?
      ensures Live(p, p.board[r][c].id) && p.x[p.board[r][c].id] == r && p.y[p.board[r][c].id] == c
    {
      var id := p.board[r][c].id;
      assert p.board[r][c] == InitialCell(r, c);
      if r == 1 {
        assert id == 8 + c && p.black[c] == id;
      } else {
        assert id == c && p.white[c] == id;
      }
    }
  }
}
