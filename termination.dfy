/**
 * The stalemate test `checkDraw` (Main.kt:95-114) and how it relates to the
 * requests the move rules accept.
 */
module Termination {
  import opened Prelude
  import opened Board
  import opened Notation
  import opened Moves
  import opened MoveLaws

  /**
   * What `checkDraw(c)` needs to read the board in range: every pawn of c
   * has a row ahead of it, and the en-passant pawn stands on the board.
   */
  ghost predicate CanLook(p: Pos, c: Color)
    requires c != Null
  {
    Shaped(p) &&
    (forall id :: id in Roster(p, c) ==> ColorOf(id) == c && OnBoard(p.x[id] + Dir(c), p.y[id])) &&
    (p.ep.Some? ==> OnBoard(p.x[p.ep.value], p.y[p.ep.value]))
  }

  /** With no pawn of c on c's goal row, every pawn of c has a row ahead of it. */
  lemma LookAround(p: Pos, c: Color)
    requires Valid(p) && c != Null && NoneOnGoal(p, c)
    ensures CanLook(p, c)
  {
    forall id | id in Roster(p, c) ensures ColorOf(id) == c && OnBoard(p.x[id] + Dir(c), p.y[id]) {
      RosterPawnPlaced(p, c, id);
    }
  }

  /**
   * Main.kt:99-101 for one pawn of colour c: the square ahead is empty, or a
   * forward diagonal holds an enemy.
   */
  predicate HasStepOrTarget(p: Pos, c: Color, id: PawnId)
    requires c != Null && CanLook(p, c) && id in Roster(p, c)
  {
    var r := p.x[id] + Dir(ColorOf(id));
    var col := p.y[id];
    CellColor(p.board[r][col]) == Null ||
    (0 <= col - 1 <= 7 && CellColor(p.board[r][col - 1]) == Enemy(c)) ||
    (0 <= col + 1 <= 7 && CellColor(p.board[r][col + 1]) == Enemy(c))
  }

  /** Main.kt:105-111: a pawn of colour c stands beside the en-passant pawn. */
  predicate EnPassantBeside(p: Pos, c: Color)
    requires c != Null && CanLook(p, c)
  {
    p.ep.Some? &&
    var e := p.ep.value;
    ((0 <= p.y[e] - 1 <= 7 && CellColor(p.board[p.x[e]][p.y[e] - 1]) == c) ||
     (0 <= p.y[e] + 1 <= 7 && CellColor(p.board[p.x[e]][p.y[e] + 1]) == c))
  }

  /** The value `checkDraw(c)` returns: no pawn of c passes either test. */
  predicate IsDraw(p: Pos, c: Color)
    requires c != Null && CanLook(p, c)
  {
    (forall i :: 0 <= i < |Roster(p, c)| ==> !HasStepOrTarget(p, c, Roster(p, c)[i])) &&
    !EnPassantBeside(p, c)
  }

  /** Some request of a player of colour c would be accepted by `makeMove`. */
  ghost predicate CanMove(p: Pos, c: Color)
    requires Valid(p) && c != Null
  {
    exists r: Req :: InRange(r) && Request(p, c, r).Accepted?
  }

  /**
   * The direct capture onto column col that Main.kt:188-189 refuses: the
   * target holds an enemy, but so does the square beside the mover in that
   * column, and that pawn is not the en-passant pawn.
   */
  ghost predicate BlockedCapture(p: Pos, c: Color, id: PawnId, col: int)
    requires Valid(p) && c != Null && CanLook(p, c) && id in Roster(p, c) && 0 <= col < 8
  {
    RosterPawnPlaced(p, c, id);
    var r := p.x[id] + Dir(c);
    CellColor(p.board[r][col]) == Enemy(c) &&
    CellColor(p.board[p.x[id]][col]) == Enemy(c) &&
    !IsMarked(p, p.board[p.x[id]][col])
  }

  ghost predicate NoBlockedCapture(p: Pos, c: Color)
    requires Valid(p) && c != Null && CanLook(p, c)
  {
    forall id: PawnId, col: int ::
      id in Roster(p, c) && 0 <= col < 8 && Abs(col - p.y[id]) == 1 ==> !BlockedCapture(p, c, id, col)
  }

  /** The en-passant pawn, when there is one, belongs to the opponent of c. */
  ghost predicate MarkerOfOpponent(p: Pos, c: Color)
  {
    p.ep.Some? ==> ColorOf(p.ep.value) != c
  }

  /** A pawn of colour c is a roster member with coordinates matching its cell. */
  lemma OwnPawnAt(p: Pos, c: Color, r: int, col: int)
    requires Valid(p) && c != Null && OnBoard(r, col) && CellColor(p.board[r][col]) == c
    ensures var id := p.board[r][col].id;
            id in Roster(p, c) && p.x[id] == r && p.y[id] == col
  {
  }

  /**
   * `checkDraw` never declares a draw while the player to move has a request
   * `makeMove` would accept.
   */
  lemma LegalMoveBlocksDraw(p: Pos, c: Color)
    requires Valid(p) && c != Null && CanLook(p, c)
    requires CanMove(p, c)
    ensures !IsDraw(p, c)
  {
    var r: Req :| InRange(r) && Request(p, c, r).Accepted?;
    LegalIff(p, c, r);
    LegalBlocksDraw(p, c, r);
  }

  /** The pawn making a Legal request passes one of `checkDraw`'s tests. */
  lemma LegalBlocksDraw(p: Pos, c: Color, r: Req)
    requires Valid(p) && c != Null && CanLook(p, c) && InRange(r)
    requires Legal(p, c, r)
    ensures !IsDraw(p, c)
  {
    var id := p.board[r.x1][r.y1].id;
    OwnPawnAt(p, c, r.x1, r.y1);
    if r.y1 == r.y2 || CellColor(p.board[r.x2][r.y2]) == Enemy(c) {
      PawnPassesStepTest(p, c, id, r);
      var i :| 0 <= i < |Roster(p, c)| && Roster(p, c)[i] == id;
    } else {
      LegalEnPassantBeside(p, c, r);
    }
  }

  /** A Legal straight move or direct capture: its pawn passes Main.kt:99-101. */
  lemma PawnPassesStepTest(p: Pos, c: Color, id: PawnId, r: Req)
    requires Valid(p) && c != Null && CanLook(p, c) && InRange(r)
    requires id in Roster(p, c) && p.x[id] == r.x1 && p.y[id] == r.y1
    requires Legal(p, c, r) && (r.y1 == r.y2 || CellColor(p.board[r.x2][r.y2]) == Enemy(c))
    ensures HasStepOrTarget(p, c, id)
  {
    RosterPawnPlaced(p, c, id);
  }

  /** A Legal en-passant capture: its pawn stands beside the marked pawn. */
  lemma LegalEnPassantBeside(p: Pos, c: Color, r: Req)
    requires Valid(p) && c != Null && CanLook(p, c) && InRange(r)
    requires Legal(p, c, r) && r.y1 != r.y2 && CellColor(p.board[r.x2][r.y2]) != Enemy(c)
    ensures EnPassantBeside(p, c)
  {
    var e := p.ep.value;
    assert p.board[r.x1][r.y2] == Occupied(e);
    assert p.x[e] == r.x1 && p.y[e] == r.y2;
  }

  /**
   * Conversely, when the test says "not a draw" a legal request exists,
   * provided the en-passant pawn is the opponent's (as it always is when
   * `play` asks) and no pawn of c faces the refused capture of Main.kt:188-189.
   * Together with LegalMoveBlocksDraw: under those conditions `checkDraw` is
   * true exactly when no request would be accepted.
   */
  lemma DrawExact(p: Pos, c: Color)
    requires Valid(p) && c != Null && CanLook(p, c)
    requires MarkerOfOpponent(p, c) && NoBlockedCapture(p, c)
    ensures IsDraw(p, c) <==> !CanMove(p, c)
  {
    if !IsDraw(p, c) {
      var r := NotDrawWitness(p, c);
      LegalIff(p, c, r);
    }
    if CanMove(p, c) {
      LegalMoveBlocksDraw(p, c);
    }
  }

  /** A request that the pawn passing `checkDraw`'s test could make. */
  lemma NotDrawWitness(p: Pos, c: Color) returns (r: Req)
    requires Valid(p) && c != Null && CanLook(p, c)
    requires MarkerOfOpponent(p, c) && NoBlockedCapture(p, c)
    requires !IsDraw(p, c)
    ensures InRange(r) && Legal(p, c, r)
  {
    if i :| 0 <= i < |Roster(p, c)| && HasStepOrTarget(p, c, Roster(p, c)[i]) {
      r := StepWitness(p, c, Roster(p, c)[i]);
    } else {
      r := EnPassantWitness(p, c);
    }
  }

  /** The move or capture of a pawn passing Main.kt:99-101. */
  lemma StepWitness(p: Pos, c: Color, id: PawnId) returns (r: Req)
    requires Valid(p) && c != Null && CanLook(p, c) && id in Roster(p, c)
    requires MarkerOfOpponent(p, c) && NoBlockedCapture(p, c)
    requires HasStepOrTarget(p, c, id)
    ensures InRange(r) && Legal(p, c, r)
  {
    RosterPawnPlaced(p, c, id);
    var d := Dir(c);
    var x0, y0 := p.x[id], p.y[id];
    if CellColor(p.board[x0 + d][y0]) == Null {
      r := Req(x0, y0, x0 + d, y0);
    } else {
      var col := if 0 <= y0 - 1 <= 7 && CellColor(p.board[x0 + d][y0 - 1]) == Enemy(c) then y0 - 1 else y0 + 1;
      r := Req(x0, y0, x0 + d, col);
      assert !BlockedCapture(p, c, id, col);
      if CellColor(p.board[x0][col]) == Enemy(c) {
        var e := p.ep.value;
        assert p.board[x0][col] == Occupied(e) && p.x[e] == x0 && p.y[e] == col;
        assert Dir(ColorOf(e)) == -d;
      }
    }
  }

  /** The en-passant capture of a pawn passing Main.kt:105-111. */
  lemma EnPassantWitness(p: Pos, c: Color) returns (r: Req)
    requires Valid(p) && c != Null && CanLook(p, c) && MarkerOfOpponent(p, c)
    requires EnPassantBeside(p, c)
    ensures InRange(r) && Legal(p, c, r)
  {
    var d := Dir(c);
    var e := p.ep.value;
    assert Live(p, e) && Placed(p, e);
    assert ColorOf(e) == Enemy(c) && Dir(ColorOf(e)) == -d;
    var col := if 0 <= p.y[e] - 1 <= 7 && CellColor(p.board[p.x[e]][p.y[e] - 1]) == c then p.y[e] - 1 else p.y[e] + 1;
    OwnPawnAt(p, c, p.x[e], col);
    r := Req(p.x[e], col, p.x[e] + d, p.y[e]);
  }

  /** White pawn e4 against Black pawns d5, e5 and d4; nothing has just double-stepped. */
  function BlockedCell(r: int, c: int): Cell
  {
    if r == 4 && c == 4 then Occupied(0)
    else if r == 3 && c == 3 then Occupied(8)
    else if r == 4 && c == 3 then Occupied(9)
    else if r == 3 && c == 4 then Occupied(10)
    else Empty
  }

  function BlockedX(i: int): int
  {
    if i == 0 || i == 9 then 4 else 3
  }

  function BlockedY(i: int): int
  {
    if i == 0 || i == 10 then 4 else 3
  }

  function BlockedPosition(): Pos
  {
    Pos(seq(8, r => seq(8, c => BlockedCell(r, c))),
        seq(16, BlockedX), seq(16, BlockedY), seq(16, i => false),
        [0], [8, 9, 10], None, false)
  }

  /** The position of BlockedCaptureIsNoDraw is consistent and in progress. */
  lemma BlockedPositionValid()
    ensures Valid(BlockedPosition()) && InProgress(BlockedPosition()) && CanLook(BlockedPosition(), White)
  {
    var p := BlockedPosition();
    assert Shaped(p);
    assert IsGrid(p.board);
    assert forall r, c :: OnBoard(r, c) ==> p.board[r][c] == BlockedCell(r, c);
    assert forall i :: 0 <= i < 16 ==> p.x[i] == BlockedX(i) && p.y[i] == BlockedY(i);
    assert RostersOk(p);
    forall id: PawnId | Live(p, id) ensures Placed(p, id) {
      assert id == 0 || id == 8 || id == 9 || id == 10;
    }
    assert CellsOwned(p);
    assert Roster(p, White) == [0];
  }

  /**
   * The kept quirk of Main.kt:100-101 against Main.kt:188-189: in this
   * consistent position `checkDraw(WHITE)` reports a move (the enemy on d5),
   * yet `makeMove` refuses every request of White, because the capture on d5
   * is refused for the Black pawn on d4 beside the mover. The game is neither
   * drawn nor able to continue.
   */
  lemma BlockedCaptureIsNoDraw()
    ensures Valid(BlockedPosition()) && InProgress(BlockedPosition()) && CanLook(BlockedPosition(), White)
    ensures !IsDraw(BlockedPosition(), White)
    ensures !CanMove(BlockedPosition(), White)
  {
    BlockedPositionValid();
    var p := BlockedPosition();
    assert HasStepOrTarget(p, White, Roster(p, White)[0]);
    forall r: Req | InRange(r) ensures !Request(p, White, r).Accepted? {
      LegalIff(p, White, r);
      BlockedNotLegal(r);
    }
  }

  /** No request of White is Legal in the position of BlockedCaptureIsNoDraw. */
  lemma BlockedNotLegal(r: Req)
    requires InRange(r) && Valid(BlockedPosition())
    ensures !Legal(BlockedPosition(), White, r)
  {
    var p := BlockedPosition();
    assert forall r, c :: OnBoard(r, c) ==> p.board[r][c] == BlockedCell(r, c);
  }
}
