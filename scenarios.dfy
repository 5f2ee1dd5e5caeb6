/**
 * Concrete openings from the arranged board, as a player would type them.
 */
module Scenarios {
  import opened Prelude
  import opened Board
  import opened Notation
  import opened Moves
  import opened MoveLaws

  /** "e2e4": the white e-pawn (id 4) advances two rows and becomes the en-passant pawn. */
  lemma DoubleStepOpening()
    ensures Valid(Initial()) && Attempt(Initial(), White, "e2e4").Accepted? &&
            var q := Attempt(Initial(), White, "e2e4").next;
            q.board[4][4] == Occupied(4) && q.board[6][4] == Empty &&
            q.x[4] == 4 && q.ep == Some(4) && !q.start[4] && !q.win
  {
    InitialValid();
    var r := Parse("e2e4").value;
    assert r == Req(6, 4, 4, 4);
    StraightMoveRule(Initial(), White, r);
    StraightMoveEffects(Initial(), White, r);
  }

  /** "e7e5" names a black pawn, so White is told there is no white pawn there. */
  lemma WrongColourRefused()
    ensures Valid(Initial()) && Attempt(Initial(), White, "e7e5") == Rejected(NoPawnOfColor)
  {
    InitialValid();
    assert Parse("e7e5").value == Req(1, 4, 3, 4);
  }

  /** "e2e5": three rows is more than a first move allows. */
  lemma TripleStepRefused()
    ensures Valid(Initial()) && Attempt(Initial(), White, "e2e5") == Rejected(InvalidInput)
  {
    InitialValid();
    var r := Parse("e2e5").value;
    assert r == Req(6, 4, 3, 4);
    StraightMoveRule(Initial(), White, r);
  }

  /** "e2d3": a diagonal step onto an empty square with no en-passant pawn is refused. */
  lemma EmptyDiagonalRefused()
    ensures Valid(Initial()) && Attempt(Initial(), White, "e2d3") == Rejected(InvalidInput)
  {
    InitialValid();
    var r := Parse("e2d3").value;
    assert r == Req(6, 4, 5, 3);
    NoMarkerNoEnPassant(Initial(), White, r);
  }

  /**
   * White pawn e5 (id 4) beside Black pawn f5 (id 13), which has just made
   * its double step and is marked for en passant; when withA7 holds, Black
   * also keeps its pawn a7 (id 8) on its start square.
   */
  function EnPassantCell(withA7: bool, r: int, c: int): Cell
  {
    if r == 3 && c == 4 then Occupied(4)
    else if r == 3 && c == 5 then Occupied(13)
    else if withA7 && r == 1 && c == 0 then Occupied(8)
    else Empty
  }

  function EnPassantPosition(withA7: bool): Pos
  {
    Pos(seq(8, r => seq(8, c => EnPassantCell(withA7, r, c))),
        seq(16, i => if i == 4 || i == 13 then 3 else StartX(i)),
        seq(16, i => if i == 4 then 4 else if i == 13 then 5 else StartY(i)),
        seq(16, i => i == 8),
        [4], if withA7 then [8, 13] else [13], Some(13), false)
  }

  /** The position of the en-passant scenarios is consistent and in progress. */
  lemma EnPassantPositionValid(withA7: bool)
    ensures Valid(EnPassantPosition(withA7)) && InProgress(EnPassantPosition(withA7))
  {
    var p := EnPassantPosition(withA7);
    assert forall r, c :: OnBoard(r, c) ==> p.board[r][c] == EnPassantCell(withA7, r, c);
    assert p.x[4] == 3 && p.y[4] == 4 && p.x[13] == 3 && p.y[13] == 5 && p.x[8] == 1 && p.y[8] == 0;
    assert RostersOk(p);
    forall id: PawnId | Live(p, id) ensures Placed(p, id) {
      assert id == 4 || id == 13 || (withA7 && id == 8);
    }
    assert CellsOwned(p);
  }

  /**
   * "e5f6" takes the f5 pawn en passant: the mover lands on the empty square
   * f6, f5 is emptied and pawn 13 leaves Black's roster; a7 is left, so the
   * game goes on.
   */
  lemma EnPassantAccepted()
    ensures Valid(EnPassantPosition(true)) && Attempt(EnPassantPosition(true), White, "e5f6").Accepted? &&
            var q := Attempt(EnPassantPosition(true), White, "e5f6").next;
            q.board[2][5] == Occupied(4) && q.board[3][5] == Empty && q.board[3][4] == Empty &&
            q.x[4] == 2 && q.y[4] == 5 && q.black == [8] && q.ep == None && !q.win
  {
    EnPassantPositionValid(true);
    var p := EnPassantPosition(true);
    var r := Parse("e5f6").value;
    assert r == Req(3, 4, 2, 5);
    assert forall i, j :: OnBoard(i, j) ==> p.board[i][j] == EnPassantCell(true, i, j);
    CaptureRule(p, White, r);
    CaptureRequestEffects(p, White, r);
  }

  /** Without a7, the en-passant capture takes Black's last pawn and White wins. */
  lemma EnPassantTakesLastPawn()
    ensures Valid(EnPassantPosition(false)) && Attempt(EnPassantPosition(false), White, "e5f6").Accepted? &&
            var q := Attempt(EnPassantPosition(false), White, "e5f6").next;
            q.board[2][5] == Occupied(4) && q.board[3][5] == Empty && q.black == [] && q.win
  {
    EnPassantPositionValid(false);
    var p := EnPassantPosition(false);
    var r := Parse("e5f6").value;
    assert r == Req(3, 4, 2, 5);
    assert forall i, j :: OnBoard(i, j) ==> p.board[i][j] == EnPassantCell(false, i, j);
    CaptureRule(p, White, r);
    CaptureRequestEffects(p, White, r);
  }
}
