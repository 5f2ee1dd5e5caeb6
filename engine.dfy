/**
 * The engine as the source runs it: the global `board` array, the pawns'
 * mutable fields, the rosters, `enPassantPawn`, `win`, `draw` and the turn
 * flag of class Game, updated in place. Every method is proved against the
 * pure rules through the snapshot `Position()`.
 */
module Engine {
  import opened Prelude
  import opened Board
  import opened Notation
  import opened Moves
  import opened Termination
  import opened Game

  class Chess {
    /** `board` (Main.kt:6): an 8x8 array of cells. */
    const board: array2<Cell>
    /** The fields `x`, `y` and `startPosition` of the sixteen pawns, by id. */
    var x: seq<int>
    var y: seq<int>
    var startPosition: seq<bool>
    /** `whitePawns` and `blackPawns` (Main.kt:7-8). */
    var whitePawns: seq<PawnId>
    var blackPawns: seq<PawnId>
    /** `enPassantPawn`, `win` and `draw` (Main.kt:10-12). */
    var enPassantPawn: Option<PawnId>
    var win: bool
    var draw: bool
    /** `turn1` of class Game (Main.kt:18). */
    var turn1: bool

    predicate Ready()
    {
      board.Length0 == 8 && board.Length1 == 8
    }

    /** The contents of the board array as a grid. */
    function Grid(): (g: Grid)
      requires Ready()
      reads board
      ensures IsGrid(g) && forall r, c :: OnBoard(r, c) ==> g[r][c] == board[r, c]
    {
      seq(8, (r: int) requires 0 <= r < 8 reads board =>
        seq(8, (c: int) requires 0 <= c < 8 reads board => board[r, c]))
    }

    /** The whole engine state as a value. */
    function Position(): Pos
      requires Ready()
      reads this, board
    {
      Pos(Grid(), x, y, startPosition, whitePawns, blackPawns, enPassantPawn, win)
    }

    /** The state `play` works on. */
    function GameState(): Game
      requires Ready()
      reads this, board
    {
      Game(Position(), turn1, draw)
    }

    /** The global initialisers of Main.kt:6-12 and `turn1 = true`. */
    constructor ()
      ensures fresh(board)
      ensures Ready() && Position() == Created() && turn1 && !draw
    {
      board := new Cell[8, 8]((r, c) => Empty);
      x := seq(16, StartX);
      y := seq(16, StartY);
      startPosition := seq(16, i => true);
      whitePawns := seq(8, (i: int) requires 0 <= i < 8 => i as PawnId);
      blackPawns := seq(8, (i: int) requires 0 <= i < 8 => (8 + i) as PawnId);
      enPassantPawn := None;
      win := false;
      draw := false;
      turn1 := true;
      new;
      GridExt(Grid(), Created().board);
    }

    /** `arrangeFigures` (Main.kt:35-40). */
    method ArrangeFigures()
      requires Ready() && |whitePawns| >= 8 && |blackPawns| >= 8
      modifies board
      ensures Grid() == Arranged(old(Grid()), whitePawns, blackPawns)
    {
      ghost var b := Grid();
      for i := 0 to 8
        invariant forall r, c :: OnBoard(r, c) ==>
          board[r, c] == if (r == 1 || r == 6) && c < i then Arranged(b, whitePawns, blackPawns)[r][c] else b[r][c]
      {
        board[1, i] := Occupied(blackPawns[i]);
        board[6, i] := Occupied(whitePawns[i]);
      }
      GridExt(Grid(), Arranged(b, whitePawns, blackPawns));
    }

    /** `board[r][c] = v`. */
    method SetCell(r: int, c: int, v: Cell)
      requires Ready() && OnBoard(r, c)
      modifies board
      ensures Grid() == Set(old(Grid()), r, c, v)
    {
      ghost var b := Grid();
      board[r, c] := v;
      GridExt(Grid(), Set(b, r, c, v));
    }

    /**
     * `Pawn.move(to)` (Main.kt:131-159) for pawn id, called as `makeMove`
     * calls it: with a destination row on the board and ahead of the pawn.
     */
    method Move(id: PawnId, to: int) returns (ok: bool)
      requires Ready() && Shaped(Position()) && OnBoard(x[id], y[id])
      requires 0 <= to < 8 && (to - x[id]) * Dir(ColorOf(id)) >= 1
      modifies this, board
      ensures ok == !IsImpossibleMove(old(Position()), id, Abs(old(x[id]) - to))
      ensures Position() == if ok then AfterMove(old(Position()), id, to) else old(Position())
      ensures turn1 == old(turn1) && draw == old(draw)
    {
      ForwardStep(ColorOf(id), x[id], to);
      var step := Abs(x[id] - to);
      if IsImpossibleMove(Position(), id, step) {
        return false;
      }
      MoveTo(id, to);
      ok := true;
    }

    /**
     * The mutations of `move(to)` (Main.kt:137-150); the first-move branch
     * of Main.kt:140-149 is written as one assignment to each field.
     */
    method MoveTo(id: PawnId, to: int)
      requires Ready() && Shaped(Position()) && OnBoard(x[id], y[id]) && 0 <= to < 8
      modifies this, board
      ensures Position() == AfterMove(old(Position()), id, to)
      ensures turn1 == old(turn1) && draw == old(draw)
    {
      var step := Abs(x[id] - to);
      SetCell(x[id], y[id], Empty);
      x := x[id := to];
      SetCell(x[id], y[id], Occupied(id));
      enPassantPawn := if startPosition[id] && step == 2 then Some(id) else None;
      startPosition := startPosition[id := false];
      win := if ColorOf(id) == White then to == 0 else to == 7;
    }

    /** `Pawn.capture(tx, ty)` (Main.kt:161-190) for pawn id. */
    method Capture(id: PawnId, tx: int, ty: int) returns (ok: bool)
      requires Ready() && Shaped(Position()) && OnBoard(x[id], y[id]) && OnBoard(tx, ty)
      modifies this, board
      ensures ok == !IsImpossibleCapture(old(Position()), id, tx, ty)
      ensures Position() == if ok then AfterCapture(old(Position()), id, tx, ty) else old(Position())
      ensures turn1 == old(turn1) && draw == old(draw)
    {
      if IsImpossibleCapture(Position(), id, tx, ty) {
        return false;
      }
      TakeBesideStep(id, tx, ty);
      LandStep(id, tx, ty);
      ok := true;
    }

    /** Main.kt:167-170: an en-passant capture first takes the pawn beside the mover. */
    method TakeBesideStep(id: PawnId, tx: int, ty: int)
      requires Ready() && Shaped(Position()) && OnBoard(tx, ty) && OnBoard(tx - Dir(ColorOf(id)), ty)
      modifies this, board
      ensures Position() == TakeBeside(old(Position()), id, tx, ty)
      ensures x == old(x) && y == old(y) && turn1 == old(turn1) && draw == old(draw)
    {
      var enemy := Enemy(ColorOf(id));
      var side := tx - Dir(ColorOf(id));
      if CellColor(board[tx, ty]) == Null {
        if enemy == White {
          whitePawns := RemoveCell(whitePawns, board[side, ty]);
        } else {
          blackPawns := RemoveCell(blackPawns, board[side, ty]);
        }
        SetCell(side, ty, Empty);
      }
    }

    /** Main.kt:171-178: the target is taken and the mover lands on it. */
    method LandStep(id: PawnId, tx: int, ty: int)
      requires Ready() && Shaped(Position()) && OnBoard(x[id], y[id]) && OnBoard(tx, ty)
      modifies this, board
      ensures Position() == Land(old(Position()), id, tx, ty)
      ensures turn1 == old(turn1) && draw == old(draw)
    {
      var enemy := Enemy(ColorOf(id));
      if enemy == White {
        whitePawns := RemoveCell(whitePawns, board[tx, ty]);
      } else {
        blackPawns := RemoveCell(blackPawns, board[tx, ty]);
      }
      JumpStep(id, tx, ty);
    }

    /** Main.kt:173-178: the mover leaves its square for the target; `win` when no enemy is left. */
    method JumpStep(id: PawnId, tx: int, ty: int)
      requires Ready() && Shaped(Position()) && OnBoard(x[id], y[id]) && OnBoard(tx, ty)
      modifies this, board
      ensures Grid() == Set(Set(old(Grid()), old(x[id]), old(y[id]), Empty), tx, ty, Occupied(id))
      ensures x == old(x[id := tx]) && y == old(y[id := ty])
      ensures startPosition == old(startPosition[id := false]) && enPassantPawn == None
      ensures win == (|Roster(old(Position()), Enemy(ColorOf(id)))| == 0)
      ensures whitePawns == old(whitePawns) && blackPawns == old(blackPawns)
      ensures turn1 == old(turn1) && draw == old(draw)
    {
      SetCell(x[id], y[id], Empty);
      x, y := x[id := tx], y[id := ty];
      SetCell(x[id], y[id], Occupied(id));
      enPassantPawn := None;
      startPosition := startPosition[id := false];
      win := |if ColorOf(id) == White then blackPawns else whitePawns| == 0;
    }

    /**
     * `makeMove(player, input)` (Main.kt:58-81) for a player of colour c:
     * the engine changes exactly as the accepted request says, and not at
     * all when the input is refused.
     */
    method MakeMove(c: Color, input: string) returns (ok: bool)
      requires Ready() && Valid(Position()) && c != Null
      modifies this, board
      ensures ok == Attempt(old(Position()), c, input).Accepted?
      ensures Position() == if ok then Attempt(old(Position()), c, input).next else old(Position())
      ensures turn1 == old(turn1) && draw == old(draw)
    {
      if !Matches(input) {
        return false;
      }
      var x1 := RowOf(input[1]);
      var y1 := ColumnOf(input[0]);
      var pawn := board[x1, y1];
      if CellColor(pawn) != c {
        return false;
      }
      var x2 := RowOf(input[3]);
      var y2 := ColumnOf(input[2]);
      assert Live(Position(), pawn.id) && x[pawn.id] == x1 && y[pawn.id] == y1;
      if (x2 - x1) * Dir(ColorOf(pawn.id)) < 1 {
        return false;
      }
      if y1 == y2 {
        ok := Move(pawn.id, x2);
      } else {
        ok := Capture(pawn.id, x2, y2);
      }
    }

    /** `checkDraw(color)` (Main.kt:95-114). */
    method CheckDraw(c: Color) returns (d: bool)
      requires Ready() && c != Null && CanLook(Position(), c)
      ensures d == IsDraw(Position(), c)
    {
      ghost var p := Position();
      var list := if c == White then whitePawns else blackPawns;
      var colorEnemy := if c == White then Black else White;
      for i := 0 to |list|
        invariant forall k :: 0 <= k < i ==> !HasStepOrTarget(p, c, list[k])
      {
        var id := list[i];
        var row := x[id] + Dir(ColorOf(id));
        var col := y[id];
        if CellColor(board[row, col]) == Null ||
           (0 <= col - 1 <= 7 && CellColor(board[row, col - 1]) == colorEnemy) ||
           (0 <= col + 1 <= 7 && CellColor(board[row, col + 1]) == colorEnemy) {
          assert HasStepOrTarget(p, c, list[i]);
          return false;
        }
      }
      if enPassantPawn.Some? {
        var e := enPassantPawn.value;
        if (0 <= y[e] - 1 <= 7 && CellColor(board[x[e], y[e] - 1]) == c) ||
           (0 <= y[e] + 1 <= 7 && CellColor(board[x[e], y[e] + 1]) == c) {
          return false;
        }
      }
      return true;
    }

    /**
     * `play` (Main.kt:42-56) reading its lines from inputs: the engine ends in
     * the state the turn loop over the value reaches.
     */
    method Play(inputs: seq<string>)
      requires Ready() && Playing(GameState())
      modifies this, board
      ensures GameState() == Run(old(GameState()), inputs)
    {
      ghost var final := Run(GameState(), inputs);
      var k := 0;
      while true
        invariant 0 <= k <= |inputs|
        invariant Playing(GameState())
        invariant Run(GameState(), inputs[k..]) == final
        decreases |inputs| - k
      {
        ghost var g := GameState();
        var c := TurnColor(turn1);
        draw := CheckDraw(c);
        if draw {
          RunDraw(g, inputs[k..]);
          assert GameState() == g.(draw := true);
          break;
        }
        if k == |inputs| || inputs[k] == "exit" {
          RunStop(g, inputs[k..]);
          assert GameState() == g.(draw := false);
          break;
        }
        var input := inputs[k];
        assert inputs[k..][1..] == inputs[k + 1..];
        k := k + 1;
        var ok := MakeMove(c, input);
        if ok {
          ghost var q := Attempt(g.pos, c, input).next;
          RunAccepted(g, inputs[k - 1..]);
          if win {
            assert GameState() == Game(q, g.turn1, false);
            break;
          }
          turn1 := !turn1;
          assert GameState() == Game(q, !g.turn1, false);
        } else {
          RunRejected(g, inputs[k - 1..]);
          assert GameState() == g.(draw := false);
        }
      }
    }

    /**
     * `start` (Main.kt:28-33) on a freshly created engine: arrange the pawns,
     * play, and report the verdict `gameOver` prints.
     */
    method Start(inputs: seq<string>) returns (v: Verdict)
      requires Ready() && Position() == Created() && turn1 && !draw
      modifies this, board
      ensures GameState() == Run(Opening(), inputs)
      ensures v == GameOver(Run(Opening(), inputs))
    {
      ArrangeFigures();
      ArrangedCreated();
      assert GameState() == Opening();
      Play(inputs);
      v := GameOver(GameState());
    }
  }

  /**
   * `main` (Main.kt:215-218): create a game and start it; the verdict is the
   * one the turn loop reaches from the opening on the given input lines.
   */
  method Launch(inputs: seq<string>) returns (v: Verdict)
    ensures v == GameOver(Run(Opening(), inputs))
  {
    var game := new Chess();
    v := game.Start(inputs);
  }
}
