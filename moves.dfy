/**
 * The move rules: `makeMove`'s gatekeeping (Main.kt:58-81), straight moves
 * (`Pawn.move`, `isImpossibleMove`, Main.kt:131-159) and captures including
 * en passant (`Pawn.capture`, `isImpossibleCapture`, Main.kt:161-190), as
 * functions from a state to the reply and the next state, with the lemmas
 * that they keep the consistency invariant and do what the rules promise.
 */
module Moves {
  import opened Prelude
  import opened Board
  import opened Notation

  /** The two messages a rejected request prints. */
  datatype Reason = InvalidInput | NoPawnOfColor

  /** What `makeMove` does with one request: rejects it, or moves to a new state. */
  datatype Reply = Rejected(reason: Reason) | Accepted(next: Pos)

  /** Main.kt:155: two squares on the first move, one afterwards. */
  function MaxStep(p: Pos, id: PawnId): int
    requires |p.start| == 16
  {
    if p.start[id] then 2 else 1
  }

  /**
   * `isImpossibleMove(step)` of Main.kt:154-159. The short-circuit `||` keeps
   * the board reads in range: they are made only for a step the pawn may take,
   * and the caller moves forwards inside the board.
   */
  function IsImpossibleMove(p: Pos, id: PawnId, step: int): bool
    requires Shaped(p) && OnBoard(p.x[id], p.y[id])
    requires 1 <= step <= MaxStep(p, id) ==> 0 <= p.x[id] + step * Dir(ColorOf(id)) < 8
  {
    var d := Dir(ColorOf(id));
    !(1 <= step <= MaxStep(p, id)) ||
    CellColor(p.board[p.x[id] + step * d][p.y[id]]) != Null ||
    (step == 2 && CellColor(p.board[p.x[id] + d][p.y[id]]) != Null)
  }

  /** The mutations of `move(to)` after its check (Main.kt:137-150). */
  function AfterMove(p: Pos, id: PawnId, to: int): Pos
    requires Shaped(p) && OnBoard(p.x[id], p.y[id]) && 0 <= to < 8
  {
    var step := Abs(p.x[id] - to);
    var b1 := Set(p.board, p.x[id], p.y[id], Empty);
    var b2 := Set(b1, to, p.y[id], Occupied(id));
    p.(board := b2,
       x := p.x[id := to],
       start := p.start[id := false],
       ep := if p.start[id] && step == 2 then Some(id) else None,
       win := if ColorOf(id) == White then to == 0 else to == 7)
  }

  /** `board[r][c] == enPassantPawn`, a comparison by reference. */
  predicate IsMarked(p: Pos, cell: Cell)
  {
    p.ep.Some? && cell == Occupied(p.ep.value)
  }

  /**
   * `isImpossibleCapture(tx, ty)` of Main.kt:182-190. The square beside the
   * mover in the target column is (tx - d, ty); it is read only once the
   * first test has established tx - d == x.
   */
  function IsImpossibleCapture(p: Pos, id: PawnId, tx: int, ty: int): bool
    requires Shaped(p) && OnBoard(p.x[id], p.y[id]) && OnBoard(tx, ty)
  {
    var d := Dir(ColorOf(id));
    var enemy := Enemy(ColorOf(id));
    tx - p.x[id] != d ||
    Abs(ty - p.y[id]) != 1 ||
    (CellColor(p.board[tx][ty]) != enemy && CellColor(p.board[tx - d][ty]) != enemy) ||
    (CellColor(p.board[tx - d][ty]) == enemy && !IsMarked(p, p.board[tx - d][ty]))
  }

  /** The state with the roster of colour c replaced by s. */
  function WithRoster(p: Pos, c: Color, s: seq<PawnId>): Pos
  {
    if c == White then p.(white := s) else p.(black := s)
  }

  /**
   * The first mutation of `capture(tx, ty)` (Main.kt:167-170): when the
   * target is empty, the pawn beside the mover in the target column leaves
   * the enemy roster and the board.
   */
  function TakeBeside(p: Pos, id: PawnId, tx: int, ty: int): Pos
    requires Shaped(p) && OnBoard(tx, ty) && OnBoard(tx - Dir(ColorOf(id)), ty)
  {
    var enemy := Enemy(ColorOf(id));
    var side := tx - Dir(ColorOf(id));
    if CellColor(p.board[tx][ty]) == Null then
      WithRoster(p, enemy, RemoveCell(Roster(p, enemy), p.board[side][ty])).(board := Set(p.board, side, ty, Empty))
    else p
  }

  /**
   * The remaining mutations of `capture(tx, ty)` (Main.kt:171-178): the pawn
   * on the target leaves the enemy roster, the mover moves onto the target,
   * the marker and the first-move right are cleared, and `win` says whether
   * the enemy roster is now empty.
   */
  function Land(p: Pos, id: PawnId, tx: int, ty: int): Pos
    requires Shaped(p) && OnBoard(p.x[id], p.y[id]) && OnBoard(tx, ty)
  {
    var enemy := Enemy(ColorOf(id));
    var enemies := RemoveCell(Roster(p, enemy), p.board[tx][ty]);
    var b := Set(Set(p.board, p.x[id], p.y[id], Empty), tx, ty, Occupied(id));
    WithRoster(p.(board := b, x := p.x[id := tx], y := p.y[id := ty], ep := None,
                  start := p.start[id := false], win := |enemies| == 0),
               enemy, enemies)
  }

  /** The mutations of `capture(tx, ty)` after its check (Main.kt:166-178). */
  function AfterCapture(p: Pos, id: PawnId, tx: int, ty: int): Pos
    requires Shaped(p) && OnBoard(p.x[id], p.y[id]) && OnBoard(tx, ty)
    requires !IsImpossibleCapture(p, id, tx, ty)
  {
    Land(TakeBeside(p, id, tx, ty), id, tx, ty)
  }

  /**
   * `makeMove` on a parsed request (Main.kt:65-80): the source cell must hold
   * a pawn of the player's colour, the destination must lie forwards, and the
   * request goes to `move` when the column stays and to `capture` otherwise.
   */
  function Request(p: Pos, c: Color, r: Req): (reply: Reply)
    requires Valid(p) && c != Null && InRange(r)
    ensures reply.Accepted? ==> Valid(reply.next)
  {
    var cell := p.board[r.x1][r.y1];
    if CellColor(cell) != c then Rejected(NoPawnOfColor)
    else
      var id := cell.id;
      if (r.x2 - r.x1) * Dir(c) < 1 then Rejected(InvalidInput)
      else if r.y1 == r.y2 then
        ForwardStep(c, p.x[id], r.x2);
        if IsImpossibleMove(p, id, Abs(p.x[id] - r.x2)) then Rejected(InvalidInput)
        else
          MoveKeepsValid(p, id, r.x2);
          Accepted(AfterMove(p, id, r.x2))
      else if IsImpossibleCapture(p, id, r.x2, r.y2) then Rejected(InvalidInput)
      else
        CaptureKeepsValid(p, id, r.x2, r.y2);
        Accepted(AfterCapture(p, id, r.x2, r.y2))
  }

  /** `makeMove(player, input)` (Main.kt:58-81) for a player of colour c. */
  function Attempt(p: Pos, c: Color, input: string): (reply: Reply)
    requires Valid(p) && c != Null
    ensures reply.Accepted? ==> Valid(reply.next)
    ensures !Matches(input) ==> reply == Rejected(InvalidInput)
  {
    match Parse(input)
    case None => Rejected(InvalidInput)
    case Some(r) => Request(p, c, r)
  }

  /** A forward request of colour c covers Abs(from - to) rows in direction Dir(c). */
  lemma ForwardStep(c: Color, from: int, to: int)
    requires c != Null && (to - from) * Dir(c) >= 1
    ensures Abs(from - to) >= 1 && from + Abs(from - to) * Dir(c) == to
  {
    if c == White {
      assert (to - from) * Dir(c) == from - to;
    } else {
      assert (to - from) * Dir(c) == to - from;
    }
  }

  /** A legal straight move keeps the consistency invariant (Main.kt:137-149). */
  lemma MoveKeepsValid(p: Pos, id: PawnId, to: int)
    requires Valid(p) && Live(p, id) && 0 <= to < 8
    requires (to - p.x[id]) * Dir(ColorOf(id)) >= 1
    requires !IsImpossibleMove(p, id, Abs(p.x[id] - to))
    ensures Valid(AfterMove(p, id, to))
  {
    var c := ColorOf(id);
    var d := Dir(c);
    var x0, y0 := p.x[id], p.y[id];
    var step := Abs(x0 - to);
    ForwardStep(c, x0, to);
    assert p.board[to][y0] == Empty;
    var q := AfterMove(p, id, to);
    MoveKeepsPlaced(p, id, to);
    MoveKeepsOwned(p, id, to);
    if q.ep.Some? {
      assert step == 2 && p.start[id] && x0 == StartRow(c);
      assert q.board[to - d][y0] == p.board[x0 + d][y0];
    }
  }

  /** After a straight move every live pawn still stands on its own square. */
  lemma MoveKeepsPlaced(p: Pos, id: PawnId, to: int)
    requires Valid(p) && Live(p, id) && 0 <= to < 8
    requires (to - p.x[id]) * Dir(ColorOf(id)) >= 1 && p.board[to][p.y[id]] == Empty
    ensures Shaped(AfterMove(p, id, to)) && PawnsPlaced(AfterMove(p, id, to))
  {
    var x0, y0 := p.x[id], p.y[id];
    ForwardStep(ColorOf(id), x0, to);
    var q := AfterMove(p, id, to);
    assert Placed(p, id);
    forall k: PawnId | Live(q, k) ensures Placed(q, k) {
      assert Live(p, k) && Placed(p, k);
      if k != id {
        assert !(p.x[k] == x0 && p.y[k] == y0);
        assert !(p.x[k] == to && p.y[k] == y0);
        assert q.board[q.x[k]][q.y[k]] == p.board[p.x[k]][p.y[k]];
      }
    }
  }

  /** After a straight move every occupied square is owned by the pawn standing there. */
  lemma MoveKeepsOwned(p: Pos, id: PawnId, to: int)
    requires Valid(p) && Live(p, id) && 0 <= to < 8
    ensures Shaped(AfterMove(p, id, to)) && CellsOwned(AfterMove(p, id, to))
  {
    var x0, y0 := p.x[id], p.y[id];
    var q := AfterMove(p, id, to);
    assert Placed(p, id);
    forall r, col | OnBoard(r, col) && q.board[r][col].Occupied?
      ensures Live(q, q.board[r][col].id) && q.x[q.board[r][col].id] == r && q.y[q.board[r][col].id] == col
    {
      if !(r == to && col == y0) {
        assert q.board[r][col] == p.board[r][col];
        assert p.board[r][col].id != id;
      }
    }
  }

  /**
   * In a legal capture the square beside the mover in the target column is
   * (x, ty); if it holds the marked pawn the target is the square that pawn
   * passed over, hence empty; otherwise the target holds an enemy.
   */
  lemma CaptureCases(p: Pos, id: PawnId, tx: int, ty: int)
    requires Valid(p) && Live(p, id) && OnBoard(tx, ty)
    requires !IsImpossibleCapture(p, id, tx, ty)
    ensures tx == p.x[id] + Dir(ColorOf(id)) && Abs(ty - p.y[id]) == 1
    ensures CellColor(p.board[tx][ty]) == Null ==>
              p.ep.Some? && p.board[p.x[id]][ty] == Occupied(p.ep.value) &&
              ColorOf(p.ep.value) == Enemy(ColorOf(id))
    ensures CellColor(p.board[tx][ty]) != Null ==>
              CellColor(p.board[tx][ty]) == Enemy(ColorOf(id)) && CellColor(p.board[p.x[id]][ty]) != Enemy(ColorOf(id))
  {
    var c := ColorOf(id);
    var d := Dir(c);
    var x0 := p.x[id];
    assert tx - x0 == d;
    var side := p.board[x0][ty];
    assert side == p.board[tx - d][ty];
    if CellColor(side) == Enemy(c) {
      assert IsMarked(p, side);
      var e := p.ep.value;
      assert side == Occupied(e);
      assert p.x[e] == x0 && p.y[e] == ty;
      assert ColorOf(e) == Enemy(c) && Dir(ColorOf(e)) == -d;
      assert p.board[p.x[e] - Dir(ColorOf(e))][p.y[e]] == Empty;
      assert p.board[tx][ty] == Empty;
    }
  }

  /** The pawn a legal capture takes: the target, or beside the mover when the target is empty. */
  function Captured(p: Pos, id: PawnId, tx: int, ty: int): (e: PawnId)
    requires Valid(p) && Live(p, id) && OnBoard(tx, ty)
    requires !IsImpossibleCapture(p, id, tx, ty)
    ensures Live(p, e) && ColorOf(e) == Enemy(ColorOf(id))
  {
    CaptureCases(p, id, tx, ty);
    var cell := if CellColor(p.board[tx][ty]) == Null then p.board[p.x[id]][ty] else p.board[tx][ty];
    cell.id
  }

  /**
   * A legal capture takes exactly one enemy pawn off the board and its roster,
   * leaves the mover's roster alone and moves the mover onto the target
   * (Main.kt:166-178).
   */
  lemma CaptureEffects(p: Pos, id: PawnId, tx: int, ty: int)
    requires Valid(p) && Live(p, id) && OnBoard(tx, ty)
    requires !IsImpossibleCapture(p, id, tx, ty)
    ensures var q := AfterCapture(p, id, tx, ty);
            var c := ColorOf(id);
            var e := Captured(p, id, tx, ty);
            Roster(q, c) == Roster(p, c) &&
            Roster(q, Enemy(c)) == Remove(Roster(p, Enemy(c)), e) &&
            multiset(Roster(q, Enemy(c))) == multiset(Roster(p, Enemy(c))) - multiset{e} &&
            |Roster(q, Enemy(c))| == |Roster(p, Enemy(c))| - 1 &&
            IsGrid(q.board) &&
            (forall r, col :: OnBoard(r, col) ==>
               q.board[r][col] == if r == tx && col == ty then Occupied(id)
                                  else if (r == p.x[e] && col == p.y[e]) || (r == p.x[id] && col == p.y[id]) then Empty
                                  else p.board[r][col]) &&
            q.x == p.x[id := tx] && q.y == p.y[id := ty] && q.start == p.start[id := false] &&
            q.ep == None &&
            (q.win <==> |Roster(q, Enemy(c))| == 0)
  {
    var c := ColorOf(id);
    var d := Dir(c);
    CaptureCases(p, id, tx, ty);
    var e := Captured(p, id, tx, ty);
    assert Placed(p, e) && Placed(p, id);
    var enemies := Roster(p, Enemy(c));
    RemoveSpec(enemies, e);
    if CellColor(p.board[tx][ty]) == Null {
      var b1 := Set(p.board, tx - d, ty, Empty);
      assert b1[tx][ty] == Empty;
      assert RemoveCell(RemoveCell(enemies, p.board[tx - d][ty]), b1[tx][ty]) == Remove(enemies, e);
    }
  }

  /** A legal capture keeps the consistency invariant. */
  lemma CaptureKeepsValid(p: Pos, id: PawnId, tx: int, ty: int)
    requires Valid(p) && Live(p, id) && OnBoard(tx, ty)
    requires !IsImpossibleCapture(p, id, tx, ty)
    ensures Valid(AfterCapture(p, id, tx, ty))
  {
    var c := ColorOf(id);
    CaptureCases(p, id, tx, ty);
    CaptureEffects(p, id, tx, ty);
    var e := Captured(p, id, tx, ty);
    assert Placed(p, id);
    CapturedStateValid(p, AfterCapture(p, id, tx, ty), id, e, tx, ty);
  }

  /** The consistency invariant after one pawn captured another, from the effects alone. */
  lemma CapturedStateValid(p: Pos, q: Pos, id: PawnId, e: PawnId, tx: int, ty: int)
    requires Valid(p) && Live(p, id) && Live(p, e) && ColorOf(e) == Enemy(ColorOf(id))
    requires OnBoard(tx, ty) && NotBehindStart(ColorOf(id), tx)
    requires p.board[tx][ty] == Empty || p.board[tx][ty] == Occupied(e)
    requires Roster(q, ColorOf(id)) == Roster(p, ColorOf(id))
    requires Roster(q, Enemy(ColorOf(id))) == Remove(Roster(p, Enemy(ColorOf(id))), e)
    requires IsGrid(q.board)
    requires forall r, col :: OnBoard(r, col) ==>
               q.board[r][col] == if r == tx && col == ty then Occupied(id)
                                  else if (r == p.x[e] && col == p.y[e]) || (r == p.x[id] && col == p.y[id]) then Empty
                                  else p.board[r][col]
    requires q.x == p.x[id := tx] && q.y == p.y[id := ty] && q.start == p.start[id := false] && q.ep == None
    ensures Valid(q)
  {
    CapturedRosters(p, q, id, e);
    assert Placed(p, e) && Placed(p, id);
    forall k: PawnId | Live(q, k) ensures Placed(q, k) {
      assert Placed(p, k);
      if k != id {
        assert !(p.x[k] == tx && p.y[k] == ty);
        assert !(p.x[k] == p.x[e] && p.y[k] == p.y[e]);
        assert !(p.x[k] == p.x[id] && p.y[k] == p.y[id]);
      }
    }
    forall r, col | OnBoard(r, col) && q.board[r][col].Occupied?
      ensures Live(q, q.board[r][col].id) && q.x[q.board[r][col].id] == r && q.y[q.board[r][col].id] == col
    {
      if !(r == tx && col == ty) {
        var k := p.board[r][col].id;
        assert q.board[r][col] == p.board[r][col];
        assert k != id && k != e;
      }
    }
  }

  /** Removing the captured pawn from its roster keeps the rosters well formed and makes exactly that pawn dead. */
  lemma CapturedRosters(p: Pos, q: Pos, id: PawnId, e: PawnId)
    requires RostersOk(p) && Live(p, id) && Live(p, e) && ColorOf(e) == Enemy(ColorOf(id))
    requires Roster(q, ColorOf(id)) == Roster(p, ColorOf(id))
    requires Roster(q, Enemy(ColorOf(id))) == Remove(Roster(p, Enemy(ColorOf(id))), e)
    ensures RostersOk(q)
    ensures forall k: PawnId :: Live(q, k) <==> Live(p, k) && k != e
  {
    var c := ColorOf(id);
    var enemies := Roster(p, Enemy(c));
    var rest := Remove(enemies, e);
    RemoveSpec(enemies, e);
    RemoveDistinct(enemies, e);
    assert forall k :: k in rest <==> k in multiset(rest);
    assert forall k :: k in enemies <==> k in multiset(enemies);
    if c == White {
      assert q.white == p.white && q.black == rest;
    } else {
      assert q.black == p.black && q.white == rest;
    }
  }
}
