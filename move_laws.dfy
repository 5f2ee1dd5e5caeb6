/**
 * What the move rules promise, stated over whole requests: which requests
 * are accepted, what an accepted one changes, and that an accepted move
 * settles the win flag exactly as the game's win condition says.
 */
module MoveLaws {
  import opened Prelude
  import opened Board
  import opened Notation
  import opened Moves

  /**
   * Gatekeeping of `makeMove` (Main.kt:59-75): an accepted input matches the
   * pattern, names a pawn of the player's colour as its source, and points
   * forwards for that colour.
   */
  lemma AcceptedRequestIsForward(p: Pos, c: Color, s: string)
    requires Valid(p) && c != Null
    requires Attempt(p, c, s).Accepted?
    ensures Matches(s)
    ensures var r := Parse(s).value;
            CellColor(p.board[r.x1][r.y1]) == c &&
            (if c == White then r.x2 < r.x1 else r.x2 > r.x1)
  {
    var r := Parse(s).value;
    ForwardStep(c, r.x1, r.x2);
  }

  /**
   * Straight-move legality (Main.kt:154-159): one empty square ahead, or, on
   * the pawn's first move, two squares ahead with both squares empty.
   */
  lemma StraightMoveRule(p: Pos, c: Color, r: Req)
    requires Valid(p) && c != Null && InRange(r) && r.y1 == r.y2
    requires CellColor(p.board[r.x1][r.y1]) == c
    ensures var id := p.board[r.x1][r.y1].id;
            var d := Dir(c);
            Request(p, c, r).Accepted? <==>
              (r.x2 == r.x1 + d && p.board[r.x2][r.y1] == Empty) ||
              (r.x2 == r.x1 + 2 * d && p.start[id] &&
               p.board[r.x1 + d][r.y1] == Empty && p.board[r.x2][r.y1] == Empty)
  {
    var id := p.board[r.x1][r.y1].id;
    assert p.x[id] == r.x1 && p.y[id] == r.y1;
    if (r.x2 - r.x1) * Dir(c) >= 1 {
      ForwardStep(c, r.x1, r.x2);
    } else if c == White {
      assert r.x2 >= r.x1;
    } else {
      assert r.x2 <= r.x1;
    }
  }

  /**
   * Effects of an accepted straight move (Main.kt:137-150): the pawn leaves
   * its cell for the destination, only its row changes, it loses its first-move
   * right, it becomes the en-passant pawn exactly when it made a double first
   * step, and `win` says whether it reached its goal row.
   */
  lemma StraightMoveEffects(p: Pos, c: Color, r: Req)
    requires Valid(p) && c != Null && InRange(r) && r.y1 == r.y2
    requires Request(p, c, r).Accepted?
    ensures var q := Request(p, c, r).next;
            var id := p.board[r.x1][r.y1].id;
            p.board[r.x1][r.y1].Occupied? && ColorOf(id) == c &&
            IsGrid(q.board) &&
            (forall i, j :: OnBoard(i, j) ==>
               q.board[i][j] == if i == r.x2 && j == r.y2 then Occupied(id)
                                else if i == r.x1 && j == r.y1 then Empty
                                else p.board[i][j]) &&
            q.x == p.x[id := r.x2] && q.y == p.y && q.start == p.start[id := false] &&
            q.white == p.white && q.black == p.black &&
            (q.ep == Some(id) <==> p.start[id] && Abs(r.x2 - r.x1) == 2) &&
            (q.ep.Some? ==> q.ep == Some(id)) &&
            (q.win <==> r.x2 == GoalRow(c))
  {
    var id := p.board[r.x1][r.y1].id;
    assert p.x[id] == r.x1 && p.y[id] == r.y1;
  }

  /**
   * Capture legality (Main.kt:182-190): one row forwards and one column
   * sideways, and either the target holds an enemy while the square beside
   * the mover in the target column does not, or the target is empty and that
   * side square holds the enemy en-passant pawn. A direct capture is refused
   * when the side square holds an enemy other than the en-passant pawn.
   */
  lemma CaptureRule(p: Pos, c: Color, r: Req)
    requires Valid(p) && c != Null && InRange(r) && r.y1 != r.y2
    requires CellColor(p.board[r.x1][r.y1]) == c
    ensures var target := p.board[r.x2][r.y2];
            var side := p.board[r.x1][r.y2];
            Request(p, c, r).Accepted? <==>
              r.x2 == r.x1 + Dir(c) && Abs(r.y2 - r.y1) == 1 &&
              ((CellColor(target) == Enemy(c) && CellColor(side) != Enemy(c)) ||
               (target == Empty && IsMarked(p, side) && CellColor(side) == Enemy(c)))
  {
    var id := p.board[r.x1][r.y1].id;
    assert p.x[id] == r.x1 && p.y[id] == r.y1;
    if (r.x2 - r.x1) * Dir(c) < 1 {
      if c == White { assert r.x2 >= r.x1; } else { assert r.x2 <= r.x1; }
    } else if !IsImpossibleCapture(p, id, r.x2, r.y2) {
      CaptureCases(p, id, r.x2, r.y2);
    }
  }

  /**
   * The rules of `makeMove` for a request on the board, written out without
   * the state update: the source holds a pawn of the player's colour and the
   * request is a legal straight move or a legal capture for it.
   */
  ghost predicate Legal(p: Pos, c: Color, r: Req)
    requires Valid(p) && c != Null && InRange(r)
  {
    var d := Dir(c);
    var target := p.board[r.x2][r.y2];
    var side := p.board[r.x1][r.y2];
    p.board[r.x1][r.y1].Occupied? && ColorOf(p.board[r.x1][r.y1].id) == c &&
    var id := p.board[r.x1][r.y1].id;
    if r.y1 == r.y2 then
      (r.x2 == r.x1 + d && p.board[r.x2][r.y1] == Empty) ||
      (r.x2 == r.x1 + 2 * d && p.start[id] &&
       p.board[r.x1 + d][r.y1] == Empty && p.board[r.x2][r.y1] == Empty)
    else
      r.x2 == r.x1 + d && Abs(r.y2 - r.y1) == 1 &&
      ((CellColor(target) == Enemy(c) && CellColor(side) != Enemy(c)) ||
       (target == Empty && IsMarked(p, side) && CellColor(side) == Enemy(c)))
  }

  /** `makeMove` accepts a request on the board exactly when it is Legal. */
  lemma LegalIff(p: Pos, c: Color, r: Req)
    requires Valid(p) && c != Null && InRange(r)
    ensures Request(p, c, r).Accepted? <==> Legal(p, c, r)
  {
    if CellColor(p.board[r.x1][r.y1]) == c {
      if r.y1 == r.y2 { StraightMoveRule(p, c, r); } else { CaptureRule(p, c, r); }
    }
  }

  /**
   * Effects of an accepted capture (Main.kt:166-178): exactly one enemy pawn
   * leaves the enemy roster and the board (the pawn beside the mover when the
   * target was empty, the target pawn otherwise), the mover's roster is
   * unchanged, the mover lands on the target, the en-passant marker is
   * cleared, and `win` says whether the enemy roster is now empty.
   */
  lemma CaptureRequestEffects(p: Pos, c: Color, r: Req)
    requires Valid(p) && c != Null && InRange(r) && r.y1 != r.y2
    requires Request(p, c, r).Accepted?
    ensures var q := Request(p, c, r).next;
            var id := p.board[r.x1][r.y1].id;
            var e := if p.board[r.x2][r.y2] == Empty then p.board[r.x1][r.y2] else p.board[r.x2][r.y2];
            p.board[r.x1][r.y1].Occupied? && ColorOf(id) == c &&
            e.Occupied? && Live(p, e.id) && ColorOf(e.id) == Enemy(c) &&
            multiset(Roster(q, Enemy(c))) == multiset(Roster(p, Enemy(c))) - multiset{e.id} &&
            |Roster(q, Enemy(c))| == |Roster(p, Enemy(c))| - 1 &&
            Roster(q, c) == Roster(p, c) &&
            IsGrid(q.board) &&
            (forall i, j :: OnBoard(i, j) ==>
               q.board[i][j] == if i == r.x2 && j == r.y2 then Occupied(id)
                                else if (i == r.x1 && j == r.y1) || (i == p.x[e.id] && j == p.y[e.id]) then Empty
                                else p.board[i][j]) &&
            q.x == p.x[id := r.x2] && q.y == p.y[id := r.y2] && q.start == p.start[id := false] &&
            q.ep == None &&
            (q.win <==> |Roster(q, Enemy(c))| == 0)
  {
    var id := p.board[r.x1][r.y1].id;
    assert p.x[id] == r.x1 && p.y[id] == r.y1;
    CaptureCases(p, id, r.x2, r.y2);
    CaptureEffects(p, id, r.x2, r.y2);
  }

  /**
   * A capture never lands on the capturer's goal row: no enemy pawn stands
   * there, and the en-passant pawn is never beside a pawn about to reach it.
   * This is why `capture` may set `win` from the roster size alone.
   */
  lemma CaptureNeverReachesGoal(p: Pos, c: Color, r: Req)
    requires Valid(p) && c != Null && InRange(r) && r.y1 != r.y2
    requires Request(p, c, r).Accepted?
    ensures r.x2 != GoalRow(c)
  {
    var id := p.board[r.x1][r.y1].id;
    assert p.x[id] == r.x1 && p.y[id] == r.y1;
    CaptureCases(p, id, r.x2, r.y2);
    var target := p.board[r.x2][r.y2];
    if target == Empty {
      var e := p.ep.value;
      assert p.board[r.x1][r.y2] == Occupied(e);
      assert p.x[e] == r.x1;
    } else {
      assert Placed(p, target.id);
    }
  }

  /**
   * After an accepted request from a game in progress, `win` is set exactly
   * when the mover reached its goal row or emptied the enemy roster; when it
   * is not set the game is still in progress; and a set en-passant marker
   * names a pawn of the mover.
   */
  lemma AcceptedOutcome(p: Pos, c: Color, r: Req)
    requires Valid(p) && InProgress(p) && c != Null && InRange(r)
    requires Request(p, c, r).Accepted?
    ensures var q := Request(p, c, r).next;
            (q.win <==> WinReached(q, c)) &&
            (!q.win ==> InProgress(q)) &&
            (q.ep.Some? ==> ColorOf(q.ep.value) == c)
  {
    if r.y1 == r.y2 {
      StraightOutcome(p, c, r);
    } else {
      CaptureOutcome(p, c, r);
    }
  }

  lemma StraightOutcome(p: Pos, c: Color, r: Req)
    requires Valid(p) && InProgress(p) && c != Null && InRange(r) && r.y1 == r.y2
    requires Request(p, c, r).Accepted?
    ensures var q := Request(p, c, r).next;
            (q.win <==> WinReached(q, c)) && (!q.win ==> InProgress(q)) &&
            (q.ep.Some? ==> ColorOf(q.ep.value) == c)
  {
    var q := Request(p, c, r).next;
    var id := p.board[r.x1][r.y1].id;
    StraightMoveEffects(p, c, r);
    assert Roster(q, c) == Roster(p, c) && Roster(q, Enemy(c)) == Roster(p, Enemy(c));
    assert forall k :: k in Roster(p, Enemy(c)) ==> k != id;
    assert NoneOnGoal(q, Enemy(c));
    assert Live(p, id);
    assert !NoneOnGoal(q, c) <==> r.x2 == GoalRow(c);
  }

  lemma CaptureOutcome(p: Pos, c: Color, r: Req)
    requires Valid(p) && InProgress(p) && c != Null && InRange(r) && r.y1 != r.y2
    requires Request(p, c, r).Accepted?
    ensures var q := Request(p, c, r).next;
            (q.win <==> WinReached(q, c)) && (!q.win ==> InProgress(q)) && q.ep == None
  {
    var q := Request(p, c, r).next;
    var id := p.board[r.x1][r.y1].id;
    var e := if p.board[r.x2][r.y2] == Empty then p.board[r.x1][r.y2] else p.board[r.x2][r.y2];
    CaptureRequestEffects(p, c, r);
    CaptureNeverReachesGoal(p, c, r);
    RostersAfterCapture(p, q, c, id, e.id, r.x2);
  }

  /** The roster facts behind CaptureOutcome, on the states alone. */
  lemma RostersAfterCapture(p: Pos, q: Pos, c: Color, id: PawnId, e: PawnId, tx: int)
    requires Valid(p) && InProgress(p) && c != Null && Shaped(q)
    requires Live(p, id) && ColorOf(id) == c && ColorOf(e) == Enemy(c) && tx != GoalRow(c)
    requires multiset(Roster(q, Enemy(c))) == multiset(Roster(p, Enemy(c))) - multiset{e}
    requires Roster(q, c) == Roster(p, c)
    requires q.x == p.x[id := tx] && (q.win <==> |Roster(q, Enemy(c))| == 0)
    ensures (q.win <==> WinReached(q, c)) && (!q.win ==> InProgress(q))
  {
    assert NoneOnGoal(q, c);
    forall k | k in Roster(q, Enemy(c)) ensures k in Roster(p, Enemy(c)) && k != id {
      assert k in multiset(Roster(q, Enemy(c)));
      assert k in multiset(Roster(p, Enemy(c)));
    }
    assert NoneOnGoal(q, Enemy(c));
    assert Roster(q, White) == q.white && Roster(q, Black) == q.black;
  }

  /** A pawn's first-move right is only ever lost, never regained. */
  lemma FirstMoveRightMonotone(p: Pos, c: Color, r: Req, i: PawnId)
    requires Valid(p) && c != Null && InRange(r)
    requires Request(p, c, r).Accepted?
    ensures Request(p, c, r).next.start[i] ==> p.start[i]
  {
    if r.y1 == r.y2 { StraightMoveEffects(p, c, r); } else { CaptureRequestEffects(p, c, r); }
  }

  /**
   * The en-passant marker lives for one ply: after any accepted request it is
   * cleared, unless that request was the double first step of the pawn it
   * now names; and with no marker an en-passant capture is refused.
   */
  lemma EnPassantLifetime(p: Pos, c: Color, r: Req)
    requires Valid(p) && c != Null && InRange(r)
    requires Request(p, c, r).Accepted?
    ensures var q := Request(p, c, r).next;
            q.ep.Some? ==>
              r.y1 == r.y2 && q.ep.value == p.board[r.x1][r.y1].id &&
              p.start[q.ep.value] && Abs(r.x2 - r.x1) == 2
  {
    if r.y1 == r.y2 { StraightMoveEffects(p, c, r); } else { CaptureRequestEffects(p, c, r); }
  }

  /** Without an en-passant marker a diagonal request onto an empty square is refused. */
  lemma NoMarkerNoEnPassant(p: Pos, c: Color, r: Req)
    requires Valid(p) && c != Null && InRange(r) && r.y1 != r.y2
    requires p.ep == None && p.board[r.x2][r.y2] == Empty
    ensures !Request(p, c, r).Accepted?
  {
    if CellColor(p.board[r.x1][r.y1]) == c {
      CaptureRule(p, c, r);
    }
  }
}
