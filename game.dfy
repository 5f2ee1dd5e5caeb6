/**
 * The turn loop `play` (Main.kt:42-56) and the verdict of `gameOver`
 * (Main.kt:116-124) over the state value, with the player inputs given as a
 * sequence of lines.
 */
module Game {
  import opened Prelude
  import opened Board
  import opened Notation
  import opened Moves
  import opened MoveLaws
  import opened Termination

  /** The state `play` works on: the position, whose turn it is, and the `draw` flag. */
  datatype Game = Game(pos: Pos, turn1: bool, draw: bool)

  /** player1 plays White, player2 Black (Main.kt:23-25, 44). */
  function TurnColor(turn1: bool): (c: Color)
    ensures c != Null
  {
    if turn1 then White else Black
  }

  /** Passing the turn hands it to the opponent. */
  lemma TurnsAlternate(turn1: bool)
    ensures TurnColor(!turn1) == Enemy(TurnColor(turn1))
  {
  }

  /** What holds at the top of every iteration of `play`. */
  ghost predicate Playing(g: Game)
  {
    Valid(g.pos) && InProgress(g.pos) && MarkerOfOpponent(g.pos, TurnColor(g.turn1)) &&
    CanLook(g.pos, TurnColor(g.turn1))
  }

  /** The game `start` hands to `play`: the arranged board, White to move. */
  function Opening(): (g: Game)
    ensures Playing(g)
  {
    InitialValid();
    LookAround(Initial(), White);
    Game(Initial(), true, false)
  }

  /** An accepted input from a game in progress settles `win` as the win condition says. */
  lemma AttemptOutcome(p: Pos, c: Color, s: string)
    requires Valid(p) && InProgress(p) && c != Null
    requires Attempt(p, c, s).Accepted?
    ensures var q := Attempt(p, c, s).next;
            (q.win <==> WinReached(q, c)) &&
            (!q.win ==> InProgress(q)) &&
            (q.ep.Some? ==> ColorOf(q.ep.value) == c)
  {
    AcceptedOutcome(p, c, Parse(s).value);
  }

  /**
   * `play`: ask `checkDraw` for the player to move and stop on a draw; stop
   * on "exit" or when no input is left; otherwise try the input, and after an
   * accepted one stop on a win or pass the turn. The game it stops in is
   * consistent: a win was reached by the player whose turn it still is, and a
   * draw was declared by `checkDraw` for the player to move.
   */
  function Run(g: Game, inputs: seq<string>): (r: Game)
    requires Playing(g)
    ensures Valid(r.pos)
    ensures !r.pos.win ==> Playing(r)
    ensures r.pos.win ==> WinReached(r.pos, TurnColor(r.turn1)) && !r.draw
    ensures r.draw ==> !r.pos.win && IsDraw(r.pos, TurnColor(r.turn1))
    decreases |inputs|
  {
    var c := TurnColor(g.turn1);
    if IsDraw(g.pos, c) then g.(draw := true)
    else if |inputs| == 0 || inputs[0] == "exit" then g.(draw := false)
    else
      match Attempt(g.pos, c, inputs[0])
      case Rejected(_) => Run(g.(draw := false), inputs[1..])
      case Accepted(q) =>
        AttemptOutcome(g.pos, c, inputs[0]);
        TurnsAlternate(g.turn1);
        if q.win then Game(q, g.turn1, false)
        else
          LookAround(q, Enemy(c));
          Run(Game(q, !g.turn1, false), inputs[1..])
  }

  /** `checkDraw` reports a draw: the loop stops with `draw` set. */
  lemma RunDraw(g: Game, inputs: seq<string>)
    requires Playing(g) && IsDraw(g.pos, TurnColor(g.turn1))
    ensures Run(g, inputs) == g.(draw := true)
  {
  }

  /** No draw and no input left, or "exit": the loop stops with `draw` cleared. */
  lemma RunStop(g: Game, inputs: seq<string>)
    requires Playing(g) && !IsDraw(g.pos, TurnColor(g.turn1))
    requires |inputs| == 0 || inputs[0] == "exit"
    ensures Run(g, inputs) == g.(draw := false)
  {
  }

  /** A refused input: the same player is asked again with the next line. */
  lemma RunRejected(g: Game, inputs: seq<string>)
    requires Playing(g) && !IsDraw(g.pos, TurnColor(g.turn1))
    requires |inputs| > 0 && inputs[0] != "exit"
    requires Attempt(g.pos, TurnColor(g.turn1), inputs[0]).Rejected?
    ensures Playing(g.(draw := false))
    ensures Run(g, inputs) == Run(g.(draw := false), inputs[1..])
  {
  }

  /** An accepted input: the game stops on a win, and otherwise the turn passes. */
  lemma RunAccepted(g: Game, inputs: seq<string>)
    requires Playing(g) && !IsDraw(g.pos, TurnColor(g.turn1))
    requires |inputs| > 0 && inputs[0] != "exit"
    requires Attempt(g.pos, TurnColor(g.turn1), inputs[0]).Accepted?
    ensures var q := Attempt(g.pos, TurnColor(g.turn1), inputs[0]).next;
            (q.win ==> Run(g, inputs) == Game(q, g.turn1, false)) &&
            (!q.win ==> Playing(Game(q, !g.turn1, false)) &&
                        Run(g, inputs) == Run(Game(q, !g.turn1, false), inputs[1..]))
  {
    var c := TurnColor(g.turn1);
    var q := Attempt(g.pos, c, inputs[0]).next;
    AttemptOutcome(g.pos, c, inputs[0]);
    TurnsAlternate(g.turn1);
    if !q.win {
      LookAround(q, Enemy(c));
    }
  }

  /** The message `gameOver` prints before "Bye!". */
  datatype Verdict = Wins(winner: Color) | Stalemate | NoVerdict

  /** `gameOver` (Main.kt:116-124): the winner is the player whose turn it was. */
  function GameOver(g: Game): Verdict
  {
    if g.pos.win then Wins(TurnColor(g.turn1))
    else if g.draw then Stalemate
    else NoVerdict
  }

  /**
   * A game ends in "Stalemate!" only when the player to move has no request
   * `makeMove` would accept, and in "... Wins!" only when that player has a
   * pawn on its goal row or the opponent has no pawns left.
   */
  lemma VerdictSound(g: Game, inputs: seq<string>)
    requires Playing(g)
    ensures var r := Run(g, inputs);
            (GameOver(r) == Stalemate ==> !CanMove(r.pos, TurnColor(r.turn1))) &&
            (GameOver(r).Wins? ==> GameOver(r).winner == TurnColor(r.turn1) &&
                                   WinReached(r.pos, GameOver(r).winner))
  {
    var r := Run(g, inputs);
    if r.draw && !r.pos.win {
      var c := TurnColor(r.turn1);
      if CanMove(r.pos, c) {
        LegalMoveBlocksDraw(r.pos, c);
      }
    }
  }

  /** An input that does not match the pattern is ignored: the same player is asked again. */
  lemma InvalidInputIgnored(g: Game, s: string, rest: seq<string>)
    requires Playing(g) && !Matches(s) && s != "exit"
    requires !IsDraw(g.pos, TurnColor(g.turn1))
    ensures Run(g, [s] + rest) == Run(g.(draw := false), rest)
  {
    assert ([s] + rest)[1..] == rest;
  }

  /** "exit" ends the game with no verdict unless the player to move is stalemated. */
  lemma ExitEndsGame(g: Game, rest: seq<string>)
    requires Playing(g)
    ensures var r := Run(g, ["exit"] + rest);
            r.pos == g.pos && r.turn1 == g.turn1 &&
            (GameOver(r) == NoVerdict <==> !IsDraw(g.pos, TurnColor(g.turn1)))
  {
  }
}
