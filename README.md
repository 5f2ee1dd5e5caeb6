# Pawns-only chess, modelled in Dafny

The program is a two-player console game of chess played with pawns only
(`Main.kt`). Sixteen pawns start on their home rows. Each turn the program
asks `checkDraw` whether the player to move is stalemated. If not, it reads
one line such as `e2e4` and `makeMove` checks it against the pawn rules:
- a straight move of one square, or two squares on the pawn's first move
  (`Pawn.move`);
- a diagonal capture, including en passant against the pawn that has just
  made a double step (`Pawn.capture`).

The game ends when one of these happens:
- a pawn reaches the far row;
- the opponent has no pawns left;
- `checkDraw` declares a stalemate;
- a player types `exit`.

`gameOver` then reports the result.

The model has three layers.

- **Rules over values** (`Board`, `Notation`, `Moves`, `MoveLaws`,
  `Termination`, `Game`):
  - The state is one value, `Board.Pos`. It holds the board, each pawn's
    `x`, `y` and `startPosition`, the two rosters `whitePawns` and
    `blackPawns`, `enPassantPawn` and `win`.
  - A pawn is an identity `PawnId` from 0 to 15, because the source compares
    pawns by reference. Ids 0-7 are `whitePawns[0..7]` and ids 8-15 are
    `blackPawns[0..7]`.
  - An empty square, `Pawn(Color.NULL)`, is `Cell.Empty`.
  - The move rules are functions: `Moves.Request`, `Moves.Attempt` and the
    test `Termination.IsDraw` that `checkDraw` computes.
  - A consistency invariant, `Board.Valid`, ties the board, the coordinates
    and the rosters together. Every accepted move is proved to keep it.
  - The lemmas state each rule as an if-and-only-if and the exact new state
    it produces.
  - Other lemmas state:
    - when `win` is set;
    - how long the en-passant marker lives;
    - that a first move's right is never regained;
    - how far `checkDraw` agrees with "no move would be accepted".
- **The turn loop** (`Game.Run`): `play` as a function over the list of
  input lines. It has the verdict of `gameOver` and lemmas for each way the
  loop can stop or continue.
- **The engine as the source runs it** (`Engine.Chess`):
  - A class holds the 8x8 `array2` board and the pawn and game fields, which
    its methods update in place.
  - `arrangeFigures`, `move`, `capture`, `makeMove`, `checkDraw`, `play` and
    `start` are methods with the source's loops and assignments.
  - Each method is proved to change the engine exactly as the corresponding
    pure function says. The link between the two is the snapshot function
    `Position()`.

Behaviour kept as written:
- **The side-square restriction of `isImpossibleCapture`** (Main.kt:188-189).
  A diagonal capture is refused when the square beside the mover in the
  target column holds an enemy pawn that is not the en-passant pawn. This
  holds even when the diagonal target is an enemy pawn.
- **`checkDraw` does not apply that restriction.** It can therefore answer
  "no draw" in a position where the player to move has no acceptable
  request.
  - `Termination.BlockedCaptureIsNoDraw` exhibits such a position. The game
    then keeps asking the same player until `exit` is typed or the input runs out (in the source, `readln` then throws).
  - On positions without such a blocked capture, `Termination.DrawExact`
    proves that `checkDraw` is exact.
- **`checkDraw` has no bounds check on the row ahead of a pawn**
  (Main.kt:99-101). The model requires what makes that index safe,
  `Termination.CanLook`: every pawn of the player to move has a row ahead of
  it. `Termination.LookAround` proves that this follows from the invariant
  while no pawn stands on its goal row, which holds whenever the loop calls
  `checkDraw`.

## Model

| member | source | states |
|---|---|---|
| Board.Set | Main.kt:137-139 | writing one cell of the board changes that cell only and keeps the board 8x8 |
| Board.RemoveSpec | Main.kt:168-171 | `MutableList.remove` takes away exactly one occurrence of the pawn when it is in the list (multiset minus one, length minus one) and leaves the list unchanged otherwise |
| Board.RemoveDistinct | Main.kt:168-171 | removing a pawn from a roster without repetitions leaves a roster without repetitions that no longer contains it |
| Board.RosterPawnPlaced | Main.kt:96-99 | under the invariant, every roster pawn has its roster's colour and stands on the board square its `x`, `y` name, so `checkDraw` may index by its coordinates |
| Board.ArrangedCreated | Main.kt:35-40 | the board `arrangeFigures` produces from the initial globals has black pawn i at row 1 column i, white pawn i at row 6 column i, and every other square empty |
| Board.InitialValid | Main.kt:6-40 | the arranged starting position satisfies the consistency invariant, no game is over, and nothing is marked for en passant |
| Notation.Parse | Main.kt:59-71 | an input is turned into a request exactly when it matches `[a-h][1-8][a-h][1-8]`, and then both squares are on the board |
| Notation.ParseFormat | Main.kt:63-71 | writing a request in algebraic notation and parsing it back gives the same request |
| Notation.FormatParse | Main.kt:17 | every input matching the pattern is the notation of the request parsed from it |
| Moves.Request | Main.kt:65-80 | an accepted request leads to a position that again satisfies the consistency invariant |
| Moves.Attempt | Main.kt:58-81 | `makeMove` refuses every input not matching the pattern with "Invalid Input", and every accepted input leads to a consistent position |
| Moves.ForwardStep | Main.kt:72 | a request that passes the direction test covers at least one row, in the mover's direction |
| Moves.MoveKeepsValid | Main.kt:131-152 | a straight move that `isImpossibleMove` allows keeps the consistency invariant |
| Moves.MoveKeepsPlaced | Main.kt:137-139 | after a straight move every live pawn stands on its own square and never behind its start row |
| Moves.MoveKeepsOwned | Main.kt:137-139 | after a straight move every occupied square belongs to the pawn whose coordinates name it |
| Moves.CaptureCases | Main.kt:182-190 | a capture that is not impossible goes one row forward and one column aside, and either takes an enemy on the target square with no unmarked enemy beside, or (target empty) takes the marked enemy pawn beside |
| Moves.Captured | Main.kt:166-171 | the pawn a legal capture removes is a live pawn of the enemy colour |
| Moves.CaptureEffects | Main.kt:161-180 | exact new state of a capture: the enemy roster loses exactly the captured pawn, the mover's roster is unchanged, and on the board the target holds the mover while the captured pawn's square and the mover's old square are empty. The mover's coordinates and `startPosition` are updated, the en-passant marker is cleared, and `win` is set exactly when no enemy is left |
| Moves.CaptureKeepsValid | Main.kt:161-180 | a capture that `isImpossibleCapture` allows keeps the consistency invariant |
| Moves.CapturedStateValid | Main.kt:167-177 | any position with the effects of a capture satisfies the consistency invariant |
| Moves.CapturedRosters | Main.kt:166-171 | after removing the captured pawn, the rosters keep their colours and have no repetitions, and the live pawns are the previous ones minus the captured pawn |
| MoveLaws.AcceptedRequestIsForward | Main.kt:58-75 | an accepted input matches the pattern, names a square holding a pawn of the player's colour, and points forward for that colour |
| MoveLaws.StraightMoveRule | Main.kt:154-159 | a straight request is accepted if and only if it advances one row onto an empty square, or two rows from the start position over an empty square onto an empty square |
| MoveLaws.StraightMoveEffects | Main.kt:137-150 | exact new state after a straight move: only the two squares change, `x` and `startPosition` of the mover change, rosters stay, the en-passant marker is the mover exactly after a first double step, and `win` is set exactly on the goal row |
| MoveLaws.CaptureRule | Main.kt:182-190 | a diagonal request is accepted if and only if it goes one row forward and one column aside and either its target is an enemy pawn with no enemy beside, or its target is empty and the square beside holds the enemy en-passant pawn |
| MoveLaws.LegalIff | Main.kt:131-190 | `makeMove` accepts a request if and only if the explicit pawn rule `Legal` holds |
| MoveLaws.CaptureRequestEffects | Main.kt:166-178 | an accepted capture removes one live enemy pawn from its roster and the board, moves the capturing pawn, clears the marker, and sets `win` exactly when the enemy roster is empty |
| MoveLaws.CaptureNeverReachesGoal | Main.kt:178 | a capture never lands on the mover's goal row, so after a capture `win` means only that no enemy pawn is left |
| MoveLaws.AcceptedOutcome | Main.kt:150-178 | from a game in progress, after an accepted request `win` holds if and only if the mover reached its goal row or took the last enemy pawn; otherwise the game is still in progress, and any marker names the mover's pawn |
| MoveLaws.StraightOutcome | Main.kt:150 | the same outcome for straight moves |
| MoveLaws.CaptureOutcome | Main.kt:176-178 | the same outcome for captures, which always clear the marker |
| MoveLaws.RostersAfterCapture | Main.kt:171-178 | a capture that removes one enemy and does not reach the goal row sets `win` exactly when the win condition holds |
| MoveLaws.FirstMoveRightMonotone | Main.kt:140-141 | `startPosition` is never set again once cleared: no accepted request turns it on |
| MoveLaws.EnPassantLifetime | Main.kt:142-148 | after an accepted request the marker is set only when the request was the mover's first move, a straight double step, and it then names the mover |
| MoveLaws.NoMarkerNoEnPassant | Main.kt:186-189 | with no en-passant pawn, a diagonal request onto an empty square is refused |
| Termination.LookAround | Main.kt:96-101 | while no pawn of the player to move is on its goal row, every such pawn has a row ahead on the board and the marked pawn is on the board, which is what `checkDraw` indexes |
| Termination.OwnPawnAt | Main.kt:65-66 | a square holding a pawn of colour c holds a roster member of c whose coordinates name that square |
| Termination.LegalMoveBlocksDraw | Main.kt:95-114 | if some request would be accepted, `checkDraw` does not report a draw |
| Termination.LegalBlocksDraw | Main.kt:98-111 | a request satisfying the pawn rule makes `checkDraw` find a pawn with a step or target, or a pawn beside the marker |
| Termination.PawnPassesStepTest | Main.kt:98-103 | the pawn of a legal straight move, or of a legal capture of an enemy, passes the per-pawn test of `checkDraw` |
| Termination.LegalEnPassantBeside | Main.kt:105-111 | a legal en-passant capture means a pawn of the player's colour stands beside the marker, so `checkDraw` sees it |
| Termination.DrawExact | Main.kt:95-114 | where no capture is blocked by the side-square restriction and any en-passant marker is the opponent's (as it always is when `play` asks), `checkDraw` reports a draw if and only if no request would be accepted |
| Termination.NotDrawWitness | Main.kt:95-114 | when `checkDraw` reports no draw and no capture is blocked, there is a request satisfying the pawn rule |
| Termination.StepWitness | Main.kt:98-103 | a pawn passing the per-pawn test of `checkDraw` has a legal step or capture, unless blocked |
| Termination.EnPassantWitness | Main.kt:105-111 | a pawn beside the enemy en-passant pawn has a legal en-passant capture |
| Termination.BlockedPositionValid | Main.kt:182-190 | the position white e4 against black d5, e5 and d4 is consistent, in progress, and safe for `checkDraw` |
| Termination.BlockedCaptureIsNoDraw | Main.kt:99-101 | in that position `checkDraw` reports no draw for White although no request of White is accepted |
| Termination.BlockedNotLegal | Main.kt:186-189 | in that position no request of White satisfies the pawn rule |
| Game.TurnColor | Main.kt:44 | the player to move always has a real colour |
| Game.TurnsAlternate | Main.kt:53 | flipping `turn1` hands the move to the opponent |
| Game.Opening | Main.kt:28-31 | the game `start` hands to `play` satisfies the loop's invariant: consistent, in progress, no marker of the player to move, and safe for `checkDraw` |
| Game.AttemptOutcome | Main.kt:50-52 | after an accepted input `win` holds exactly when the win condition is reached, and otherwise the game goes on |
| Game.Run | Main.kt:42-56 | the game `play` stops in is consistent. A win there was reached by the player whose turn it still is, and `draw` is set only when `checkDraw` reported a draw for the player to move. A game that stops without a win can be continued |
| Game.RunDraw | Main.kt:45-46 | when `checkDraw` reports a draw, `play` stops at once with `draw` set |
| Game.RunStop | Main.kt:48-49 | "exit", or the end of input, stops `play` with `draw` cleared |
| Game.RunRejected | Main.kt:50 | a refused input leaves the position and the turn unchanged, and the next line is read |
| Game.RunAccepted | Main.kt:50-54 | an accepted input stops `play` on a win and otherwise passes the turn to the opponent in a game still in progress |
| Game.VerdictSound | Main.kt:116-122 | "Stalemate!" is printed only when the player to move has no acceptable request; "... Wins!" names the player to move, who has reached the goal row or taken every enemy pawn |
| Game.InvalidInputIgnored | Main.kt:59-62 | an input not matching the pattern is ignored and the same player is asked again |
| Game.ExitEndsGame | Main.kt:49 | "exit" ends the game in the same position with the same player to move; the verdict is NoVerdict exactly when `checkDraw` reports no draw (when it reports a draw, "exit" is never read and the verdict is "Stalemate!") |
| Scenarios.DoubleStepOpening | Main.kt:140-146 | from the opening, "e2e4" is accepted, moves the e-pawn two rows and marks it for en passant |
| Scenarios.WrongColourRefused | Main.kt:66-69 | from the opening, White's "e7e5" is refused because no white pawn is on e7 |
| Scenarios.TripleStepRefused | Main.kt:155-156 | from the opening, "e2e5" is refused: three rows exceed a first move |
| Scenarios.EmptyDiagonalRefused | Main.kt:186-187 | from the opening, "e2d3" is refused: the diagonal target is empty and nothing can be taken en passant |
| Scenarios.EnPassantPositionValid | Main.kt:142-143 | the position white e5 beside black f5, which has just double-stepped and is the en-passant pawn, is consistent and in progress |
| Scenarios.EnPassantAccepted | Main.kt:167-178 | there "e5f6" is accepted: the mover lands on the empty f6, f5 is emptied, pawn f5 leaves Black's roster, the marker is cleared, and with a7 left the game goes on |
| Scenarios.EnPassantTakesLastPawn | Main.kt:178 | when f5 is Black's last pawn, the same en-passant capture empties Black's roster and sets `win` |
| Engine.Chess.constructor | Main.kt:6-12 | the global initialisers: a freshly allocated all-empty board, the sixteen pawns at their start coordinates with `startPosition` set, full rosters, no marker, no win, no draw, White to move |
| Engine.Chess.ArrangeFigures | Main.kt:35-40 | the loop puts black pawn i on row 1 and white pawn i on row 6 for every column i and leaves the rest of the board |
| Engine.Chess.SetCell | Main.kt:137-139 | one board write changes that cell of the array grid only |
| Engine.Chess.Move | Main.kt:131-159 | `move` reports success exactly when `isImpossibleMove` is false, then changes the engine as the straight-move rule says, and changes nothing on failure |
| Engine.Chess.MoveTo | Main.kt:137-151 | the assignments of `move` produce exactly the state of the straight-move rule |
| Engine.Chess.Capture | Main.kt:161-190 | `capture` reports success exactly when `isImpossibleCapture` is false, then changes the engine as the capture rule says, and changes nothing on failure |
| Engine.Chess.TakeBesideStep | Main.kt:167-170 | with an empty target, the pawn beside the mover is taken off its roster and its square emptied; otherwise nothing changes |
| Engine.Chess.LandStep | Main.kt:171-178 | the target's pawn leaves its roster and the mover lands on the target, with the rest of the capture's effects |
| Engine.Chess.JumpStep | Main.kt:172-178 | the mover's square is emptied, the target holds the mover, coordinates and `startPosition` are updated, the marker is cleared, and `win` is set exactly when the enemy roster is empty |
| Engine.Chess.MakeMove | Main.kt:58-81 | `makeMove` returns true exactly when the input is accepted, updates the engine to the accepted position, and changes nothing for a refused input |
| Engine.Chess.CheckDraw | Main.kt:95-114 | the loop over the roster and the marker test return exactly the draw test of the position |
| Engine.Chess.Play | Main.kt:42-56 | the turn loop leaves the engine in the game state the turn function reaches on the same inputs |
| Engine.Chess.Start | Main.kt:28-33 | on a fresh engine, arranging and playing reach the turn function's result from the opening, and the returned verdict is the one `gameOver` prints |
| Engine.Launch | Main.kt:215-218 | creating a game and starting it yields the verdict the turn loop reaches from the opening on the given inputs |

## Left out

- Console I/O: the greeting, the prompts, the messages "Invalid Input" and "No ... pawn at ...", `printBoard`, `Pawn.toString` and "Bye!". A refusal carries its reason (`Moves.Reason`) instead of printing it.
- Player names (Main.kt:20-26, 126): a player is only a colour. "White Wins!" or "Black Wins!" is the verdict `Wins(White)` or `Wins(Black)`.
- `readln()`: the input lines are a sequence parameter. When the sequence runs out, the loop stops as on "exit". In the source, `readln` would throw at the end of input.
- The regular expression engine: `[a-h][1-8][a-h][1-8]` is written as a predicate on the four characters, `Notation.Matches`.
- Pawn objects and `Pawn(Color.NULL)` sentinels: pawns are ids, and sentinels are `Cell.Empty`. A fresh sentinel is in no roster and is never the en-passant pawn, which is why removing one or comparing one with the marker does nothing.
- Aliasing: `val enemies = if (...) blackPawns else whitePawns` is an alias of a roster. The model writes the changed list back to the roster it came from.
- Engine.Chess.Move: requires a destination on the board and ahead of the pawn, which is what `makeMove`'s checks guarantee. The source's `move` would index off the board for other arguments.
- Engine.Chess.Capture: requires a target square on the board, as `makeMove` guarantees.
- Engine.Chess.CheckDraw: requires that every pawn of the player has a row ahead of it. In the source a pawn on its goal row would make `checkDraw` index off the board, which cannot happen because the game stops on a win first (`Termination.LookAround`).
- Engine.Chess.MoveTo: the `if (startPosition) ... else ...` of Main.kt:140-149 is written as one assignment to `enPassantPawn` and one to `startPosition`. The resulting state is the same.
- The `Game` constructor (Main.kt:20-26) beyond the state it creates: it only prints prompts and reads the two player names.
