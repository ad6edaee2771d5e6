/**
 * The game state held by `main` in src/main.rs and the two event handlers
 * that change it: the per-frame turn bookkeeping (Tick) and the left click
 * (Click).
 */
module Game {
  import opened Board
  import opened Capture
  import opened Moves
  import opened Cursor

  /** What a left click did. */
  datatype ClickOutcome =
    | Ignored     // the cursor is outside the board
    | Taken       // the cell already holds a disc
    | NoCapture   // the stone would flip nothing there
    | Placed      // the move was made

  /** The stone of the player to move: black is 2, white is 1. */
  function StoneOf(isBlackTurn: bool): (s: nat)
    ensures s == WHITE || s == BLACK
    ensures s == BLACK <==> isBlackTurn
  {
    if isBlackTurn then BLACK else WHITE
  }

  class Game {
    var board: Grid
    var isBlackTurn: bool
    var skipCount: nat
    var isGameEnd: bool

    /**
     * The board holds only 0, 1 and 2; the skip counter never exceeds 2,
     * and reaching 2 has ended the game. (The converse does not hold: a
     * later frame in which the player to move has a move resets the
     * counter but never clears the end flag.)
     */
    ghost predicate Valid()
      reads this
    {
      WellFormed(board) && skipCount <= 2 && (skipCount == 2 ==> isGameEnd)
    }

    /** The starting state: the four centre discs, black to move, no skips. */
    constructor ()
      ensures Valid()
      ensures board == InitialBoard() && isBlackTurn && skipCount == 0 && !isGameEnd
    {
      skipCount := 0;
      isGameEnd := false;
      isBlackTurn := true;
      var b := EmptyBoard();
      b := Place(b, 3, 3, WHITE);
      b := Place(b, 4, 3, BLACK);
      b := Place(b, 3, 4, BLACK);
      b := Place(b, 4, 4, WHITE);
      board := b;
    }

    /** The stone of the player to move. */
    function Stone(): nat
      reads this
    {
      StoneOf(isBlackTurn)
    }

    /**
     * The bookkeeping done on every render event: compute the legal-move
     * map for the player to move; with a move available the skip counter
     * is reset, otherwise the turn passes and the counter goes 0 -> 1 or
     * 1 -> 2, the latter ending the game. The board is never touched and
     * the end flag is never cleared.
     */
    method Tick() returns (positions: Grid)
      requires Valid()
      modifies this
      ensures Valid()
      ensures board == old(board)
      ensures positions == LegalMap(old(Stone()), board)
      ensures HasMove(old(Stone()), board) ==>
                skipCount == 0 && isBlackTurn == old(isBlackTurn) && isGameEnd == old(isGameEnd)
      ensures !HasMove(old(Stone()), board) ==>
                isBlackTurn == !old(isBlackTurn)
                && skipCount == (if old(skipCount) == 0 then 1 else 2)
                && isGameEnd == (old(isGameEnd) || old(skipCount) >= 1)
      ensures old(isGameEnd) ==> isGameEnd
    {
      positions := PositionsCanPut(StoneOf(isBlackTurn), board);
      HasMoveIff(StoneOf(isBlackTurn), board);
      if positions == EmptyBoard() {
        isBlackTurn := !isBlackTurn;
        if skipCount == 1 {
          skipCount := 2;
          isGameEnd := true;
        } else if skipCount == 0 {
          skipCount := 1;
        }
      } else {
        skipCount := 0;
      }
    }

    /**
     * A left click with the cursor at cell coordinates (idX, idY): outside
     * the board it is ignored; on an occupied cell, or on an empty one where
     * the stone would flip nothing, nothing changes; otherwise the stone is
     * placed, the captured discs are flipped and the turn passes. Neither
     * the skip counter nor the end flag is consulted or changed.
     */
    method Click(idX: real, idY: real) returns (outcome: ClickOutcome)
      requires Valid()
      modifies this
      ensures Valid()
      ensures skipCount == old(skipCount) && isGameEnd == old(isGameEnd)
      ensures outcome == Ignored <==> !(0.0 <= idX < 8.0 && 0.0 <= idY < 8.0)
      ensures outcome != Placed ==> board == old(board) && isBlackTurn == old(isBlackTurn)
      ensures outcome != Ignored ==>
                var x, y := idX.Floor, idY.Floor;
                OnBoard(x, y)
                && (outcome == Taken <==> old(board)[y][x] != EMPTY)
                && (outcome == Placed <==> LegalAt(old(Stone()), old(board), x, y) == 1)
      ensures outcome == Placed ==>
                var x, y, s := idX.Floor, idY.Floor, old(Stone());
                board == Place(Flipped(old(board), x, y, s), x, y, s)
                && isBlackTurn == !old(isBlackTurn)
                && Flips(old(board), x, y, s) >= 1
                && Count(board, s) == Count(old(board), s) + 1 + Flips(old(board), x, y, s)
                && Count(board, Opponent(s)) + Flips(old(board), x, y, s) == Count(old(board), Opponent(s))
                && Occupied(board) == Occupied(old(board)) + 1
    {
      var cellX, cellY := CellIndex(idX), CellIndex(idY);
      if cellX.None? || cellY.None? {
        return Ignored;
      }
      var x, y := cellX.value, cellY.value;
      if board[y][x] > 0 {
        return Taken;
      }
      var reversed := ReversedBoard(x, y, StoneOf(isBlackTurn), board);
      if board == reversed {
        return NoCapture;
      }
      Play(x, y);
      return Placed;
    }

    /**
     * The placing branch of the click handler: write the stone on the
     * empty target, capture from it, pass the turn.
     */
    method Play(x: int, y: int)
      requires Valid() && OnBoard(x, y) && board[y][x] == EMPTY
      requires board != Flipped(board, x, y, Stone())
      modifies this
      ensures Valid()
      ensures skipCount == old(skipCount) && isGameEnd == old(isGameEnd)
      ensures isBlackTurn == !old(isBlackTurn)
      ensures var s := old(Stone());
              board == Place(Flipped(old(board), x, y, s), x, y, s)
              && Flips(old(board), x, y, s) >= 1
              && Count(board, s) == Count(old(board), s) + 1 + Flips(old(board), x, y, s)
              && Count(board, Opponent(s)) + Flips(old(board), x, y, s) == Count(old(board), Opponent(s))
              && Occupied(board) == Occupied(old(board)) + 1
    {
      var stone := StoneOf(isBlackTurn);
      MoveCounts(board, x, y, stone);
      board := Place(board, x, y, stone);
      board := ReversedBoard(x, y, stone, board);
      isBlackTurn := !isBlackTurn;
    }
  }

  /**
   * The early end. A frame finds that player A has no move, so the turn
   * passes to B. B's click arrives before the next render event and makes
   * a move. If A still has no move on the next frame, the game is over
   * with B to move, whether or not B could move again.
   */
  method EarlyEnd(g: Game, idX: real, idY: real) returns (outcome: ClickOutcome, positions: Grid)
    requires g.Valid() && g.skipCount == 0 && !HasMove(g.Stone(), g.board)
    modifies g
    ensures g.Valid()
    ensures outcome == Placed ==> positions == LegalMap(StoneOf(old(g.isBlackTurn)), g.board)
    ensures outcome == Placed && !HasMove(StoneOf(old(g.isBlackTurn)), g.board) ==>
              g.isGameEnd && g.skipCount == 2 && g.isBlackTurn == !old(g.isBlackTurn)
  {
    var first := g.Tick();
    outcome := g.Click(idX, idY);
    positions := g.Tick();
  }
}
