/**
 * The legal-move map, get_positions_can_put in src/main.rs: an empty cell
 * is a legal target for `stone` exactly when capturing there would change
 * the board.
 */
module Moves {
  import opened Board
  import opened Capture

  /** The map entry for (x, y): 1 for a legal target, 0 otherwise. */
  function LegalAt(stone: nat, b: Grid, x: int, y: int): (r: nat)
    requires IsBoard(b) && OnBoard(x, y)
    ensures r <= 1
    ensures r == 1 ==> b[y][x] == EMPTY
  {
    if b[y][x] == EMPTY && b != Flipped(b, x, y, stone) then 1 else 0
  }

  /** The whole 8x8 map of legal targets. */
  function LegalMap(stone: nat, b: Grid): (m: Grid)
    requires IsBoard(b)
    ensures IsBoard(m)
  {
    seq(8, y requires 0 <= y < 8 => seq(8, x requires 0 <= x < 8 => LegalAt(stone, b, x, y)))
  }

  /**
   * get_positions_can_put: starts from `[[0; 8]; 8]` and, for every empty
   * cell, records whether get_reversed_board changes the board.
   */
  method PositionsCanPut(stone: nat, b: Grid) returns (positions: Grid)
    requires IsBoard(b)
    ensures positions == LegalMap(stone, b)
  {
    positions := EmptyBoard();
    for y := 0 to 8
      invariant IsBoard(positions)
      invariant forall r, c :: 0 <= r < 8 && 0 <= c < 8 ==>
                  positions[r][c] == if r < y then LegalAt(stone, b, c, r) else EMPTY
    {
      for x := 0 to 8
        invariant IsBoard(positions)
        invariant forall r, c :: 0 <= r < 8 && 0 <= c < 8 ==>
                    positions[r][c] == if r < y || (r == y && c < x) then LegalAt(stone, b, c, r) else EMPTY
      {
        if b[y][x] == EMPTY {
          var reversed := ReversedBoard(x, y, stone, b);
          var row: seq<nat> := positions[y][x := if b == reversed then 0 else 1];
          positions := positions[y := row];
        }
      }
    }
    var m := LegalMap(stone, b);
    forall r | 0 <= r < 8
      ensures positions[r] == m[r]
    {
    }
  }

  /**
   * A cell is a legal target exactly when it is empty and some direction
   * flips at least one disc; occupied cells are never legal, and every map
   * entry is 0 or 1.
   */
  lemma LegalAtMeaning(stone: nat, b: Grid, x: int, y: int)
    requires IsBoard(b) && OnBoard(x, y)
    ensures LegalAt(stone, b, x, y) <= 1
    ensures LegalAt(stone, b, x, y) == 1
        <==> b[y][x] == EMPTY && exists d :: 0 <= d < 8 && Run(b, x, y, d, stone) > 0
    ensures b[y][x] != EMPTY ==> LegalAt(stone, b, x, y) == 0
  {
    FlipsIffSomeRun(b, x, y, stone);
  }

  /** The map is all zeros exactly when no cell is a legal target. */
  lemma NoMovesIff(stone: nat, b: Grid)
    requires IsBoard(b)
    ensures LegalMap(stone, b) == EmptyBoard()
        <==> forall y, x :: 0 <= y < 8 && 0 <= x < 8 ==> LegalAt(stone, b, x, y) == 0
  {
    var m := LegalMap(stone, b);
    var z := EmptyBoard();
    if forall y, x :: 0 <= y < 8 && 0 <= x < 8 ==> LegalAt(stone, b, x, y) == 0 {
      forall y | 0 <= y < 8
        ensures m[y] == z[y]
      {
      }
    }
    if m == z {
      forall y, x | 0 <= y < 8 && 0 <= x < 8
        ensures LegalAt(stone, b, x, y) == 0
      {
        assert m[y][x] == z[y][x];
      }
    }
  }

  /**
   * From the starting position black (who moves first) has exactly four
   * legal targets, given as (x, y): (3,2), (2,3), (5,4) and (4,5).
   */
  lemma InitialMovesForBlack(x: int, y: int)
    requires OnBoard(x, y)
    ensures LegalAt(BLACK, InitialBoard(), x, y) == 1
        <==> (x, y) in {(3, 2), (2, 3), (5, 4), (4, 5)}
  {
    if LegalAt(BLACK, InitialBoard(), x, y) == 1 {
      InitialBlackMoveIsOneOfFour(x, y);
    }
    if (x, y) in {(3, 2), (2, 3), (5, 4), (4, 5)} {
      InitialBlackMovesExist(x, y);
    }
  }

  lemma InitialBlackMoveIsOneOfFour(x: int, y: int)
    requires OnBoard(x, y) && LegalAt(BLACK, InitialBoard(), x, y) == 1
    ensures (x, y) in {(3, 2), (2, 3), (5, 4), (4, 5)}
  {
    var b := InitialBoard();
    LegalAtMeaning(BLACK, b, x, y);
    var d :| 0 <= d < 8 && Run(b, x, y, d, BLACK) > 0;
    var n := Run(b, x, y, d, BLACK);
    RunBrackets(b, x, y, d, BLACK);
    UnitDirection(d);
    var x1, y1 := Walk(x, DX[d], 1), Walk(y, DY[d], 1);
    var x2, y2 := Walk(x, DX[d], 2), Walk(y, DY[d], 2);
    assert Look(b, x, y, d, 1) == WHITE;
    InitialCell(x1, y1);
    if n >= 2 {
      assert Look(b, x, y, d, 2) == WHITE;
      InitialCell(x2, y2);
      assert false;
    }
    assert Look(b, x, y, d, 2) == BLACK;
    InitialCell(x2, y2);
  }

  lemma InitialBlackMovesExist(x: int, y: int)
    requires (x, y) in {(3, 2), (2, 3), (5, 4), (4, 5)}
    ensures OnBoard(x, y) && LegalAt(BLACK, InitialBoard(), x, y) == 1
  {
    var d := if (x, y) == (3, 2) then 0 else if (x, y) == (2, 3) then 6 else if (x, y) == (5, 4) then 2 else 4;
    InitialCell(x, y);
    InitialCell(Walk(x, DX[d], 1), Walk(y, DY[d], 1));
    InitialCell(Walk(x, DX[d], 2), Walk(y, DY[d], 2));
    BracketRuns(InitialBoard(), x, y, d, BLACK, 1);
    LegalAtMeaning(BLACK, InitialBoard(), x, y);
  }

  /** Some cell is a legal target for `stone`. */
  ghost predicate HasMove(stone: nat, b: Grid)
    requires IsBoard(b)
  {
    exists y, x :: 0 <= y < 8 && 0 <= x < 8 && LegalAt(stone, b, x, y) == 1
  }

  /** The map differs from `[[0; 8]; 8]` exactly when some cell is a legal target. */
  lemma HasMoveIff(stone: nat, b: Grid)
    requires IsBoard(b)
    ensures LegalMap(stone, b) != EmptyBoard() <==> HasMove(stone, b)
  {
    NoMovesIff(stone, b);
    forall y, x | 0 <= y < 8 && 0 <= x < 8 {
      LegalAtMeaning(stone, b, x, y);
    }
  }

  // ---------------------------------------------------------------------
  // A move: place, then capture

  /** The number of discs capture at (x, y) turns over. */
  function Flips(b: Grid, x: int, y: int, stone: nat): nat
    requires IsBoard(b) && OnBoard(x, y)
  {
    Diff(b, Flipped(b, x, y, stone))
  }

  /**
   * A move as `main` performs it (write the stone on the empty target, then
   * capture on that board) adds exactly one disc: the mover gains the placed
   * disc and every flipped one, the opponent loses the flipped ones, and
   * the result equals the unplaced capture plus the placed stone. The move
   * flips at least one disc exactly when the legality test saw a change.
   */
  lemma MoveCounts(b: Grid, x: int, y: int, stone: nat)
    requires WellFormed(b) && OnBoard(x, y) && b[y][x] == EMPTY && (stone == WHITE || stone == BLACK)
    ensures WellFormed(Flipped(Place(b, x, y, stone), x, y, stone))
    ensures Flipped(Place(b, x, y, stone), x, y, stone) == Place(Flipped(b, x, y, stone), x, y, stone)
    ensures Count(Flipped(Place(b, x, y, stone), x, y, stone), stone)
         == Count(b, stone) + 1 + Flips(b, x, y, stone)
    ensures Count(Flipped(Place(b, x, y, stone), x, y, stone), Opponent(stone)) + Flips(b, x, y, stone)
         == Count(b, Opponent(stone))
    ensures Occupied(Flipped(Place(b, x, y, stone), x, y, stone)) == Occupied(b) + 1
    ensures Flips(b, x, y, stone) >= 1 <==> Flipped(b, x, y, stone) != b
  {
    var f := Flipped(b, x, y, stone);
    var after := Place(f, x, y, stone);
    var opponent := Opponent(stone);
    OnlyFlips(b, x, y, stone);
    Recolour(b, f, opponent, stone);
    DiffZero(b, f);
    PlacementCommutes(b, x, y, stone, stone);
    CountPlace(f, x, y, stone, stone);
    CountPlace(f, x, y, stone, opponent);
    assert WellFormed(after);
    CountsCoverOccupied(b);
    CountsCoverOccupied(after);
  }

  // ---------------------------------------------------------------------
  // The opening move (2,3) for black

  /** From the starting position at (2,3), black captures only eastwards (d = 6), one disc. */
  lemma RunsAt23(d: nat)
    requires d < 8
    ensures Run(InitialBoard(), 2, 3, d, BLACK) == if d == 6 then 1 else 0
  {
    UnitDirection(d);
    InitialCell(Walk(2, DX[d], 1), Walk(3, DY[d], 1));
    if d == 6 {
      InitialCell(4, 3);
      BracketRuns(InitialBoard(), 2, 3, 6, BLACK, 1);
    }
  }

  /** Black's opening move at (2,3) turns over exactly the white disc at (3,3). */
  lemma OpeningMoveCaptures()
    ensures Flipped(InitialBoard(), 2, 3, BLACK) == Place(InitialBoard(), 3, 3, BLACK)
  {
    var b := InitialBoard();
    var f := Flipped(b, 2, 3, BLACK);
    var p := Place(b, 3, 3, BLACK);
    forall d | 0 <= d < 8 {
      RunsAt23(d);
    }
    forall cy | 0 <= cy < 8
      ensures f[cy] == p[cy]
    {
      forall cx | 0 <= cx < 8
        ensures f[cy][cx] == p[cy][cx]
      {
        FlippedCell(b, 2, 3, BLACK, cx, cy);
        assert OnRay(2, 3, 6, 1, cx, cy) <==> cx == 3 && cy == 3;
      }
    }
  }

  /**
   * After black's opening move at (2,3) the board holds four black discs
   * and one white disc, five in all, one of them flipped.
   */
  lemma OpeningMoveCounts()
    ensures var after := Flipped(Place(InitialBoard(), 2, 3, BLACK), 2, 3, BLACK);
            Count(after, BLACK) == 4 && Count(after, WHITE) == 1 && Occupied(after) == 5
            && Flips(InitialBoard(), 2, 3, BLACK) == 1
  {
    var b := InitialBoard();
    var p := Place(b, 3, 3, BLACK);
    InitialCell(2, 3);
    InitialCell(3, 3);
    InitialCounts();
    MoveCounts(b, 2, 3, BLACK);
    OpeningMoveCaptures();
    CountPlace(b, 3, 3, BLACK, BLACK);
    CountPlace(b, 3, 3, BLACK, WHITE);
    assert p[3][2] == EMPTY;
    CountPlace(p, 2, 3, BLACK, BLACK);
    CountPlace(p, 2, 3, BLACK, WHITE);
  }
}
