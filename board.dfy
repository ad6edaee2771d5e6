/**
 * The 8x8 Reversi board of src/main.rs, indexed [y][x], and the disc counts
 * taken over it (count_stones).
 */
module Board {

  /** Cell values as the source writes them: 0 empty, 1 white, 2 black. */
  const EMPTY: nat := 0
  const WHITE: nat := 1
  const BLACK: nat := 2

  /** A `[[usize; 8]; 8]`: rows indexed by y, cells of a row by x. */
  type Grid = seq<seq<nat>>

  predicate OnBoard(x: int, y: int) {
    0 <= x < 8 && 0 <= y < 8
  }

  /** The shape of the board: 8 rows of 8 cells. */
  predicate IsBoard(b: Grid) {
    |b| == 8 && forall y :: 0 <= y < 8 ==> |b[y]| == 8
  }

  /** Every cell holds one of the three values the game uses. */
  predicate WellFormed(b: Grid) {
    IsBoard(b) && forall y, x :: 0 <= y < 8 && 0 <= x < 8 ==> b[y][x] <= BLACK
  }

  /** The board with one cell overwritten (`board[y][x] = v`). */
  function Place(b: Grid, x: int, y: int, v: nat): (r: Grid)
    requires IsBoard(b) && OnBoard(x, y)
    ensures IsBoard(r)
  {
    var row: seq<nat> := b[y][x := v];
    b[y := row]
  }

  /** `[[0; 8]; 8]`. */
  function EmptyBoard(): (b: Grid)
    ensures IsBoard(b)
  {
    seq(8, _ => seq(8, _ => EMPTY))
  }

  /**
   * The starting position, written cell by cell as `main` does:
   * white on (3,3) and (4,4), black on (4,3) and (3,4), given as (x,y).
   */
  function InitialBoard(): (b: Grid)
    ensures WellFormed(b)
  {
    Place(Place(Place(Place(EmptyBoard(), 3, 3, WHITE), 4, 3, BLACK), 3, 4, BLACK), 4, 4, WHITE)
  }

  /** The cells of the starting position, one by one. */
  lemma InitialCell(cx: int, cy: int)
    ensures OnBoard(cx, cy) ==>
      InitialBoard()[cy][cx] == if (cx == 3 && cy == 3) || (cx == 4 && cy == 4) then WHITE
                                else if (cx == 4 && cy == 3) || (cx == 3 && cy == 4) then BLACK
                                else EMPTY
  {
  }

  // ---------------------------------------------------------------------
  // Counting cells

  /** Number of cells of `row` equal to `v`. */
  function CountRow(row: seq<nat>, v: nat): nat {
    if row == [] then 0
    else CountRow(row[..|row| - 1], v) + (if row[|row| - 1] == v then 1 else 0)
  }

  /** Number of cells of `rows` equal to `v`. */
  function Count(rows: Grid, v: nat): nat {
    if rows == [] then 0
    else Count(rows[..|rows| - 1], v) + CountRow(rows[|rows| - 1], v)
  }

  /** Number of non-empty cells of `row`. */
  function OccupiedRow(row: seq<nat>): nat {
    if row == [] then 0
    else OccupiedRow(row[..|row| - 1]) + (if row[|row| - 1] != EMPTY then 1 else 0)
  }

  /** Number of non-empty cells of `rows`. */
  function Occupied(rows: Grid): nat {
    if rows == [] then 0
    else Occupied(rows[..|rows| - 1]) + OccupiedRow(rows[|rows| - 1])
  }

  /** Number of positions at which two rows of equal length differ. */
  function DiffRow(r1: seq<nat>, r2: seq<nat>): nat
    requires |r1| == |r2|
  {
    if r1 == [] then 0
    else DiffRow(r1[..|r1| - 1], r2[..|r2| - 1]) + (if r1[|r1| - 1] != r2[|r2| - 1] then 1 else 0)
  }

  predicate SameShape(b1: Grid, b2: Grid) {
    |b1| == |b2| && forall i :: 0 <= i < |b1| ==> |b1[i]| == |b2[i]|
  }

  /** Number of cells at which two boards of the same shape differ. */
  function Diff(b1: Grid, b2: Grid): nat
    requires SameShape(b1, b2)
  {
    if b1 == [] then 0
    else Diff(b1[..|b1| - 1], b2[..|b2| - 1]) + DiffRow(b1[|b1| - 1], b2[|b2| - 1])
  }

  /**
   * count_stones: `[number of white cells, number of black cells]`. The
   * source indexes `stones[cell - 1]`, so a cell value above 2 would panic;
   * callers only ever pass boards whose cells are 0, 1 or 2.
   */
  method CountStones(b: Grid) returns (stones: seq<nat>)
    requires WellFormed(b)
    ensures stones == [Count(b, WHITE), Count(b, BLACK)]
    ensures stones[0] + stones[1] == Occupied(b)
  {
    stones := [0, 0];
    for i := 0 to 8
      invariant stones == [Count(b[..i], WHITE), Count(b[..i], BLACK)]
    {
      for j := 0 to 8
        invariant stones == [Count(b[..i], WHITE) + CountRow(b[i][..j], WHITE),
                             Count(b[..i], BLACK) + CountRow(b[i][..j], BLACK)]
      {
        assert b[i][..j + 1][..j] == b[i][..j];
        if b[i][j] > 0 {
          stones := stones[b[i][j] - 1 := stones[b[i][j] - 1] + 1];
        }
      }
      assert b[i][..8] == b[i];
      assert b[..i + 1][..i] == b[..i];
    }
    assert b[..8] == b;
    CountsCoverOccupied(b);
  }

  // ---------------------------------------------------------------------
  // Lemmas about counts

  /** With cells in {0, 1, 2}, the white and black counts of a row add up to its occupied cells. */
  lemma {:induction false} CountsCoverOccupiedRow(row: seq<nat>)
    requires forall j :: 0 <= j < |row| ==> row[j] <= BLACK
    ensures CountRow(row, WHITE) + CountRow(row, BLACK) == OccupiedRow(row)
  {
    if row != [] {
      CountsCoverOccupiedRow(row[..|row| - 1]);
    }
  }

  /** With cells in {0, 1, 2}, white plus black is the number of non-empty cells. */
  lemma {:induction false} CountsCoverOccupied(rows: Grid)
    requires forall i, j :: 0 <= i < |rows| && 0 <= j < |rows[i]| ==> rows[i][j] <= BLACK
    ensures Count(rows, WHITE) + Count(rows, BLACK) == Occupied(rows)
  {
    if rows != [] {
      CountsCoverOccupied(rows[..|rows| - 1]);
      CountsCoverOccupiedRow(rows[|rows| - 1]);
    }
  }

  /** A board with no discs counts no cells of any colour. */
  lemma {:induction false} EmptyCounts(rows: Grid, v: nat)
    requires v != EMPTY
    requires forall i, j :: 0 <= i < |rows| && 0 <= j < |rows[i]| ==> rows[i][j] == EMPTY
    ensures Count(rows, v) == 0
  {
    if rows != [] {
      EmptyCountsRow(rows[|rows| - 1], v);
      EmptyCounts(rows[..|rows| - 1], v);
    }
  }

  lemma {:induction false} EmptyCountsRow(row: seq<nat>, v: nat)
    requires v != EMPTY
    requires forall j :: 0 <= j < |row| ==> row[j] == EMPTY
    ensures CountRow(row, v) == 0
  {
    if row != [] {
      EmptyCountsRow(row[..|row| - 1], v);
    }
  }

  /** The starting position holds two white and two black discs. */
  lemma InitialCounts()
    ensures Count(InitialBoard(), WHITE) == 2 && Count(InitialBoard(), BLACK) == 2
    ensures Occupied(InitialBoard()) == 4
  {
    var b0 := EmptyBoard();
    var b1 := Place(b0, 3, 3, WHITE);
    var b2 := Place(b1, 4, 3, BLACK);
    var b3 := Place(b2, 3, 4, BLACK);
    var b4 := Place(b3, 4, 4, WHITE);
    EmptyCounts(b0, WHITE);
    EmptyCounts(b0, BLACK);
    CountPlace(b0, 3, 3, WHITE, WHITE);
    CountPlace(b0, 3, 3, WHITE, BLACK);
    CountPlace(b1, 4, 3, BLACK, WHITE);
    CountPlace(b1, 4, 3, BLACK, BLACK);
    CountPlace(b2, 3, 4, BLACK, WHITE);
    CountPlace(b2, 3, 4, BLACK, BLACK);
    CountPlace(b3, 4, 4, WHITE, WHITE);
    CountPlace(b3, 4, 4, WHITE, BLACK);
    CountsCoverOccupied(b4);
  }

  /** Overwriting one cell of a row changes the count of `u` by the cells lost and gained. */
  lemma {:induction false} CountRowUpdate(row: seq<nat>, j: nat, v: nat, u: nat)
    requires j < |row|
    ensures CountRow(row[j := v], u) + (if row[j] == u then 1 else 0)
         == CountRow(row, u) + (if v == u then 1 else 0)
  {
    var n := |row|;
    if j < n - 1 {
      assert row[j := v][..n - 1] == row[..n - 1][j := v];
      CountRowUpdate(row[..n - 1], j, v, u);
    } else {
      assert row[j := v][..n - 1] == row[..n - 1];
    }
  }

  /** Replacing one row changes the count of `u` by the difference of the two rows' counts. */
  lemma {:induction false} CountRowsUpdate(rows: Grid, i: nat, r: seq<nat>, u: nat)
    requires i < |rows|
    ensures Count(rows[i := r], u) + CountRow(rows[i], u) == Count(rows, u) + CountRow(r, u)
  {
    var n := |rows|;
    if i < n - 1 {
      assert rows[i := r][..n - 1] == rows[..n - 1][i := r];
      CountRowsUpdate(rows[..n - 1], i, r, u);
    } else {
      assert rows[i := r][..n - 1] == rows[..n - 1];
    }
  }

  /** Writing `v` into one cell: the count of `u` loses the old cell and gains the new one. */
  lemma CountPlace(b: Grid, x: int, y: int, v: nat, u: nat)
    requires IsBoard(b) && OnBoard(x, y)
    ensures Count(Place(b, x, y, v), u) + (if b[y][x] == u then 1 else 0)
         == Count(b, u) + (if v == u then 1 else 0)
  {
    CountRowUpdate(b[y], x, v, u);
    CountRowsUpdate(b, y, b[y][x := v], u);
  }

  /**
   * If every cell of `r2` either equals the one of `r1` or was `from` and
   * became `to`, then `to` gained and `from` lost exactly the changed cells.
   */
  lemma {:induction false} RecolourRow(r1: seq<nat>, r2: seq<nat>, from: nat, to: nat)
    requires |r1| == |r2| && from != to
    requires forall j :: 0 <= j < |r1| ==> r2[j] == r1[j] || (r1[j] == from && r2[j] == to)
    ensures CountRow(r2, to) == CountRow(r1, to) + DiffRow(r1, r2)
    ensures CountRow(r2, from) + DiffRow(r1, r2) == CountRow(r1, from)
  {
    if r1 != [] {
      RecolourRow(r1[..|r1| - 1], r2[..|r2| - 1], from, to);
    }
  }

  /** RecolourRow lifted to whole boards. */
  lemma {:induction false} Recolour(b1: Grid, b2: Grid, from: nat, to: nat)
    requires SameShape(b1, b2) && from != to
    requires forall i, j :: 0 <= i < |b1| && 0 <= j < |b1[i]| ==>
               b2[i][j] == b1[i][j] || (b1[i][j] == from && b2[i][j] == to)
    ensures Count(b2, to) == Count(b1, to) + Diff(b1, b2)
    ensures Count(b2, from) + Diff(b1, b2) == Count(b1, from)
  {
    if b1 != [] {
      var n := |b1|;
      Recolour(b1[..n - 1], b2[..n - 1], from, to);
      RecolourRow(b1[n - 1], b2[n - 1], from, to);
    }
  }

  /** Two rows differ in no position exactly when they are equal. */
  lemma {:induction false} DiffRowZero(r1: seq<nat>, r2: seq<nat>)
    requires |r1| == |r2|
    ensures DiffRow(r1, r2) == 0 <==> r1 == r2
  {
    if r1 != [] {
      var n := |r1|;
      DiffRowZero(r1[..n - 1], r2[..n - 1]);
      if r1[..n - 1] == r2[..n - 1] && r1[n - 1] == r2[n - 1] {
        assert r1 == r1[..n - 1] + [r1[n - 1]];
        assert r2 == r2[..n - 1] + [r2[n - 1]];
      }
    }
  }

  /** Two boards differ in no cell exactly when they are equal. */
  lemma {:induction false} DiffZero(b1: Grid, b2: Grid)
    requires SameShape(b1, b2)
    ensures Diff(b1, b2) == 0 <==> b1 == b2
  {
    if b1 != [] {
      var n := |b1|;
      DiffZero(b1[..n - 1], b2[..n - 1]);
      DiffRowZero(b1[n - 1], b2[n - 1]);
      if b1[..n - 1] == b2[..n - 1] && b1[n - 1] == b2[n - 1] {
        assert b1 == b1[..n - 1] + [b1[n - 1]];
        assert b2 == b2[..n - 1] + [b2[n - 1]];
      }
    }
  }
}
