/**
 * The capture resolver, get_reversed_board in src/main.rs: from a target
 * cell (x, y) it scans the eight compass directions and turns every
 * bracketed run of opponent discs into `stone`. It never reads or writes
 * the target cell itself.
 */
module Capture {
  import opened Board

  /** The direction table: direction d steps by (DX[d], DY[d]). */
  const DX: seq<int> := [0, -1, -1, -1, 0, 1, 1, 1]
  const DY: seq<int> := [1, 1, 0, -1, -1, -1, 0, 1]

  /** Each direction is a unit step that actually moves. */
  lemma UnitDirection(d: nat)
    requires d < 8
    ensures -1 <= DX[d] <= 1 && -1 <= DY[d] <= 1 && (DX[d] != 0 || DY[d] != 0)
  {
  }

  /** `opponent_stone`: 2 for stone 1, and 1 for any other stone. */
  function Opponent(stone: nat): (r: nat)
    ensures r == WHITE || r == BLACK
    ensures r == BLACK <==> stone == WHITE
  {
    if stone == WHITE then BLACK else WHITE
  }

  /** For the two stone colours, the opponent is the other colour and its opponent is the colour itself. */
  lemma OpponentSwaps(stone: nat)
    requires stone == WHITE || stone == BLACK
    ensures Opponent(stone) != stone && Opponent(Opponent(stone)) == stone
  {
  }

  /** Coordinate `v` after `k` unit steps of `dv` (-1, 0 or 1), i.e. v + k * dv. */
  function Walk(v: int, dv: int, k: int): int {
    if dv > 0 then v + k else if dv < 0 then v - k else v
  }

  lemma WalkStep(v: int, dv: int, k: int)
    requires -1 <= dv <= 1
    ensures Walk(v, dv, k + 1) == Walk(v, dv, k) + dv
  {
  }

  /**
   * The value at step k from (x, y) in direction d, or -1 off the board
   * (no cell value is negative, so -1 stands for "outside").
   */
  function Look(b: Grid, x: int, y: int, d: nat, k: int): int
    requires IsBoard(b) && d < 8
  {
    var px, py := Walk(x, DX[d], k), Walk(y, DY[d], k);
    if OnBoard(px, py) then b[py][px] else -1
  }

  /**
   * The inner `loop` of the source, entered at step k >= 2 after k - 1
   * non-empty, non-`stone` cells: it fails (0) on leaving the board or on
   * an empty cell and succeeds with count_max = k - 1 on a `stone` cell.
   */
  function Scan(b: Grid, x: int, y: int, d: nat, stone: nat, k: nat): nat
    requires IsBoard(b) && OnBoard(x, y) && d < 8 && k >= 1
    decreases 8 - k
  {
    UnitDirection(d);
    var px, py := Walk(x, DX[d], k), Walk(y, DY[d], k);
    if !OnBoard(px, py) || b[py][px] == EMPTY then 0
    else if b[py][px] == stone then k - 1
    else Scan(b, x, y, d, stone, k + 1)
  }

  /**
   * The number of discs direction d flips (count_max when the scan
   * succeeds), 0 when the adjacent cell is off the board, not the opponent,
   * or the scan fails.
   */
  function Run(b: Grid, x: int, y: int, d: nat, stone: nat): nat
    requires IsBoard(b) && OnBoard(x, y) && d < 8
  {
    var ax, ay := Walk(x, DX[d], 1), Walk(y, DY[d], 1);
    if !OnBoard(ax, ay) || b[ay][ax] != Opponent(stone) then 0
    else Scan(b, x, y, d, stone, 2)
  }

  /** How many steps from (x, y) along direction d the cell (cx, cy) would be. */
  function Steps(x: int, y: int, d: nat, cx: int, cy: int): int
    requires d < 8
  {
    if DX[d] > 0 then cx - x
    else if DX[d] < 0 then x - cx
    else if DY[d] > 0 then cy - y
    else y - cy
  }

  /** (cx, cy) is one of the first n cells along direction d from (x, y). */
  predicate OnRay(x: int, y: int, d: nat, n: int, cx: int, cy: int)
    requires d < 8
  {
    var k := Steps(x, y, d, cx, cy);
    1 <= k <= n && Walk(x, DX[d], k) == cx && Walk(y, DY[d], k) == cy
  }

  /** (cx, cy) is flipped by one of the directions 0 .. n-1. */
  predicate Captured(b: Grid, x: int, y: int, stone: nat, n: nat, cx: int, cy: int)
    requires IsBoard(b) && OnBoard(x, y) && n <= 8
  {
    n > 0 &&
    (Captured(b, x, y, stone, n - 1, cx, cy) || OnRay(x, y, n - 1, Run(b, x, y, n - 1, stone), cx, cy))
  }

  /** The board after capture: every captured cell becomes `stone`, every other cell is kept. */
  function Flipped(b: Grid, x: int, y: int, stone: nat): (r: Grid)
    requires IsBoard(b) && OnBoard(x, y)
    ensures IsBoard(r)
  {
    seq(8, cy requires 0 <= cy < 8 =>
      seq(8, cx requires 0 <= cx < 8 =>
        if Captured(b, x, y, stone, 8, cx, cy) then stone else b[cy][cx]))
  }

  /**
   * get_reversed_board: copies the board, then per direction checks the
   * adjacent cell, runs the scan loop and, on success, writes `stone` into
   * the count_max cells passed over.
   */
  method ReversedBoard(x: int, y: int, stone: nat, b: Grid) returns (nb: Grid)
    requires IsBoard(b) && OnBoard(x, y)
    ensures nb == Flipped(b, x, y, stone)
  {
    var opponent := Opponent(stone);
    nb := b;
    for id := 0 to 8
      invariant Painted(nb, b, x, y, stone, id, 0)
    {
      UnitDirection(id);
      var dx, dy := DX[id], DY[id];
      var px, py := x + dx, y + dy;
      if px < 0 || px > 7 || py < 0 || py > 7 {
        RunNeedsOpponent(b, x, y, id, stone);
        PaintedNext(nb, b, x, y, stone, id);
        continue;
      }
      if b[py][px] == opponent {
        var flag, count := ScanDirection(b, x, y, id, stone);
        if flag {
          nb := FlipDirection(nb, b, x, y, id, stone, count);
        } else {
          assert Run(b, x, y, id, stone) == 0;
        }
      } else {
        RunNeedsOpponent(b, x, y, id, stone);
      }
      PaintedNext(nb, b, x, y, stone, id);
    }
    PaintedAll(nb, b, x, y, stone);
  }

  /**
   * The inner `loop` of get_reversed_board for direction `id`, entered once
   * the adjacent cell holds the opponent: it steps `count_max` and the
   * position until it leaves the board or meets an empty cell (`flag`
   * false) or meets a `stone` cell (`flag` true).
   */
  method ScanDirection(b: Grid, x: int, y: int, id: nat, stone: nat) returns (flag: bool, count: nat)
    requires IsBoard(b) && OnBoard(x, y) && id < 8
    requires OnBoard(x + DX[id], y + DY[id]) && b[y + DY[id]][x + DX[id]] == Opponent(stone)
    ensures flag ==> count == Run(b, x, y, id, stone) && count >= 1
    ensures !flag ==> Run(b, x, y, id, stone) == 0
  {
    UnitDirection(id);
    var dx, dy := DX[id], DY[id];
    var px, py := x + dx, y + dy;
    flag := true;
    count := 0;
    while true
      invariant OnBoard(px, py)
      invariant px == Walk(x, dx, count + 1) && py == Walk(y, dy, count + 1)
      invariant Run(b, x, y, id, stone) == Scan(b, x, y, id, stone, count + 2)
      decreases 8 - count
    {
      count := count + 1;
      WalkStep(x, dx, count + 1);
      WalkStep(y, dy, count + 1);
      px, py := px + dx, py + dy;
      if px < 0 || px > 7 || py < 0 || py > 7 || b[py][px] == EMPTY {
        flag := false;
        break;
      } else if b[py][px] == stone {
        break;
      }
    }
  }

  /**
   * The flipping `for` loop of get_reversed_board for direction `id`: it
   * walks the `count` cells after (x, y) and writes `stone` into each.
   */
  method FlipDirection(nb: Grid, b: Grid, x: int, y: int, id: nat, stone: nat, count: nat)
    returns (nb': Grid)
    requires IsBoard(b) && OnBoard(x, y) && id < 8
    requires count == Run(b, x, y, id, stone)
    requires Painted(nb, b, x, y, stone, id, 0)
    ensures Painted(nb', b, x, y, stone, id, count)
  {
    UnitDirection(id);
    var dx, dy := DX[id], DY[id];
    var px, py := x, y;
    nb' := nb;
    for i := 0 to count
      invariant px == Walk(x, dx, i) && py == Walk(y, dy, i)
      invariant Painted(nb', b, x, y, stone, id, i)
    {
      RunCells(b, x, y, id, stone, i + 1);
      WalkStep(x, dx, i);
      WalkStep(y, dy, i);
      px, py := px + dx, py + dy;
      PaintedStep(nb', b, x, y, stone, id, i);
      var row: seq<nat> := nb'[py][px := stone];
      nb' := nb'[py := row];
    }
  }

  /** A direction whose adjacent cell is off the board or not the opponent flips nothing. */
  lemma RunNeedsOpponent(b: Grid, x: int, y: int, d: nat, stone: nat)
    requires IsBoard(b) && OnBoard(x, y) && d < 8
    requires !OnBoard(x + DX[d], y + DY[d]) || b[y + DY[d]][x + DX[d]] != Opponent(stone)
    ensures Run(b, x, y, d, stone) == 0
  {
    UnitDirection(d);
  }

  /**
   * Loop invariant of ReversedBoard: directions before `id` are applied in
   * full and direction `id` for its first `i` cells.
   */
  ghost predicate Painted(nb: Grid, b: Grid, x: int, y: int, stone: nat, id: nat, i: int)
    requires IsBoard(b) && OnBoard(x, y) && id <= 8
  {
    IsBoard(nb) &&
    forall cy, cx :: 0 <= cy < 8 && 0 <= cx < 8 ==>
      nb[cy][cx] == if Captured(b, x, y, stone, id, cx, cy) || (id < 8 && OnRay(x, y, id, i, cx, cy))
                    then stone else b[cy][cx]
  }

  /** One more cell of a ray is the old ray plus its (i+1)-th cell. */
  lemma OnRayStep(x: int, y: int, d: nat, i: nat, cx: int, cy: int)
    requires d < 8
    ensures OnRay(x, y, d, i + 1, cx, cy)
        <==> OnRay(x, y, d, i, cx, cy) || (cx == Walk(x, DX[d], i + 1) && cy == Walk(y, DY[d], i + 1))
  {
    UnitDirection(d);
  }

  lemma PaintedStep(nb: Grid, b: Grid, x: int, y: int, stone: nat, id: nat, i: nat)
    requires IsBoard(b) && OnBoard(x, y) && id < 8
    requires Painted(nb, b, x, y, stone, id, i)
    requires OnBoard(Walk(x, DX[id], i + 1), Walk(y, DY[id], i + 1))
    ensures Painted(Place(nb, Walk(x, DX[id], i + 1), Walk(y, DY[id], i + 1), stone), b, x, y, stone, id, i + 1)
  {
    forall cy, cx | 0 <= cy < 8 && 0 <= cx < 8 {
      OnRayStep(x, y, id, i, cx, cy);
    }
  }

  lemma PaintedNext(nb: Grid, b: Grid, x: int, y: int, stone: nat, id: nat)
    requires IsBoard(b) && OnBoard(x, y) && id < 8
    requires Painted(nb, b, x, y, stone, id, Run(b, x, y, id, stone))
    ensures Painted(nb, b, x, y, stone, id + 1, 0)
  {
  }

  lemma PaintedAll(nb: Grid, b: Grid, x: int, y: int, stone: nat)
    requires IsBoard(b) && OnBoard(x, y)
    requires Painted(nb, b, x, y, stone, 8, 0)
    ensures nb == Flipped(b, x, y, stone)
  {
    var r := Flipped(b, x, y, stone);
    forall cy | 0 <= cy < 8
      ensures nb[cy] == r[cy]
    {
    }
  }

  // ---------------------------------------------------------------------
  // What the scan visits

  /** A successful scan passes only non-empty, non-`stone` cells on the board. */
  lemma {:induction false} ScanCells(b: Grid, x: int, y: int, d: nat, stone: nat, k: nat, j: int)
    requires IsBoard(b) && OnBoard(x, y) && d < 8 && k >= 1
    requires k <= j <= Scan(b, x, y, d, stone, k)
    ensures OnBoard(Walk(x, DX[d], j), Walk(y, DY[d], j))
    ensures Look(b, x, y, d, j) != EMPTY && Look(b, x, y, d, j) != stone
    decreases 8 - k
  {
    UnitDirection(d);
    var px, py := Walk(x, DX[d], k), Walk(y, DY[d], k);
    assert OnBoard(px, py) && b[py][px] != EMPTY && b[py][px] != stone;
    if j > k {
      ScanCells(b, x, y, d, stone, k + 1, j);
    }
  }

  /** A successful scan stops on a `stone` cell. */
  lemma {:induction false} ScanEnd(b: Grid, x: int, y: int, d: nat, stone: nat, k: nat)
    requires IsBoard(b) && OnBoard(x, y) && d < 8 && k >= 1
    requires Scan(b, x, y, d, stone, k) > 0
    ensures Look(b, x, y, d, Scan(b, x, y, d, stone, k) + 1) == stone
    decreases 8 - k
  {
    UnitDirection(d);
    var px, py := Walk(x, DX[d], k), Walk(y, DY[d], k);
    if b[py][px] != stone {
      ScanEnd(b, x, y, d, stone, k + 1);
    }
  }

  /** The j-th cell of a run (1 <= j <= Run) is on the board, non-empty and not `stone`; the first one is the opponent. */
  lemma RunCells(b: Grid, x: int, y: int, d: nat, stone: nat, j: int)
    requires IsBoard(b) && OnBoard(x, y) && d < 8
    requires 1 <= j <= Run(b, x, y, d, stone)
    ensures OnBoard(Walk(x, DX[d], j), Walk(y, DY[d], j))
    ensures Look(b, x, y, d, j) != EMPTY && Look(b, x, y, d, j) != stone
    ensures j == 1 ==> Look(b, x, y, d, j) == Opponent(stone)
  {
    if j > 1 {
      ScanCells(b, x, y, d, stone, 2, j);
    }
  }

  /** A successful scan from step k that meets a `stone` cell at step n + 1 reports n. */
  lemma {:induction false} ScanReaches(b: Grid, x: int, y: int, d: nat, stone: nat, k: nat, n: int)
    requires IsBoard(b) && OnBoard(x, y) && d < 8 && 1 <= k <= n + 1
    requires stone != EMPTY && Opponent(stone) != stone
    requires forall j :: k <= j <= n ==> Look(b, x, y, d, j) == Opponent(stone)
    requires Look(b, x, y, d, n + 1) == stone
    ensures Scan(b, x, y, d, stone, k) == n
    decreases n + 1 - k
  {
    UnitDirection(d);
    if k <= n {
      assert Look(b, x, y, d, k) == Opponent(stone);
      ScanReaches(b, x, y, d, stone, k + 1, n);
    }
  }

  // ---------------------------------------------------------------------
  // The capture rule, direction by direction

  /**
   * Direction d brackets n >= 1 opponent discs: steps 1 .. n hold the
   * opponent and step n + 1 holds `stone` (all of them on the board).
   */
  ghost predicate Brackets(b: Grid, x: int, y: int, d: nat, stone: nat, n: int)
    requires IsBoard(b) && d < 8
  {
    1 <= n &&
    (forall k :: 1 <= k <= n ==> Look(b, x, y, d, k) == Opponent(stone)) &&
    Look(b, x, y, d, n + 1) == stone
  }

  /** A direction that flips n >= 1 discs brackets exactly those n opponent discs. */
  lemma RunBrackets(b: Grid, x: int, y: int, d: nat, stone: nat)
    requires WellFormed(b) && OnBoard(x, y) && d < 8 && (stone == WHITE || stone == BLACK)
    requires Run(b, x, y, d, stone) >= 1
    ensures Brackets(b, x, y, d, stone, Run(b, x, y, d, stone))
  {
    var n := Run(b, x, y, d, stone);
    forall k | 1 <= k <= n
      ensures Look(b, x, y, d, k) == Opponent(stone)
    {
      RunCells(b, x, y, d, stone, k);
    }
    ScanEnd(b, x, y, d, stone, 2);
  }

  /** A direction that brackets n opponent discs flips n discs. */
  lemma BracketRuns(b: Grid, x: int, y: int, d: nat, stone: nat, n: int)
    requires IsBoard(b) && OnBoard(x, y) && d < 8 && (stone == WHITE || stone == BLACK)
    requires Brackets(b, x, y, d, stone, n)
    ensures Run(b, x, y, d, stone) == n
  {
    UnitDirection(d);
    assert Look(b, x, y, d, 1) == Opponent(stone);
    ScanReaches(b, x, y, d, stone, 2, n);
  }

  /** A direction flips exactly n discs (n >= 1) if and only if it brackets n opponent discs. */
  lemma RunIsBracket(b: Grid, x: int, y: int, d: nat, stone: nat, n: int)
    requires WellFormed(b) && OnBoard(x, y) && d < 8 && (stone == WHITE || stone == BLACK)
    ensures (n >= 1 && Run(b, x, y, d, stone) == n) <==> Brackets(b, x, y, d, stone, n)
  {
    if n >= 1 && Run(b, x, y, d, stone) == n {
      RunBrackets(b, x, y, d, stone);
    }
    if Brackets(b, x, y, d, stone, n) {
      BracketRuns(b, x, y, d, stone, n);
    }
  }

  /** A direction flips nothing exactly when it brackets no run of opponent discs. */
  lemma NoRunIffNoBracket(b: Grid, x: int, y: int, d: nat, stone: nat)
    requires WellFormed(b) && OnBoard(x, y) && d < 8 && (stone == WHITE || stone == BLACK)
    ensures Run(b, x, y, d, stone) == 0 <==> forall n :: !Brackets(b, x, y, d, stone, n)
  {
    if Run(b, x, y, d, stone) == 0 {
      forall n | Brackets(b, x, y, d, stone, n)
        ensures false
      {
        RunIsBracket(b, x, y, d, stone, n);
      }
    } else {
      RunIsBracket(b, x, y, d, stone, Run(b, x, y, d, stone));
    }
  }

  // ---------------------------------------------------------------------
  // Captured cells

  /** A captured cell lies on the run of some direction. */
  lemma {:induction false} CapturedWitness(b: Grid, x: int, y: int, stone: nat, n: nat, cx: int, cy: int)
    returns (d: nat)
    requires IsBoard(b) && OnBoard(x, y) && n <= 8
    requires Captured(b, x, y, stone, n, cx, cy)
    ensures d < n && OnRay(x, y, d, Run(b, x, y, d, stone), cx, cy)
  {
    if OnRay(x, y, n - 1, Run(b, x, y, n - 1, stone), cx, cy) {
      d := n - 1;
    } else {
      d := CapturedWitness(b, x, y, stone, n - 1, cx, cy);
    }
  }

  /** Every cell on the run of a direction below n is captured. */
  lemma {:induction false} CapturedByRay(b: Grid, x: int, y: int, stone: nat, n: nat, d: nat, cx: int, cy: int)
    requires IsBoard(b) && OnBoard(x, y) && d < n <= 8
    requires OnRay(x, y, d, Run(b, x, y, d, stone), cx, cy)
    ensures Captured(b, x, y, stone, n, cx, cy)
  {
    if d < n - 1 {
      CapturedByRay(b, x, y, stone, n - 1, d, cx, cy);
    }
  }

  /**
   * The per-cell meaning of capture: a cell becomes `stone` exactly when it
   * lies among the first Run(d) cells of some direction d, and keeps its
   * value otherwise.
   */
  lemma FlippedCell(b: Grid, x: int, y: int, stone: nat, cx: int, cy: int)
    requires IsBoard(b) && OnBoard(x, y) && OnBoard(cx, cy)
    ensures Flipped(b, x, y, stone)[cy][cx]
         == if exists d :: 0 <= d < 8 && OnRay(x, y, d, Run(b, x, y, d, stone), cx, cy)
            then stone else b[cy][cx]
  {
    if Captured(b, x, y, stone, 8, cx, cy) {
      var d := CapturedWitness(b, x, y, stone, 8, cx, cy);
    }
    if d :| 0 <= d < 8 && OnRay(x, y, d, Run(b, x, y, d, stone), cx, cy) {
      CapturedByRay(b, x, y, stone, 8, d, cx, cy);
    }
  }

  /** The target cell is on no ray from itself. */
  lemma TargetNotOnRay(x: int, y: int, d: nat, n: int)
    requires d < 8
    ensures !OnRay(x, y, d, n, x, y)
  {
  }

  /**
   * Capture only flips: every cell either keeps its value or turns from the
   * opponent into `stone`; empty cells, `stone` cells and the target cell are
   * never changed, and the result is again a board of 0, 1 and 2.
   */
  lemma OnlyFlips(b: Grid, x: int, y: int, stone: nat)
    requires WellFormed(b) && OnBoard(x, y) && (stone == WHITE || stone == BLACK)
    ensures WellFormed(Flipped(b, x, y, stone))
    ensures Flipped(b, x, y, stone)[y][x] == b[y][x]
    ensures forall cy, cx :: 0 <= cy < 8 && 0 <= cx < 8 ==>
              Flipped(b, x, y, stone)[cy][cx] == b[cy][cx] ||
              (b[cy][cx] == Opponent(stone) && Flipped(b, x, y, stone)[cy][cx] == stone)
  {
    var r := Flipped(b, x, y, stone);
    forall cy, cx | 0 <= cy < 8 && 0 <= cx < 8 && Captured(b, x, y, stone, 8, cx, cy)
      ensures b[cy][cx] == Opponent(stone)
    {
      var d := CapturedWitness(b, x, y, stone, 8, cx, cy);
      var k := Steps(x, y, d, cx, cy);
      RunCells(b, x, y, d, stone, k);
    }
    if Captured(b, x, y, stone, 8, x, y) {
      var d := CapturedWitness(b, x, y, stone, 8, x, y);
      TargetNotOnRay(x, y, d, Run(b, x, y, d, stone));
    }
  }

  /**
   * The board differs after capture exactly when some direction flips at
   * least one disc.
   */
  lemma FlipsIffSomeRun(b: Grid, x: int, y: int, stone: nat)
    requires IsBoard(b) && OnBoard(x, y)
    ensures Flipped(b, x, y, stone) != b <==> exists d :: 0 <= d < 8 && Run(b, x, y, d, stone) > 0
  {
    var r := Flipped(b, x, y, stone);
    if d :| 0 <= d < 8 && Run(b, x, y, d, stone) > 0 {
      UnitDirection(d);
      var ax, ay := Walk(x, DX[d], 1), Walk(y, DY[d], 1);
      RunCells(b, x, y, d, stone, 1);
      CapturedByRay(b, x, y, stone, 8, d, ax, ay);
      assert r[ay][ax] == stone != b[ay][ax];
    } else {
      forall cy | 0 <= cy < 8
        ensures r[cy] == b[cy]
      {
        forall cx | 0 <= cx < 8
          ensures r[cy][cx] == b[cy][cx]
        {
          if Captured(b, x, y, stone, 8, cx, cy) {
            var d := CapturedWitness(b, x, y, stone, 8, cx, cy);
          }
        }
      }
    }
  }

  // ---------------------------------------------------------------------
  // The target cell does not matter

  /** Two boards that agree everywhere except possibly at (x, y). */
  ghost predicate AgreeOffTarget(b: Grid, b': Grid, x: int, y: int)
    requires IsBoard(b) && IsBoard(b')
  {
    forall cy, cx :: 0 <= cy < 8 && 0 <= cx < 8 && (cx != x || cy != y) ==> b'[cy][cx] == b[cy][cx]
  }

  lemma {:induction false} ScanIgnoresTarget(b: Grid, b': Grid, x: int, y: int, d: nat, stone: nat, k: nat)
    requires IsBoard(b) && IsBoard(b') && OnBoard(x, y) && d < 8 && k >= 1
    requires AgreeOffTarget(b, b', x, y)
    ensures Scan(b', x, y, d, stone, k) == Scan(b, x, y, d, stone, k)
    decreases 8 - k
  {
    UnitDirection(d);
    var px, py := Walk(x, DX[d], k), Walk(y, DY[d], k);
    if OnBoard(px, py) && b[py][px] != EMPTY && b[py][px] != stone {
      ScanIgnoresTarget(b, b', x, y, d, stone, k + 1);
    }
  }

  lemma {:induction false} CapturedIgnoresTarget(b: Grid, b': Grid, x: int, y: int, stone: nat, n: nat, cx: int, cy: int)
    requires IsBoard(b) && IsBoard(b') && OnBoard(x, y) && n <= 8
    requires AgreeOffTarget(b, b', x, y)
    ensures Captured(b', x, y, stone, n, cx, cy) == Captured(b, x, y, stone, n, cx, cy)
  {
    if n > 0 {
      UnitDirection(n - 1);
      ScanIgnoresTarget(b, b', x, y, n - 1, stone, 2);
      CapturedIgnoresTarget(b, b', x, y, stone, n - 1, cx, cy);
    }
  }

  /**
   * Placing a value on the target and then capturing gives the same board
   * as capturing first and placing afterwards: capture never reads the
   * target cell, so the legality test on the unplaced board and the capture
   * applied to the placed board flip the same cells.
   */
  lemma PlacementCommutes(b: Grid, x: int, y: int, v: nat, stone: nat)
    requires IsBoard(b) && OnBoard(x, y)
    ensures Flipped(Place(b, x, y, v), x, y, stone) == Place(Flipped(b, x, y, stone), x, y, v)
  {
    var b' := Place(b, x, y, v);
    var lhs := Flipped(b', x, y, stone);
    var rhs := Place(Flipped(b, x, y, stone), x, y, v);
    forall cy | 0 <= cy < 8
      ensures lhs[cy] == rhs[cy]
    {
      forall cx | 0 <= cx < 8
        ensures lhs[cy][cx] == rhs[cy][cx]
      {
        CapturedIgnoresTarget(b, b', x, y, stone, 8, cx, cy);
        if Captured(b', x, y, stone, 8, x, y) {
          var d := CapturedWitness(b', x, y, stone, 8, x, y);
        }
      }
    }
  }
}
