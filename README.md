# Reversi rules engine in Dafny

This project models the rules engine of a two-player Reversi (Othello)
game with a window, written in Rust in `src/main.rs`. The board is an 8x8 grid
of cells indexed `[y][x]`. A cell holds 0 (empty), 1 (white) or 2 (black).
Black moves first from the usual four-disc centre position.

The model follows the source's own functions:

- `board.dfy` (module `Board`): the grid, the starting position and
  `count_stones` (`CountStones`). It also has the counting functions and
  lemmas the other modules use.
- `capture.dfy` (module `Capture`): `get_reversed_board`. The direction
  table is a pair of constants. `Run` specifies one direction's scan and
  `Flipped` specifies the whole resolver. The imperative method
  `ReversedBoard` follows the source's loops and is proved to return
  exactly `Flipped`. Lemmas then give the rule in plain terms: a direction
  flips `n` discs exactly when `n` opponent discs are followed by one of
  the mover's own; capture only turns opponent discs into the mover's
  colour; and writing the target cell commutes with capture.
- `moves.dfy` (module `Moves`): `get_positions_can_put` (`PositionsCanPut`,
  proved equal to `LegalMap`). It also says what a legal target is and
  proves the four opening moves for black. `MoveCounts` gives the disc
  counts after a move.
- `judge.dfy` (module `Judge`): `get_judgement`.
- `game.dfy` (module `Game`): the state that `main` keeps (`board`,
  `is_black_turn`, `skip_count`, `is_game_end`) as the class `Game`. The
  render-event bookkeeping is `Tick` and the left-click handler is
  `Click`.
- `cursor.dfy` (module `Cursor`): how a cursor coordinate becomes a cell
  index. Both the guard as written and the corrected one are here (see
  Findings).

The board is held as a value of type `seq<seq<nat>>`. The Rust board is
`[[usize; 8]; 8]`, which is `Copy`, so every rules function gets its own
copy and returns a new board. The game's board is a field that `Tick` and
`Click` reassign.

The skip counter is handled exactly as the source handles it. Only the
per-frame bookkeeping resets it. A click neither reads nor changes the
counter or the end flag. One consequence follows from the contracts of
`Tick` and `Click`:

1. A frame finds that player A has no move. The turn passes to B and the
   counter becomes 1.
2. B's click arrives before the next render event and makes a move. The
   turn returns to A.
3. The next frame finds A still without a move. The counter becomes 2 and
   the game is declared over, even if B could still move.

This happens only if the click in step 2 comes before the next render
event. If a render comes first, the frame checks B, who has a move, and
resets the counter to 0. `Game.EarlyEnd` runs these three calls and proves
the result.

Once the game has ended this way, a frame in which the player to move has a move resets the
counter to 0, but the end flag stays set. For this reason `Game.Valid`
states only that a counter of 2 implies the game has ended, not the
converse.

## Model

`Capture.Run` (one direction's capture count), `Capture.Flipped` (the board
after capture) and `Moves.LegalMap` (the legal-move map) are reference
definitions. They are written from the rules, and the methods that follow
the source's loops are proved equal to them. The rows below state what is
proved about each.

| member | source | states |
|---|---|---|
| Board.InitialCell | src/main.rs:324-328 | In the starting position, (3,3) and (4,4) are white, (4,3) and (3,4) are black (as (x, y)), and every other cell is empty. |
| Board.InitialBoard | src/main.rs:324-328 | The four cell writes on an empty board give a board of 0/1/2 cells. `InitialCell` gives each cell and `InitialCounts` gives the counts. |
| Board.InitialCounts | src/main.rs:324-328 | The starting position has 2 white discs, 2 black discs and 4 occupied cells. |
| Board.CountStones | src/main.rs:208-222 | For a board of 0/1/2 cells, the returned pair is [number of white cells, number of black cells], and the two add up to the number of occupied cells. |
| Board.CountsCoverOccupied | src/main.rs:213-219 | On a board of 0/1/2 cells, the white count plus the black count equals the number of non-empty cells, so every occupied cell is counted exactly once. |
| Board.CountPlace | src/main.rs:383 | Writing one cell changes the count of any colour only at that cell: it loses the old value and gains the new one. |
| Capture.Opponent | src/main.rs:230 | `opponent_stone`: the result is 2 exactly for stone 1, and 1 for every other value. |
| Capture.OpponentSwaps | src/main.rs:230 | For the two colours, the opponent is the other colour and the opponent's opponent is the colour itself. |
| Capture.ReversedBoard | src/main.rs:224-278 | The resolver's three loops (the direction `for`, the scan `loop` and the flip `for`, one method each) return exactly `Flipped`, the board with every captured cell turned to `stone`. |
| Capture.ScanDirection | src/main.rs:242-262 | Starting next to an adjacent opponent disc, the scan succeeds exactly when the direction captures, and its count is that direction's run length (at least 1). |
| Capture.FlipDirection | src/main.rs:264-273 | The flipping loop turns exactly the first `count_max` cells of the direction into `stone`, on top of what earlier directions flipped. |
| Capture.FlippedCell | src/main.rs:233-277 | A cell of the result is `stone` exactly when it lies within the run of some direction. Every other cell keeps its value. |
| Capture.RunIsBracket | src/main.rs:242-262 | A direction flips n >= 1 discs exactly when cells 1..n along it hold the opponent and cell n+1 holds `stone`. |
| Capture.NoRunIffNoBracket | src/main.rs:242-262 | A direction flips nothing exactly when no such bracket exists. The cases where it fails are: leaving the board, meeting an empty cell, or a first neighbour that is not an opponent disc. |
| Capture.OnlyFlips | src/main.rs:233-277 | Capture keeps the board to 0/1/2 cells and never changes the target cell. Every cell either keeps its value or goes from the opponent to `stone`. |
| Capture.FlipsIffSomeRun | src/main.rs:233-277 | The resolver changes the board exactly when some direction has a run of length at least 1. |
| Capture.PlacementCommutes | src/main.rs:383-384 | Capture never reads the target cell, so placing the stone and then capturing gives the same board as capturing and then placing. |
| Moves.LegalAt | src/main.rs:287-292 | One map entry is 0 or 1, and 1 only on an empty cell. `LegalAtMeaning` gives the full condition. |
| Moves.PositionsCanPut | src/main.rs:280-298 | The returned map equals `LegalMap`: an entry is 1 exactly at the empty cells where capture would change the board, and 0 elsewhere. |
| Moves.LegalAtMeaning | src/main.rs:287-292 | A map entry is 0 or 1. It is 1 exactly when the cell is empty and some direction flips a disc. Occupied cells are always 0. |
| Moves.NoMovesIff | src/main.rs:346-347 | The map equals `[[0; 8]; 8]` exactly when no cell is a legal target. |
| Moves.HasMoveIff | src/main.rs:346-347 | The map differs from `[[0; 8]; 8]` exactly when the player has a legal target. |
| Moves.InitialMovesForBlack | src/main.rs:280-298 | From the starting position, black's legal targets are exactly (3,2), (2,3), (5,4) and (4,5). |
| Moves.RunsAt23 | src/main.rs:235-273 | From the starting position, black at (2,3) captures one disc eastwards and nothing in the other seven directions. |
| Moves.OpeningMoveCaptures | src/main.rs:224-278 | From the starting position, black's move at (2,3) turns over exactly the white disc at (3,3). |
| Moves.OpeningMoveCounts | src/main.rs:380-386 | After black's opening move at (2,3) the board has 4 black discs, 1 white disc and 5 discs in all, one of them flipped. |
| Moves.MoveCounts | src/main.rs:380-386 | A capturing move on an empty cell adds one disc to the board. The mover gains 1 plus the flipped discs and the opponent loses the flipped discs. The move is legal exactly when it flips at least one disc. |
| Judge.Judgement | src/main.rs:300-316 | The result is "DRAW" exactly on equal counts, "WHITE WON!" exactly when white has more discs, and "BLACK WON" exactly when black has more. |
| Judge.JudgementSwap | src/main.rs:300-316 | Exchanging the two counts exchanges the winner and keeps a draw a draw. |
| Cursor.CellIndexAsWritten | src/main.rs:369-373 | The guard as written accepts every coordinate in [0.0, 8.0], including 8.0, and truncates it to a non-negative index. |
| Cursor.EdgeCoordinateEscapes | src/main.rs:369-375 | The coordinate 8.0 passes the guard and becomes index 8, past the last cell. |
| Cursor.CellIndex | src/main.rs:369-373 | The corrected guard accepts exactly [0.0, 8.0). An accepted coordinate yields the cell 0..7 that contains it. |
| Game.StoneOf | src/main.rs:346 | The mover's stone is 1 or 2, and it is 2 (black) exactly on black's turn. |
| Game.Game.constructor | src/main.rs:319-328 | The game starts from the four-disc centre position with black to move, a skip count of 0 and the game not ended. |
| Game.Game.Tick | src/main.rs:345-362 | The board is unchanged and the returned map is the mover's `LegalMap`. With a legal move, the skip count becomes 0 and the turn stays. Without one, the turn passes and the skip count goes 0 -> 1 or from 1 or 2 to 2, and reaching 2 ends the game. The end flag is never cleared. |
| Game.Game.Click | src/main.rs:367-390 | A cursor outside [0, 8) x [0, 8) is ignored. This is the corrected guard: the source also accepts 8.0 and then indexes out of range at line 375 (see Findings). A click on an occupied cell is refused, and so is a click where nothing would be flipped; in both cases nothing changes. Otherwise the move is made (exactly when the cell is a legal target): the board becomes the capture plus the placed stone, the turn passes and the counts change as in `MoveCounts`. The skip count and end flag are never changed. |
| Game.EarlyEnd | src/main.rs:345-387 | Tick, then a click, then Tick, starting with skip count 0 and no move for the player A to move. If the click places a stone, the second Tick's map is A's map on the new board. If A has no move there, the game is over with a skip count of 2 and B to move. |
| Game.Game.Play | src/main.rs:382-386 | The placing branch writes the stone, captures and passes the turn. The new board is the capture plus the placed stone, with the counts of `MoveCounts`. |

## Left out

- Rendering (`App::render`), the text output, the window, the event loop and every `println!` message are not modelled. The end-of-game `count_stones` and `get_judgement` calls happen only to print, so `Tick` does not make them. Both functions are modelled on their own.
- Pixel geometry is not modelled: the layout constants and the conversion from the mouse position in pixels to cell coordinates (`mouse_cursor`). `Click` receives the cell coordinates `id_x`, `id_y` directly, as exact reals rather than `f64`.
- The order of events within one frame is not modelled. Each event handler is a method, and any sequence of calls is a possible run.
- Board.CountStones: requires every cell to hold 0, 1 or 2. The source would index out of range on any other value, and no board of the game holds one.
- Game.Game.Click: uses the corrected cursor guard, so a click exactly on the right or bottom edge (`id_x` or `id_y` equal to 8.0) is ignored here. The source accepts it and indexes out of range (see Findings).
- Capture.ReversedBoard: the single Rust function is split into three methods (`ReversedBoard`, `ScanDirection`, `FlipDirection`), one per loop, each proved against `Run`/`Flipped`.
- Integer widths (`usize`, `i32`) are unbounded integers here. No value in the core can leave the range of either type.

## Findings

| source | as written | input that shows it | evidently intended | confidence | as-written member | corrected member |
|---|---|---|---|---|---|---|
| src/main.rs:369-375 | The click guard rejects `id_x > 8.0` (and the same for `id_y`), then truncates with `as usize`. | A cursor at x = 520 pixels, the board's right edge, gives `id_x == 8.0`. That passes the guard, `u_id_x` becomes 8, and `board[u_id_y][8]` is out of range. The bottom edge behaves the same way for `id_y`. | Reject `id_x >= 8.0`, so that only [0.0, 8.0) maps to a cell. | high; not executed | Cursor.CellIndexAsWritten, Cursor.EdgeCoordinateEscapes | Cursor.CellIndex (used by Game.Game.Click) |
