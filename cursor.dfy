/**
 * The cursor-to-cell conversion of `main`'s click handler: a cursor
 * coordinate, already divided by the grid size, becomes a cell index.
 * Floating point is modelled by exact reals.
 */
module Cursor {

  datatype Option<T> = None | Some(value: T)

  /**
   * As written: a coordinate below 0.0 or above 8.0 is ignored, any other
   * is truncated to an index (`id_x as usize`).
   */
  function CellIndexAsWritten(id: real): (r: Option<int>)
    ensures r.Some? <==> 0.0 <= id <= 8.0
    ensures r.Some? ==> r.value == id.Floor && 0 <= r.value
  {
    if id < 0.0 || id > 8.0 then None else Some(id.Floor)
  }

  /** The coordinate 8.0 (the right or bottom edge of the board) passes the guard and yields index 8, past the last cell. */
  lemma EdgeCoordinateEscapes()
    ensures CellIndexAsWritten(8.0) == Some(8)
  {
  }

  /** Corrected: only coordinates in [0.0, 8.0) give a cell, and that cell is on the board. */
  function CellIndex(id: real): (r: Option<int>)
    ensures r.Some? <==> 0.0 <= id < 8.0
    ensures r.Some? ==> 0 <= r.value < 8 && r.value as real <= id < r.value as real + 1.0
  {
    if id < 0.0 || id >= 8.0 then None else Some(id.Floor)
  }
}
