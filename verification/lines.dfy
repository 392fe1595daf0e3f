/** The eight winning lines of a board, in the engine's fixed order:
    rows, then columns, then the two diagonals. */
module LineEnumerator {
  import opened BoardModel

  /** Column j read top to bottom. */
  function Column(b: Board, j: int): seq<Cell>
    requires 0 <= j < 3
  {
    [b[0][j], b[1][j], b[2][j]]
  }

  /** The lines of `b`: the three rows, the three columns, then the two
      diagonals. */
  function Lines(b: Board): (ls: seq<seq<Cell>>)
    ensures |ls| == 8
    ensures forall k :: 0 <= k < 8 ==> |ls[k]| == 3
  {
    var rows := [b[0], b[1], b[2]];
    var columns := [Column(b, 0), Column(b, 1), Column(b, 2)];
    var primary := [b[0][0], b[1][1], b[2][2]];
    var secondary := [b[0][2], b[1][1], b[2][0]];
    rows + columns + [primary, secondary]
  }

  /** Coordinates of the t-th cell of line k, read off the geometry alone. */
  function LineCell(k: int, t: int): Move
  {
    if k < 3 then (k, t)
    else if k < 6 then (t, k - 3)
    else if k == 6 then (t, t)
    else (t, 2 - t)
  }

  /** Every line visits three distinct in-range cells, and the cell the
      line holds at position t is the board's cell at `LineCell(k, t)`:
      rows 0 to 2, columns 0 to 2 read top to bottom, the primary diagonal
      `b[t][t]`, then the secondary diagonal `b[t][2 - t]`. */
  lemma LinesFollowGeometry(b: Board, k: int, t: int)
    requires 0 <= k < 8 && 0 <= t < 3
    ensures InRange(LineCell(k, t))
    ensures Lines(b)[k][t] == b[LineCell(k, t).0][LineCell(k, t).1]
    ensures forall t' :: 0 <= t' < 3 && t' != t ==> LineCell(k, t') != LineCell(k, t)
  {
    var ls := Lines(b);
    if k < 3 {
      assert ls[k] == b[k];
    } else if k < 6 {
      assert ls[3 + (k - 3)][t] == b[t][k - 3];
    }
  }
}
