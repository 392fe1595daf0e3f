/** The board model of the tic-tac-toe engine: marks, the 3x3 grid,
    the starting position, and counting marks. */
module BoardModel {

  /** A cell holds a mark or nothing. In the engine the empty cell and the
      absent player are the same value, so `Empty` also stands for "no
      player" and "no winner". */
  datatype Cell = Empty | X | O

  datatype Option<+T> = None | Some(value: T)

  /** A coordinate pair (row, column). Any pair may be proposed as a move;
      only the empty in-range ones are legal. */
  type Move = (int, int)

  /** Both coordinates name a row and column of the grid. */
  predicate InRange(m: Move) {
    0 <= m.0 < 3 && 0 <= m.1 < 3
  }

  /** Three rows of three cells each. The engine assumes this shape and never checks it. */
  predicate WellFormed(g: seq<seq<Cell>>) {
    |g| == 3 && forall i :: 0 <= i < 3 ==> |g[i]| == 3
  }

  type Board = g: seq<seq<Cell>> | WellFormed(g)
    witness [[Empty, Empty, Empty], [Empty, Empty, Empty], [Empty, Empty, Empty]]

  /** The starting position: every cell empty. */
  function InitialState(): (b: Board)
    ensures forall i, j :: 0 <= i < 3 && 0 <= j < 3 ==> b[i][j] == Empty
  {
    [[Empty, Empty, Empty], [Empty, Empty, Empty], [Empty, Empty, Empty]]
  }

  /** How many cells of the row hold `c`. */
  function Count(s: seq<Cell>, c: Cell): nat
  {
    if |s| == 0 then 0 else (if s[0] == c then 1 else 0) + Count(s[1..], c)
  }

  /** Number of occurrences of `c` over a sequence of rows; on a board,
      the number of its cells holding `c`. */
  function CountBoard(rows: seq<seq<Cell>>, c: Cell): nat
  {
    if |rows| == 0 then 0 else Count(rows[0], c) + CountBoard(rows[1..], c)
  }

  /** X has moved as often as O, or once more: the turn order's invariant. */
  predicate Balanced(b: Board) {
    CountBoard(b, X) == CountBoard(b, O) || CountBoard(b, X) == CountBoard(b, O) + 1
  }

  /** 1 for true, 0 for false. */
  function Indicator(p: bool): nat {
    if p then 1 else 0
  }

  /** A row of three holds `c` exactly as often as its cells say. */
  lemma {:induction false} CountTriple(s: seq<Cell>, c: Cell)
    requires |s| == 3
    ensures Count(s, c) == Indicator(s[0] == c) + Indicator(s[1] == c) + Indicator(s[2] == c)
  {
    var t := s[1..];
    var u := t[1..];
    assert Count(u[1..], c) == 0;
    assert Count(u, c) == Indicator(s[2] == c);
    assert Count(t, c) == Indicator(s[1] == c) + Count(u, c);
  }

  /** The board count is the sum of the three row counts. */
  lemma {:induction false} CountBoardByRows(b: Board, c: Cell)
    ensures CountBoard(b, c) == Count(b[0], c) + Count(b[1], c) + Count(b[2], c)
  {
    var t := b[1..];
    var u := t[1..];
    assert CountBoard(u[1..], c) == 0;
    assert CountBoard(u, c) == Count(b[2], c);
    assert CountBoard(t, c) == Count(b[1], c) + CountBoard(u, c);
  }

  /** A value is absent from a row exactly when it is counted zero times. */
  lemma {:induction false} CountZero(s: seq<Cell>, c: Cell)
    ensures Count(s, c) == 0 <==> forall k :: 0 <= k < |s| ==> s[k] != c
  {
    if |s| > 0 {
      CountZero(s[1..], c);
      assert forall k :: 1 <= k < |s| ==> s[k] == s[1..][k - 1];
    }
  }

  /** A value present in a row is counted at least once. */
  lemma CountPositive(s: seq<Cell>, k: int, c: Cell)
    requires 0 <= k < |s| && s[k] == c
    ensures Count(s, c) >= 1
  {
    CountZero(s, c);
  }

  /** Every cell of a row is empty, X or O. */
  lemma {:induction false} CountPartition(s: seq<Cell>)
    ensures Count(s, Empty) + Count(s, X) + Count(s, O) == |s|
  {
    if |s| > 0 {
      CountPartition(s[1..]);
    }
  }

  /** Overwriting one cell moves one unit of count from the old value to the new one. */
  lemma {:induction false} CountUpdate(s: seq<Cell>, k: int, v: Cell, c: Cell)
    requires 0 <= k < |s|
    ensures Count(s[k := v], c) + Indicator(s[k] == c) == Count(s, c) + Indicator(v == c)
  {
    if k == 0 {
      assert s[k := v][1..] == s[1..];
    } else {
      CountUpdate(s[1..], k - 1, v, c);
      assert s[k := v][1..] == s[1..][k - 1 := v];
    }
  }

  /** A copy of `b` with cell `a` set to `v`. */
  function Place(b: Board, a: Move, v: Cell): Board
    requires InRange(a)
  {
    var row := b[a.0][a.1 := v];
    assert |row| == 3;
    var g := b[a.0 := row];
    assert WellFormed(g);
    g
  }

  /** Placing changes cell `a` to `v` and no other cell. */
  lemma PlaceCells(b: Board, a: Move, v: Cell)
    requires InRange(a)
    ensures forall i, j :: 0 <= i < 3 && 0 <= j < 3 ==>
      Place(b, a, v)[i][j] == (if i == a.0 && j == a.1 then v else b[i][j])
  {
  }

  /** Writing the value a cell already holds gives back the same board. */
  lemma PlaceSame(b: Board, a: Move, v: Cell)
    requires InRange(a) && b[a.0][a.1] == v
    ensures Place(b, a, v) == b
  {
    assert b[a.0][a.1 := v] == b[a.0];
  }

  /** Overwriting one cell of the board changes the board counts the same way. */
  lemma {:induction false} CountBoardUpdate(b: Board, a: Move, v: Cell, c: Cell)
    requires InRange(a)
    ensures CountBoard(Place(b, a, v), c) + Indicator(b[a.0][a.1] == c)
         == CountBoard(b, c) + Indicator(v == c)
  {
    var b' := Place(b, a, v);
    assert b' == b[a.0 := b[a.0][a.1 := v]];
    CountBoardByRows(b, c);
    CountBoardByRows(b', c);
    CountUpdate(b[a.0], a.1, v, c);
  }

  /** Marking an empty cell with X or O uses up one empty cell, adds one
      mark of that kind, and leaves the other mark's count alone. */
  lemma PlaceCounts(b: Board, a: Move, p: Cell, other: Cell)
    requires InRange(a) && b[a.0][a.1] == Empty
    requires p != Empty && other != Empty && other != p
    ensures CountBoard(Place(b, a, p), Empty) == CountBoard(b, Empty) - 1
    ensures CountBoard(Place(b, a, p), p) == CountBoard(b, p) + 1
    ensures CountBoard(Place(b, a, p), other) == CountBoard(b, other)
  {
    CountBoardUpdate(b, a, p, Empty);
    CountBoardUpdate(b, a, p, p);
    CountBoardUpdate(b, a, p, other);
  }

  /** The whole board is the sum of its empties and both marks. */
  lemma CountBoardPartition(b: Board)
    ensures CountBoard(b, Empty) + CountBoard(b, X) + CountBoard(b, O) == 9
  {
    CountBoardByRows(b, Empty);
    CountBoardByRows(b, X);
    CountBoardByRows(b, O);
    CountPartition(b[0]);
    CountPartition(b[1]);
    CountPartition(b[2]);
  }

  /** The board has no cell holding `c` exactly when its count of `c` is zero. */
  lemma CountBoardZero(b: Board, c: Cell)
    ensures CountBoard(b, c) == 0 <==> forall i, j :: 0 <= i < 3 && 0 <= j < 3 ==> b[i][j] != c
  {
    CountBoardByRows(b, c);
    CountZero(b[0], c);
    CountZero(b[1], c);
    CountZero(b[2], c);
  }

  /** The starting position has nine empty cells and no marks. */
  lemma InitialCounts()
    ensures CountBoard(InitialState(), Empty) == 9
    ensures CountBoard(InitialState(), X) == 0 && CountBoard(InitialState(), O) == 0
  {
    var b := InitialState();
    CountBoardZero(b, X);
    CountBoardZero(b, O);
    CountBoardPartition(b);
  }
}
