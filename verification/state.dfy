/** Pure queries on a board: who won, whether the game is over, the
    outcome's score, whose turn it is, and which moves are open. */
module StateInspector {
  import opened BoardModel
  import opened LineEnumerator

  /** Every cell of the line holds `m`. */
  predicate Full(line: seq<Cell>, m: Cell) {
    forall t :: 0 <= t < |line| ==> line[t] == m
  }

  /** Line k of `b` is occupied entirely by mark `m`. */
  predicate Owns(b: Board, k: int, m: Cell)
    requires 0 <= k < 8
  {
    Full(Lines(b)[k], m)
  }

  /** Neither mark occupies line k. */
  predicate Open(b: Board, k: int)
    requires 0 <= k < 8
  {
    !Owns(b, k, X) && !Owns(b, k, O)
  }

  /** A line of three is counted three times exactly when it is full. */
  lemma CountThreeIsFull(line: seq<Cell>, m: Cell)
    requires |line| == 3
    ensures Count(line, m) == 3 <==> Full(line, m)
  {
    CountTriple(line, m);
  }

  /** Scans lines k.. of `b` in order; within a line, three X marks are
      checked before three O marks. */
  function WinnerFrom(b: Board, k: int): Cell
    requires 0 <= k <= 8
    decreases 8 - k
  {
    if k == 8 then Empty
    else
      var line := Lines(b)[k];
      if Count(line, X) == 3 then X
      else if Count(line, O) == 3 then O
      else WinnerFrom(b, k + 1)
  }

  /** The scan from line k finds nothing exactly when every line from k on
      is open, and otherwise returns the mark filling the first filled line. */
  lemma {:induction false} WinnerFromScans(b: Board, k: int)
    requires 0 <= k <= 8
    decreases 8 - k
    ensures WinnerFrom(b, k) == Empty <==> forall n :: k <= n < 8 ==> Open(b, n)
    ensures WinnerFrom(b, k) != Empty ==>
      exists n :: k <= n < 8 && Owns(b, n, WinnerFrom(b, k)) && forall n' :: k <= n' < n ==> Open(b, n')
  {
    if k < 8 {
      var line := Lines(b)[k];
      CountThreeIsFull(line, X);
      CountThreeIsFull(line, O);
      WinnerFromScans(b, k + 1);
      if Count(line, X) == 3 {
        assert Owns(b, k, X) && !Open(b, k);
      } else if Count(line, O) == 3 {
        assert Owns(b, k, O) && !Open(b, k);
      } else {
        assert Open(b, k);
      }
    }
  }

  /** The mark of the first line (in line order) that one mark fills, or
      `Empty` when no line is filled. */
  function Winner(b: Board): Cell
  {
    WinnerFrom(b, 0)
  }

  /** What `Winner` means, restated for callers that need it. */
  lemma WinnerIsFirstOwnedLine(b: Board)
    ensures Winner(b) == Empty <==> forall k :: 0 <= k < 8 ==> Open(b, k)
    ensures Winner(b) != Empty ==>
      exists k :: 0 <= k < 8 && Owns(b, k, Winner(b)) && forall k' :: 0 <= k' < k ==> Open(b, k')
  {
    WinnerFromScans(b, 0);
  }

  /** The game is over when someone has won or no cell is empty. The empty
      cells are counted row by row. */
  function Terminal(b: Board): (r: bool)
    ensures r <==> Winner(b) != Empty || forall i, j :: 0 <= i < 3 && 0 <= j < 3 ==> b[i][j] != Empty
  {
    CountBoardZero(b, Empty);
    if Winner(b) != Empty then true
    else CountBoard(b, Empty) == 0
  }

  /** 1 when X has won, -1 when O has won, 0 otherwise. */
  function Utility(b: Board): (r: int)
    ensures -1 <= r <= 1
    ensures r == 1 <==> Winner(b) == X
    ensures r == -1 <==> Winner(b) == O
    ensures r == 0 <==> Winner(b) == Empty
  {
    if Winner(b) == X then 1
    else if Winner(b) == O then -1
    else 0
  }

  /** Whose turn it is: nobody (`Empty`) on a finished board, X on the
      starting board, otherwise O exactly when X has more marks than O. */
  function Player(b: Board): (r: Cell)
    ensures r == Empty <==> Terminal(b)
    ensures !Terminal(b) ==> (r == O <==> CountBoard(b, O) < CountBoard(b, X))
    ensures !Terminal(b) ==> (r == X <==> CountBoard(b, X) <= CountBoard(b, O))
  {
    if Terminal(b) then Empty
    else if b == InitialState() then X
    else if CountBoard(b, O) < CountBoard(b, X) then O
    else X
  }

  /** The empty cells of row i from column j on, scanned left to right. */
  function RowActions(b: Board, i: int, j: int): (s: set<Move>)
    requires 0 <= i < 3 && 0 <= j <= 3
    decreases 3 - j
    ensures forall m :: m in s <==> m.0 == i && j <= m.1 < 3 && b[i][m.1] == Empty
    ensures |s| == Count(b[i][j..], Empty)
  {
    if j == 3 then {}
    else
      var rest := RowActions(b, i, j + 1);
      assert b[i][j..][1..] == b[i][j + 1..];
      (if b[i][j] == Empty then {(i, j)} else {}) + rest
  }

  /** The empty cells of rows i.. , scanned top to bottom. */
  function BoardActions(b: Board, i: int): (s: set<Move>)
    requires 0 <= i <= 3
    decreases 3 - i
    ensures forall m :: m in s <==> i <= m.0 < 3 && 0 <= m.1 < 3 && b[m.0][m.1] == Empty
    ensures |s| == CountBoard(b[i..], Empty)
  {
    if i == 3 then {}
    else
      var row := RowActions(b, i, 0);
      var rest := BoardActions(b, i + 1);
      assert b[i][0..] == b[i];
      assert b[i..][1..] == b[i + 1..];
      assert row * rest == {};
      row + rest
  }

  /** The legal moves: every in-range coordinate whose cell is empty. The
      engine's early exit for finished boards compares a board with a
      boolean and so never fires; finished boards keep their empty cells
      as moves. */
  function Actions(b: Board): set<Move>
  {
    set i, j | 0 <= i < 3 && 0 <= j < 3 && b[i][j] == Empty :: (i, j)
  }

  /** A move is legal exactly when it is in range and names an empty cell. */
  lemma ActionsAreEmptyCells(b: Board)
    ensures forall m :: m in Actions(b) <==> InRange(m) && b[m.0][m.1] == Empty
  {
  }

  /** The engine's nested scan over rows and cells collects exactly the
      legal moves, one per empty cell. */
  lemma ActionsByScan(b: Board)
    ensures Actions(b) == BoardActions(b, 0)
    ensures |Actions(b)| == CountBoard(b, Empty)
  {
    assert b[0..] == b;
    forall m
      ensures m in Actions(b) <==> m in BoardActions(b, 0)
    {
    }
  }

  /** The starting board offers all nine cells, has no winner, is not
      finished, and X moves first. */
  lemma InitialStateFacts()
    ensures |Actions(InitialState())| == 9
    ensures Winner(InitialState()) == Empty && !Terminal(InitialState())
    ensures Player(InitialState()) == X
  {
    var b := InitialState();
    InitialCounts();
    ActionsByScan(b);
    FewMarksNoWinner(b);
    assert b[0][0] == Empty;
  }

  /** A board on which neither mark occupies three cells has no winner. */
  lemma FewMarksNoWinner(b: Board)
    requires CountBoard(b, X) < 3 && CountBoard(b, O) < 3
    ensures Winner(b) == Empty
  {
    if Winner(b) != Empty {
      WinnerIsFirstOwnedLine(b);
      var m := Winner(b);
      var k :| 0 <= k < 8 && Owns(b, k, m);
      OwnedLineCounts(b, k, m);
      assert false;
    }
  }

  /** A line owned by `m` puts three of `m`'s marks on the board. */
  lemma OwnedLineCounts(b: Board, k: int, m: Cell)
    requires 0 <= k < 8 && Owns(b, k, m)
    ensures CountBoard(b, m) >= 3
  {
    var ls := Lines(b);
    CountBoardByRows(b, m);
    if k < 3 {
      CountThreeIsFull(b[k], m);
    } else {
      forall t | 0 <= t < 3
        ensures Count(b[t], m) >= 1
      {
        LinesFollowGeometry(b, k, t);
        assert LineCell(k, t).0 == t;
        CountPositive(b[t], LineCell(k, t).1, m);
      }
    }
  }

  /** With X at most one mark ahead, fewer than five marks cannot contain a win. */
  lemma FewerThanFiveMarksNoWinner(b: Board)
    requires Balanced(b)
    requires CountBoard(b, X) + CountBoard(b, O) < 5
    ensures Winner(b) == Empty
  {
    FewMarksNoWinner(b);
  }

  /** The game is over exactly when someone has won or no legal move remains. */
  lemma TerminalIffNoMoves(b: Board)
    ensures Terminal(b) <==> Winner(b) != Empty || Actions(b) == {}
  {
    ActionsByScan(b);
    CountBoardZero(b, Empty);
  }

  /** Since a finished board keeps its empty cells as moves, a finished
      board with an empty cell has been won and still offers moves. */
  lemma FinishedBoardKeepsMoves(b: Board)
    requires Terminal(b) && CountBoard(b, Empty) > 0
    ensures Winner(b) != Empty
    ensures Actions(b) != {}
  {
    ActionsByScan(b);
    CountBoardZero(b, Empty);
  }
}
