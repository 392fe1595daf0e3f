/** Applying a move, and playing a sequence of moves from the start. */
module MoveApplicator {
  import opened BoardModel
  import opened StateInspector

  /** The board after move `a`, or `None` (the engine raises) when `a` is
      not a legal move. The mover's mark is whatever `Player` says, which on
      a finished board is `Empty`. The input board is a value and is never
      changed. */
  function Result(b: Board, a: Move): (r: Option<Board>)
    ensures r.None? <==> a !in Actions(b)
    ensures r.None? <==> !InRange(a) || b[a.0][a.1] != Empty
  {
    if a !in Actions(b) then None
    else
      assert InRange(a);
      Some(Place(b, a, Player(b)))
  }

  /** A legal move yields a board equal to the input at every cell except
      `a`, which holds the mover's mark. */
  lemma ResultCells(b: Board, a: Move)
    requires a in Actions(b)
    ensures Result(b, a).Some?
    ensures forall i, j :: 0 <= i < 3 && 0 <= j < 3 ==>
      Result(b, a).value[i][j] == (if i == a.0 && j == a.1 then Player(b) else b[i][j])
  {
    PlaceCells(b, a, Player(b));
  }

  /** The board after a legal move. */
  function Apply(b: Board, a: Move): Board
    requires a in Actions(b)
  {
    Result(b, a).value
  }

  /** On an unfinished board a legal move turns one empty cell into the
      mover's mark and leaves the other mark's count alone. */
  lemma ResultCounts(b: Board, a: Move)
    requires !Terminal(b) && a in Actions(b)
    ensures CountBoard(Apply(b, a), Empty) == CountBoard(b, Empty) - 1
    ensures |Actions(Apply(b, a))| == |Actions(b)| - 1
    ensures CountBoard(Apply(b, a), Player(b)) == CountBoard(b, Player(b)) + 1
    ensures Player(b) == X ==> CountBoard(Apply(b, a), O) == CountBoard(b, O)
    ensures Player(b) == O ==> CountBoard(Apply(b, a), X) == CountBoard(b, X)
  {
    var p := Player(b);
    var b' := Apply(b, a);
    assert b' == Place(b, a, p);
    PlaceCounts(b, a, p, if p == X then O else X);
    ActionsByScan(b);
    ActionsByScan(b');
  }

  /** A legal move on an unfinished board keeps X at most one mark ahead of O. */
  lemma ResultKeepsBalance(b: Board, a: Move)
    requires !Terminal(b) && a in Actions(b) && Balanced(b)
    ensures Balanced(Apply(b, a))
  {
    ResultCounts(b, a);
  }

  /** On a finished board the mover is `Empty`, so a move either fails or
      writes `Empty` onto an empty cell and returns the board unchanged. */
  lemma ResultOnFinishedBoard(b: Board, a: Move)
    requires Terminal(b)
    ensures Result(b, a) == None || Result(b, a) == Some(b)
  {
    if a in Actions(b) {
      PlaceSame(b, a, Empty);
    }
  }

  /** The board reached by playing `moves` in order from the start, or
      `None` once a move is illegal. */
  function Play(moves: seq<Move>): Option<Board>
    decreases |moves|
  {
    if |moves| == 0 then Some(InitialState())
    else
      match Play(moves[..|moves| - 1])
      case None => None
      case Some(b) => Result(b, moves[|moves| - 1])
  }

  /** An unfinished board reached after n moves holds ceil(n/2) X marks,
      floor(n/2) O marks and 9 - n empty cells; every board on the way was
      unfinished too. */
  lemma {:induction false} PlayCounts(moves: seq<Move>, b: Board)
    requires Play(moves) == Some(b) && !Terminal(b)
    ensures CountBoard(b, X) == (|moves| + 1) / 2
    ensures CountBoard(b, O) == |moves| / 2
    ensures CountBoard(b, Empty) == 9 - |moves|
  {
    if |moves| == 0 {
      InitialCounts();
    } else {
      var prefix := moves[..|moves| - 1];
      var a := moves[|moves| - 1];
      PlayLastStep(moves, b);
      var b0 := Play(prefix).value;
      UnfinishedBefore(b0, a, b);
      PlayCounts(prefix, b0);
      StepCounts(|prefix|, b0, a);
    }
  }

  /** A play that reaches `b` got there by one legal move from the play of its prefix. */
  lemma PlayLastStep(moves: seq<Move>, b: Board)
    requires Play(moves) == Some(b) && |moves| > 0
    ensures Play(moves[..|moves| - 1]).Some?
    ensures moves[|moves| - 1] in Actions(Play(moves[..|moves| - 1]).value)
    ensures Apply(Play(moves[..|moves| - 1]).value, moves[|moves| - 1]) == b
  {
  }

  /** Finished boards are absorbing: a move that reaches an unfinished
      board started from an unfinished one. */
  lemma UnfinishedBefore(b0: Board, a: Move, b: Board)
    requires Result(b0, a) == Some(b) && !Terminal(b)
    ensures !Terminal(b0)
  {
    if Terminal(b0) {
      ResultOnFinishedBoard(b0, a);
      assert false;
    }
  }

  /** Along any play from the start, the player to move on an unfinished
      board alternates X, O, X, ... with the number of moves made. */
  lemma {:induction false} PlayerAlternates(moves: seq<Move>, b: Board)
    requires Play(moves) == Some(b) && !Terminal(b)
    ensures Player(b) == (if |moves| % 2 == 0 then X else O)
    ensures Balanced(b)
  {
    PlayCounts(moves, b);
    PlayerByParity(|moves|, b);
  }

  /** Every board reachable from the start, finished or not, has X level
      with O or one mark ahead. */
  lemma {:induction false} PlayBalanced(moves: seq<Move>, b: Board)
    requires Play(moves) == Some(b)
    ensures Balanced(b)
  {
    if |moves| == 0 {
      InitialCounts();
    } else {
      var prefix := moves[..|moves| - 1];
      var a := moves[|moves| - 1];
      PlayLastStep(moves, b);
      var b0 := Play(prefix).value;
      PlayBalanced(prefix, b0);
      if Terminal(b0) {
        ResultOnFinishedBoard(b0, a);
      } else {
        ResultKeepsBalance(b0, a);
      }
    }
  }

  /** One more legal move on an unfinished board reached after n moves. */
  lemma StepCounts(n: nat, b: Board, a: Move)
    requires !Terminal(b) && a in Actions(b)
    requires CountBoard(b, X) == (n + 1) / 2 && CountBoard(b, O) == n / 2
    requires CountBoard(b, Empty) == 9 - n
    ensures CountBoard(Apply(b, a), X) == (n + 2) / 2
    ensures CountBoard(Apply(b, a), O) == (n + 1) / 2
    ensures CountBoard(Apply(b, a), Empty) == 9 - (n + 1)
  {
    PlayerByParity(n, b);
    ResultCounts(b, a);
  }

  /** With ceil(n/2) X and floor(n/2) O marks, X moves after an even number of moves. */
  lemma PlayerByParity(n: nat, b: Board)
    requires !Terminal(b)
    requires CountBoard(b, X) == (n + 1) / 2 && CountBoard(b, O) == n / 2
    ensures Player(b) == (if n % 2 == 0 then X else O)
    ensures Balanced(b)
  {
  }
}
