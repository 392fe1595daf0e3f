/** The engine's move choice: a fixed two-ply look-ahead. Each legal first
    move is scored by the largest utility any reply can reach, and a first
    move with the smallest score is returned, whichever player is to move. */
module DecisionEngine {
  import opened BoardModel
  import opened LineEnumerator
  import opened StateInspector
  import opened MoveApplicator

  /** Utilities extended with the engine's infinite start values. */
  datatype Score = NegInf | Fin(v: int) | PosInf

  /** Strict order on scores: NegInf below every utility, PosInf above. */
  predicate Less(s: Score, t: Score) {
    match (s, t)
    case (NegInf, NegInf) => false
    case (NegInf, _) => true
    case (Fin(a), Fin(c)) => a < c
    case (Fin(_), PosInf) => true
    case (_, _) => false
  }

  /** Non-strict order on scores. */
  predicate AtMost(s: Score, t: Score) {
    !Less(t, s)
  }

  /** The utility each reply from `b1` reaches, keyed by the reply. */
  function ReplyTable(b1: Board): (t: map<Move, int>)
    ensures t.Keys == Actions(b1)
  {
    map r | r in Actions(b1) :: Utility(Apply(b1, r))
  }

  /** `s` is the largest value `t` gives the moves `rs`, and NegInf exactly
      when `rs` is empty. */
  predicate IsMaxOf(t: map<Move, int>, rs: set<Move>, s: Score)
    requires rs <= t.Keys
  {
    && (s == NegInf <==> rs == {})
    && (s != NegInf ==> exists r :: r in rs && s == Fin(t[r]))
    && (forall r :: r in rs ==> AtMost(Fin(t[r]), s))
  }

  /** The largest value over `rs`, taken in no particular order. */
  ghost function MaxOf(t: map<Move, int>, rs: set<Move>): (s: Score)
    requires rs <= t.Keys
    decreases rs
    ensures IsMaxOf(t, rs, s)
  {
    if rs == {} then NegInf
    else
      var r :| r in rs;
      var rest := MaxOf(t, rs - {r});
      var u := Fin(t[r]);
      if Less(rest, u) then u else rest
  }

  /** The largest value over a set is determined by the set. */
  lemma MaxOfUnique(t: map<Move, int>, rs: set<Move>, s: Score, s': Score)
    requires rs <= t.Keys
    requires IsMaxOf(t, rs, s) && IsMaxOf(t, rs, s')
    ensures s == s'
  {
  }

  /** The largest utility any reply on `b1` reaches, or NegInf when no
      reply is left. */
  ghost function BestReply(b1: Board): Score
  {
    MaxOf(ReplyTable(b1), Actions(b1))
  }

  /** The score of first move `a`: the best reply to it. */
  ghost function MoveScore(b: Board, a: Move): Score
    requires a in Actions(b)
  {
    BestReply(Apply(b, a))
  }

  /** Taking one more value, `r` from the values still to visit, into
      account keeps the running maximum over the values visited. */
  lemma MaxStep(t: map<Move, int>, todo: set<Move>, s: Score, r: Move)
    requires todo <= t.Keys && r in todo
    requires IsMaxOf(t, t.Keys - todo, s)
    ensures IsMaxOf(t, t.Keys - (todo - {r}), if Less(s, Fin(t[r])) then Fin(t[r]) else s)
  {
    assert t.Keys - (todo - {r}) == (t.Keys - todo) + {r};
  }

  /** The utility reached by reply `r`, as the table records it. */
  method ReplyUtility(b1: Board, r: Move) returns (u: int)
    requires r in Actions(b1)
    ensures -1 <= u <= 1
    ensures u == ReplyTable(b1)[r]
  {
    u := Utility(Apply(b1, r));
  }

  /** The inner loop: runs over the replies in arbitrary order, keeping the
      largest utility seen, starting below every utility. */
  method MaxReply(b1: Board) returns (s: Score)
    ensures s == BestReply(b1)
  {
    ghost var t := ReplyTable(b1);
    s := NegInf;
    var todo := Actions(b1);
    while todo != {}
      invariant todo <= t.Keys
      invariant IsMaxOf(t, t.Keys - todo, s)
      decreases todo
    {
      var r :| r in todo;
      var u := ReplyUtility(b1, r);
      MaxStep(t, todo, s, r);
      if Less(s, Fin(u)) {
        s := Fin(u);
      }
      todo := todo - {r};
    }
    assert t.Keys - todo == Actions(b1);
    MaxOfUnique(t, Actions(b1), s, MaxOf(t, Actions(b1)));
  }

  /** The score of one first move, computed by the inner loop on the board
      that move produces. */
  method MoveScoreOf(b: Board, a: Move) returns (s: Score)
    requires a in Actions(b)
    ensures s == MoveScore(b, a)
  {
    s := MaxReply(Apply(b, a));
  }

  /** The first loop of the engine's choice: pairs every legal first move
      with its score. */
  method ScoreFirstMoves(b: Board) returns (scores: map<Move, Score>)
    ensures scores.Keys == Actions(b)
    ensures forall a :: a in scores ==> scores[a] == MoveScore(b, a)
  {
    scores := map[];
    var todo := Actions(b);
    while todo != {}
      invariant todo <= Actions(b)
      invariant scores.Keys == Actions(b) - todo
      invariant forall a :: a in scores ==> scores[a] == MoveScore(b, a)
      decreases todo
    {
      var a :| a in todo;
      var best := MoveScoreOf(b, a);
      VisitOne(scores.Keys, Actions(b), todo, a);
      scores := scores[a := best];
      todo := todo - {a};
    }
  }

  /** Moving one element from the sets still to visit to the visited ones. */
  lemma VisitOne(visited: set<Move>, all: set<Move>, todo: set<Move>, a: Move)
    requires todo <= all && visited == all - todo && a in todo
    ensures visited + {a} == all - (todo - {a})
  {
  }

  /** The second loop: runs over the scored moves in arbitrary order and
      keeps a move whenever its score is strictly below the best so far,
      starting above every score. The engine binds its answer only inside
      the loop, so an empty map is outside what it handles. */
  method PickMin(scores: map<Move, Score>) returns (optimal: Move)
    requires scores != map[]
    requires forall a :: a in scores ==> scores[a] != PosInf
    ensures optimal in scores
    ensures forall a :: a in scores ==> AtMost(scores[optimal], scores[a])
  {
    var min := PosInf;
    var chosen: Option<Move> := None;
    var left := scores.Keys;
    while left != {}
      invariant left <= scores.Keys
      invariant chosen.None? <==> left == scores.Keys
      invariant chosen.None? ==> min == PosInf
      invariant chosen.Some? ==> chosen.value in scores.Keys - left && min == scores[chosen.value]
      invariant forall a :: a in scores.Keys - left ==> AtMost(min, scores[a])
      decreases left
    {
      var a :| a in left;
      if Less(scores[a], min) {
        min := scores[a];
        chosen := Some(a);
      }
      left := left - {a};
    }
    optimal := chosen.value;
  }

  /** The engine's choice: `None` on a finished board; otherwise a legal
      move whose score is no larger than any other legal move's score.
      Which of several tied moves comes back depends on set iteration
      order, so it is left open. */
  method Minimax(b: Board) returns (choice: Option<Move>)
    ensures choice.None? <==> Terminal(b)
    ensures choice.Some? ==> choice.value in Actions(b)
    ensures choice.Some? ==>
      forall a :: a in Actions(b) ==> AtMost(MoveScore(b, choice.value), MoveScore(b, a))
  {
    if Terminal(b) {
      return None;
    }
    var scores := ScoreFirstMoves(b);
    forall a | a in scores
      ensures scores[a] != PosInf
    {
      ScoreIsFinite(b, a);
    }
    NotFinishedHasMoves(b);
    assert scores != map[] by {
      var a :| a in Actions(b);
      assert a in scores.Keys;
    }
    var best := PickMin(scores);
    choice := Some(best);
  }

  /** No first move scores PosInf, so the first move examined always
      replaces the start value. */
  lemma ScoreIsFinite(b: Board, a: Move)
    requires a in Actions(b)
    ensures MoveScore(b, a) != PosInf
  {
    BestReplyRange(Apply(b, a));
  }

  /** An unfinished board has an empty cell and so a legal move. */
  lemma NotFinishedHasMoves(b: Board)
    requires !Terminal(b)
    ensures Actions(b) != {}
  {
    ActionsByScan(b);
    CountBoardZero(b, Empty);
  }

  /** The best reply is NegInf exactly on a full board, and otherwise one
      of the three utilities. */
  lemma BestReplyRange(b1: Board)
    ensures BestReply(b1) == NegInf <==> CountBoard(b1, Empty) == 0
    ensures BestReply(b1) != NegInf ==> exists u :: -1 <= u <= 1 && BestReply(b1) == Fin(u)
  {
    BestReplyEmpty(b1);
    var t := ReplyTable(b1);
    var s := BestReply(b1);
    if s != NegInf {
      var r :| r in Actions(b1) && s == Fin(t[r]);
      ReplyInRange(b1, r);
    }
  }

  /** No reply is left exactly when no cell is empty. */
  lemma BestReplyEmpty(b1: Board)
    ensures BestReply(b1) == NegInf <==> CountBoard(b1, Empty) == 0
  {
    ActionsByScan(b1);
  }

  /** Every entry of the reply table is a utility. */
  lemma ReplyInRange(b1: Board, r: Move)
    requires r in Actions(b1)
    ensures -1 <= ReplyTable(b1)[r] <= 1
  {
  }

  /** Every reply on a finished board writes `Empty` onto an empty cell and
      leaves the board as it is. */
  lemma FinishedBoardReply(b1: Board, r: Move)
    requires Terminal(b1) && r in Actions(b1)
    ensures Apply(b1, r) == b1
  {
    ResultOnFinishedBoard(b1, r);
  }

  /** On a finished board that still has an empty cell, every reply scores
      the board's own utility, so the best reply is that utility. */
  lemma BestReplyOnFinished(b1: Board)
    requires Terminal(b1) && CountBoard(b1, Empty) > 0
    ensures BestReply(b1) == Fin(Utility(b1))
  {
    BestReplyRange(b1);
    var t := ReplyTable(b1);
    var s := BestReply(b1);
    var r :| r in Actions(b1) && s == Fin(t[r]);
    FinishedBoardReply(b1, r);
  }

  /** A first move that completes a line for X on a board with an empty
      cell left scores 1, the largest score there is: the minimising
      choice ranks X's immediate win last, even when X is the one to move. */
  lemma WinForXScoresTop(b: Board, a: Move)
    requires a in Actions(b)
    requires Winner(Apply(b, a)) == X && CountBoard(Apply(b, a), Empty) > 0
    ensures MoveScore(b, a) == Fin(1)
    ensures forall a' :: a' in Actions(b) ==> AtMost(MoveScore(b, a'), MoveScore(b, a))
  {
    BestReplyOnFinished(Apply(b, a));
    forall a' | a' in Actions(b)
      ensures AtMost(MoveScore(b, a'), Fin(1))
    {
      MoveScoreAtMostOne(b, a');
    }
  }

  /** No first move scores above 1. */
  lemma MoveScoreAtMostOne(b: Board, a: Move)
    requires a in Actions(b)
    ensures AtMost(MoveScore(b, a), Fin(1))
  {
    BestReplyRange(Apply(b, a));
  }

  /** Consequently such a winning move is never the engine's choice when
      some other first move scores below 1. */
  lemma WinForXNotChosen(b: Board, a: Move, a': Move)
    requires a in Actions(b) && a' in Actions(b)
    requires Winner(Apply(b, a)) == X && CountBoard(Apply(b, a), Empty) > 0
    requires Less(MoveScore(b, a'), Fin(1))
    ensures !AtMost(MoveScore(b, a), MoveScore(b, a'))
  {
    WinForXScoresTop(b, a);
  }

  /** A first move that fills the last empty cell leaves no reply, so it
      scores NegInf. Such a move is then the only legal move, so the NegInf
      score never decides between two moves. */
  lemma LastCellScoresBottom(b: Board, a: Move)
    requires a in Actions(b)
    requires CountBoard(Apply(b, a), Empty) == 0
    ensures MoveScore(b, a) == NegInf
    ensures Actions(b) == {a}
  {
    BestReplyRange(Apply(b, a));
    LastCellIsOnlyMove(b, a);
  }

  /** A move that fills the last empty cell was the board's only legal move:
      on a finished board the move would change nothing, and on an
      unfinished one it removes exactly one legal move. */
  lemma LastCellIsOnlyMove(b: Board, a: Move)
    requires a in Actions(b)
    requires CountBoard(Apply(b, a), Empty) == 0
    ensures Actions(b) == {a}
  {
    LastCellUnfinished(b, a);
    ResultCounts(b, a);
    ActionsByScan(Apply(b, a));
    SingletonSet(Actions(b), a);
  }

  /** The board a last-cell move is played on is not finished: a move on a
      finished board leaves it unchanged, so it would already be full, yet
      the move's cell is empty. */
  lemma LastCellUnfinished(b: Board, a: Move)
    requires a in Actions(b)
    requires CountBoard(Apply(b, a), Empty) == 0
    ensures !Terminal(b)
  {
    if Terminal(b) {
      ResultOnFinishedBoard(b, a);
      ActionsByScan(b);
      assert false;
    }
  }

  /** A set of one element that contains `a` is `{a}`. */
  lemma SingletonSet(s: set<Move>, a: Move)
    requires a in s && |s| == 1
    ensures s == {a}
  {
    assert |s - {a}| == 0;
  }

  /** After X's first mark the board holds one X, no O, eight empty cells,
      no winner, and O is to move. */
  lemma OpeningMove(a: Move)
    requires a in Actions(InitialState())
    ensures CountBoard(Apply(InitialState(), a), X) == 1
    ensures CountBoard(Apply(InitialState(), a), O) == 0
    ensures CountBoard(Apply(InitialState(), a), Empty) == 8
    ensures !Terminal(Apply(InitialState(), a))
    ensures Player(Apply(InitialState(), a)) == O
  {
    var b0 := InitialState();
    InitialStateFacts();
    InitialCounts();
    ResultCounts(b0, a);
    var b1 := Apply(b0, a);
    FewMarksNoWinner(b1);
    CountBoardZero(b1, Empty);
  }

  /** Any reply to the opening move leaves one mark of each kind and so
      no winner. */
  lemma OpeningReplyTies(a: Move, r: Move)
    requires a in Actions(InitialState())
    requires r in Actions(Apply(InitialState(), a))
    ensures Utility(Apply(Apply(InitialState(), a), r)) == 0
  {
    var b1 := Apply(InitialState(), a);
    OpeningMove(a);
    ResultCounts(b1, r);
    FewMarksNoWinner(Apply(b1, r));
  }

  /** From the starting board every first move scores 0: nobody can have
      won after two marks. All nine moves tie, and any of them may be the
      engine's choice. */
  lemma OpeningMovesTie(a: Move)
    requires a in Actions(InitialState())
    ensures MoveScore(InitialState(), a) == Fin(0)
  {
    var b1 := Apply(InitialState(), a);
    OpeningMove(a);
    BestReplyRange(b1);
    var t := ReplyTable(b1);
    var s := BestReply(b1);
    var r :| r in Actions(b1) && s == Fin(t[r]);
    OpeningReplyTies(a, r);
  }

  /** An O reply cannot complete a line for X: a line X does not own
      before the reply, X does not own after it. */
  lemma OReplyKeepsXLines(b1: Board, r: Move, k: int)
    requires r in Actions(b1) && Player(b1) == O && 0 <= k < 8
    requires !Owns(b1, k, X)
    ensures !Owns(Apply(b1, r), k, X)
  {
    var b2 := Apply(b1, r);
    var t :| 0 <= t < 3 && Lines(b1)[k][t] != X;
    ResultCells(b1, r);
    LinesFollowGeometry(b1, k, t);
    LinesFollowGeometry(b2, k, t);
    assert Lines(b2)[k][t] != X;
  }

  /** With O to move and no winner yet, no reply makes X the winner. */
  lemma OReplyNoXWin(b1: Board, r: Move)
    requires r in Actions(b1) && Player(b1) == O && Winner(b1) == Empty
    ensures Utility(Apply(b1, r)) <= 0
  {
    var b2 := Apply(b1, r);
    WinnerIsFirstOwnedLine(b1);
    forall k | 0 <= k < 8
      ensures !Owns(b2, k, X)
    {
      assert Open(b1, k);
      OReplyKeepsXLines(b1, r, k);
    }
    WinnerIsFirstOwnedLine(b2);
  }

  /** With O to move and no winner yet, the best reply is at most 0. */
  lemma BestReplyOnOTurn(b1: Board)
    requires Player(b1) == O && Winner(b1) == Empty
    ensures AtMost(BestReply(b1), Fin(0))
  {
    var t := ReplyTable(b1);
    var s := BestReply(b1);
    if s != NegInf {
      var r :| r in Actions(b1) && s == Fin(t[r]);
      OReplyNoXWin(b1, r);
    }
  }

  /** X to move, with a line ready at the top right. */
  const ReadyForX: Board := [[X, X, Empty], [O, O, Empty], [Empty, Empty, Empty]]

  /** `ReadyForX` after X blocks at (1, 2). */
  const Blocked: Board := [[X, X, Empty], [O, O, X], [Empty, Empty, Empty]]

  /** On `ReadyForX` nobody has won, five cells are open, and X is to move. */
  lemma ReadyForXState()
    ensures Winner(ReadyForX) == Empty && !Terminal(ReadyForX)
    ensures Player(ReadyForX) == X
    ensures (0, 2) in Actions(ReadyForX) && (1, 2) in Actions(ReadyForX)
  {
    var b := ReadyForX;
    assert CountBoard(b, X) == 2 && CountBoard(b, O) == 2;
    FewMarksNoWinner(b);
    assert b[0][2] == Empty && b[1][2] == Empty;
  }

  /** Taking (0, 2) completes the top row for X and leaves four cells open. */
  lemma ReadyForXWins()
    ensures (0, 2) in Actions(ReadyForX)
    ensures Winner(Apply(ReadyForX, (0, 2))) == X
    ensures CountBoard(Apply(ReadyForX, (0, 2)), Empty) == 4
  {
    var b := ReadyForX;
    ReadyForXState();
    var won := Apply(b, (0, 2));
    assert won == Place(b, (0, 2), X);
    assert b[0][2 := X] == [X, X, X];
    assert won == [[X, X, X], [O, O, Empty], [Empty, Empty, Empty]];
  }

  /** `Blocked` has no winner, and O is to move. */
  lemma BlockedState()
    ensures Winner(Blocked) == Empty
    ensures Player(Blocked) == O
  {
    var ls := Lines(Blocked);
    assert ls == [[X, X, Empty], [O, O, X], [Empty, Empty, Empty],
                  [X, O, Empty], [X, O, Empty], [Empty, X, Empty],
                  [X, O, Empty], [Empty, O, Empty]];
    forall k | 0 <= k < 8
      ensures Open(Blocked, k)
    {
      assert ls[k][0] != ls[k][1] || ls[k][1] != ls[k][2] || ls[k][0] == Empty;
    }
    WinnerIsFirstOwnedLine(Blocked);
    assert CountBoard(Blocked, Empty) == 4;
  }

  /** Taking (1, 2) instead blocks O, wins nothing, and hands the turn to O. */
  lemma ReadyForXBlocks()
    ensures (1, 2) in Actions(ReadyForX)
    ensures Apply(ReadyForX, (1, 2)) == Blocked
  {
    var b := ReadyForX;
    ReadyForXState();
    assert Apply(b, (1, 2)) == Place(b, (1, 2), X);
    assert b[1][2 := X] == [O, O, X];
  }

  /** On `ReadyForX` the winning move (0, 2) scores 1 and blocking at (1, 2)
      scores at most 0, so the engine, minimising, never returns X's win. */
  lemma DeclinesImmediateWin()
    ensures Player(ReadyForX) == X
    ensures (0, 2) in Actions(ReadyForX) && (1, 2) in Actions(ReadyForX)
    ensures Winner(Apply(ReadyForX, (0, 2))) == X
    ensures !AtMost(MoveScore(ReadyForX, (0, 2)), MoveScore(ReadyForX, (1, 2)))
  {
    ReadyForXState();
    ReadyForXWins();
    ReadyForXBlocks();
    BlockedState();
    BestReplyOnOTurn(Blocked);
    WinForXNotChosen(ReadyForX, (0, 2), (1, 2));
  }
}
