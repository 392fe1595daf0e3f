# Tic-tac-toe decision engine in Dafny

This project models the board-state and decision core of a small
tic-tac-toe player (`tictactoe.py`). A board is three rows of three
cells. Each cell is empty or holds X or O. The engine is a handful of pure
queries and one move chooser:

- `initial_state`, modelled as `BoardModel.InitialState`;
- `player`, modelled as `StateInspector.Player`;
- `actions`, modelled as `StateInspector.Actions`;
- `result`, modelled as `MoveApplicator.Result`;
- `winner`, modelled as `StateInspector.Winner`, which scans with `WinnerFrom`;
- `terminal`, modelled as `StateInspector.Terminal`;
- `utility`, modelled as `StateInspector.Utility`;
- the line helper `possible_tic_tac_toe_lines`, modelled as `LineEnumerator.Lines`;
- `minimax`, modelled as `DecisionEngine.Minimax`.

`tictactoe.py` is one flat file of top-level functions. The model groups
them by role into five modules:

| file | module | what it holds |
|---|---|---|
| `board.dfy` | `BoardModel` | `initial_state`; cells and boards; counting marks (the tallies of `player`'s loop and the `Counter` calls in `winner` and `terminal`); writing one cell of a copy (the assignment inside `result`) |
| `lines.dfy` | `LineEnumerator` | `possible_tic_tac_toe_lines`: the eight lines in their fixed order |
| `state.dfy` | `StateInspector` | `winner`, `terminal`, `utility`, `player`, `actions` |
| `moves.dfy` | `MoveApplicator` | `result`; playing a sequence of moves from the start |
| `search.dfy` | `DecisionEngine` | `minimax` and what its choice prefers |

The model follows the code literally. Three behaviours of the code are
at odds with the code's own checks:

1. **Moves on a finished board.** `actions` starts with the early exit
   `if board == terminal(board=board):` followed by `return None`
   (tictactoe.py:63-64). It is meant to give no moves on a finished board,
   but it compares the board with a boolean and so never fires. A finished board still offers its
   empty cells as moves; see `StateInspector.FinishedBoardKeepsMoves`.
2. **Applying a move to a finished board.** `result` rejects only moves
   outside `actions(board)` (tictactoe.py:81-82), and `player` answers
   `None` on a finished board (tictactoe.py:30-31). `None` is the empty
   cell. So `result` on a won board with an empty cell passes the check,
   writes "empty" onto that cell and returns the same board instead of
   failing; see `MoveApplicator.ResultOnFinishedBoard`.
3. **The move choice is a fixed two-ply look-ahead**, whoever is to move.
   - Each legal first move is scored by the largest utility any reply
     reaches.
   - A first move with the smallest score is returned.
   - A first move that ends the game with empty cells left scores that
     board's own utility, because every reply writes "empty" and changes
     nothing.
   - A move that fills the last cell scores minus infinity. It is then the
     only legal move, so this score never decides between moves.
   - A move that wins for X with an empty cell left scores 1, the largest
     score possible. So with X to move, the engine declines such a win
     whenever another move scores lower. `DecisionEngine.DeclinesImmediateWin`
     proves this on a concrete board.
   - From the empty board every first move scores 0, so the model leaves
     any of the nine open.

A board with one legal move is searched like any other, and
`DecisionEngine.Minimax`'s contract forces that move.

Python's `None` for "no player" and "no winner" is the cell value `Empty`.
This is how the code uses it (`EMPTY = None`). The floating-point
sentinels `-math.inf` and `math.inf` are the `Score` values `NegInf` and
`PosInf`. The engine iterates over Python sets in an unspecified order.
The model therefore picks elements with `:|`, and its contracts hold for
every order.

## Model

| member | source | states |
|---|---|---|
| `BoardModel.InitialState` | tictactoe.py:13-19 | every one of the nine cells of the starting board is empty |
| `BoardModel.InitialCounts` | tictactoe.py:13-19 | the starting board has nine empty cells and no X or O |
| `BoardModel.CountTriple` | tictactoe.py:100-102 | the count of a mark in a line of three is the number of its positions holding that mark |
| `BoardModel.CountBoardByRows` | tictactoe.py:120-121 | the board-wide count is the sum of the per-row counts, as the game-over function adds them |
| `BoardModel.CountZero` | tictactoe.py:121-123 | a row counts a value zero times exactly when no cell of it holds that value |
| `BoardModel.CountBoardZero` | tictactoe.py:117-124 | the empty-cell total is zero exactly when no cell of the board is empty |
| `BoardModel.CountPartition` | tictactoe.py:42-47 | every cell of a row is empty, X or O, so the three counts add up to the row length |
| `BoardModel.CountBoardPartition` | tictactoe.py:42-47 | empty, X and O counts of a board add up to nine |
| `BoardModel.CountUpdate` | tictactoe.py:87 | overwriting one cell moves one unit of count from the old value to the new one |
| `BoardModel.CountBoardUpdate` | tictactoe.py:86-87 | writing one cell of a copied board changes the board counts in the same way |
| `BoardModel.PlaceCells` | tictactoe.py:86-87 | the copy with one cell written differs from the input at that cell only |
| `BoardModel.PlaceSame` | tictactoe.py:86-87 | writing the value a cell already holds gives back an equal board |
| `BoardModel.PlaceCounts` | tictactoe.py:86-87 | marking an empty cell uses one empty cell, adds one mark of that kind and leaves the other mark's count alone |
| `LineEnumerator.Lines` | tictactoe.py:194-219 | there are eight lines of three cells each |
| `LineEnumerator.LinesFollowGeometry` | tictactoe.py:200-217 | line k at position t is the board cell at fixed coordinates (rows, then columns top to bottom, then the primary diagonal `(i,i)`, then the secondary `(i,2-i)`), and a line's three cells are distinct |
| `StateInspector.CountThreeIsFull` | tictactoe.py:99-103 | a line counts a mark three times exactly when the mark fills it |
| `StateInspector.WinnerFromScans` | tictactoe.py:96-105 | scanning lines in order from k: empty exactly when no line from k on is filled; otherwise the mark that fills the first filled line |
| `StateInspector.WinnerIsFirstOwnedLine` | tictactoe.py:92-105 | the winner is `Empty` exactly when every line is open, and otherwise the mark filling the first filled line |
| `StateInspector.Terminal` | tictactoe.py:109-127 | the game is over exactly when there is a winner or no cell is empty |
| `StateInspector.TerminalIffNoMoves` | tictactoe.py:109-127 | the game is over exactly when there is a winner or no legal move is left |
| `StateInspector.Utility` | tictactoe.py:132-141 | the utility is 1 exactly when X has won, -1 exactly when O has won, 0 exactly when nobody has |
| `StateInspector.Player` | tictactoe.py:22-52 | nobody (`Empty`) is to move exactly when the game is over; otherwise O exactly when X has more marks, X exactly when it does not |
| `StateInspector.RowActions` | tictactoe.py:67-69 | the scan of one row from column j collects exactly its empty cells, one move per empty cell |
| `StateInspector.BoardActions` | tictactoe.py:66-70 | the scan of rows i.. collects exactly their empty cells, as many moves as empty cells |
| `StateInspector.ActionsAreEmptyCells` | tictactoe.py:57-70 | a move is legal exactly when it is in range and its cell is empty |
| `StateInspector.ActionsByScan` | tictactoe.py:66-70 | the nested scan yields exactly the legal-move set (every legal move is found and every move found is legal), whose size is the number of empty cells |
| `StateInspector.InitialStateFacts` | tictactoe.py:30-40 | the starting board has nine legal moves and no winner, is not finished, and X is to move |
| `StateInspector.FewMarksNoWinner` | tictactoe.py:96-105 | when neither mark occurs three times, there is no winner |
| `StateInspector.OwnedLineCounts` | tictactoe.py:99-103 | a filled line puts at least three of its mark on the board |
| `StateInspector.FewerThanFiveMarksNoWinner` | tictactoe.py:92-105 | with turns alternating, fewer than five marks cannot contain a win |
| `StateInspector.FinishedBoardKeepsMoves` | tictactoe.py:63-70 | a finished board with an empty cell has a winner and still offers moves |
| `MoveApplicator.Result` | tictactoe.py:75-89 | a move fails exactly when it is not legal, equivalently when it is out of range or its cell is occupied |
| `MoveApplicator.ResultCells` | tictactoe.py:84-89 | a legal move changes only its own cell, to the mark of the player to move |
| `MoveApplicator.ResultCounts` | tictactoe.py:84-89 | on an unfinished board a move removes one empty cell and one legal move, adds one mark of the mover and none of the other |
| `MoveApplicator.ResultKeepsBalance` | tictactoe.py:49-52 | a move keeps X level with O or one ahead |
| `MoveApplicator.ResultOnFinishedBoard` | tictactoe.py:75-89 | on a finished board a move fails or returns the same board |
| `MoveApplicator.UnfinishedBefore` | tictactoe.py:29-31 | a move that reaches an unfinished board started from an unfinished one |
| `MoveApplicator.PlayCounts` | tictactoe.py:42-52 | an unfinished board reached after n moves from the start holds ceil(n/2) X, floor(n/2) O and 9-n empty cells |
| `MoveApplicator.PlayerAlternates` | tictactoe.py:39-52 | along any play the player to move alternates X, O, X, ... with the number of moves made |
| `MoveApplicator.PlayBalanced` | tictactoe.py:75-89 | every board reachable from the start by legal moves, finished or not, has X level with O or one mark ahead |
| `DecisionEngine.MaxOf` | tictactoe.py:167-175 | the maximum over a set of replies is minus infinity exactly for the empty set, is reached by some reply, and is at least every reply's utility |
| `DecisionEngine.MaxReply` | tictactoe.py:167-175 | the inner loop, in whatever order it visits the replies, returns the best reply: the largest reply utility, reached by some reply and at least every other, or minus infinity when there is no reply |
| `DecisionEngine.MoveScoreOf` | tictactoe.py:161-175 | the score computed for one first move is its best reply |
| `DecisionEngine.ScoreFirstMoves` | tictactoe.py:158-177 | every legal first move is paired with its score, and nothing else is |
| `DecisionEngine.PickMin` | tictactoe.py:179-188 | on a non-empty table with no infinite score, the scan from plus infinity returns one of the scored moves whose score is at most every score |
| `DecisionEngine.Minimax` | tictactoe.py:146-188 | no move exactly on a finished board; otherwise a legal move whose score is at most every legal move's score |
| `DecisionEngine.ScoreIsFinite` | tictactoe.py:179-184 | no first move scores plus infinity, so the first move examined replaces the start value |
| `DecisionEngine.NotFinishedHasMoves` | tictactoe.py:150-158 | an unfinished board has a legal first move, so a choice always exists |
| `DecisionEngine.BestReplyRange` | tictactoe.py:167-175 | the best reply is minus infinity exactly when the board is full, and otherwise a utility between -1 and 1 |
| `DecisionEngine.FinishedBoardReply` | tictactoe.py:172 | every reply on a finished board leaves it unchanged |
| `DecisionEngine.BestReplyOnFinished` | tictactoe.py:161-175 | on a finished board with an empty cell the best reply is the board's own utility |
| `DecisionEngine.WinForXScoresTop` | tictactoe.py:161-177 | a first move that wins for X with a cell to spare scores 1, at least every other first move |
| `DecisionEngine.WinForXNotChosen` | tictactoe.py:179-186 | such a winning move is never minimal when some other move scores below 1 |
| `DecisionEngine.LastCellScoresBottom` | tictactoe.py:167-175 | a first move that fills the last cell scores minus infinity and is the only legal move |
| `DecisionEngine.LastCellIsOnlyMove` | tictactoe.py:57-89 | a move that leaves no empty cell was the only legal move of the board it was played on |
| `DecisionEngine.LastCellUnfinished` | tictactoe.py:75-89 | the board a last-cell move is played on is not finished |
| `DecisionEngine.OpeningMove` | tictactoe.py:75-89 | after the opening move the board holds one X, no O, eight empty cells, is unfinished, and O is to move |
| `DecisionEngine.OpeningReplyTies` | tictactoe.py:172-174 | every reply to the opening move has utility 0 |
| `DecisionEngine.OpeningMovesTie` | tictactoe.py:146-188 | on the starting board every first move scores 0, so all nine tie |
| `DecisionEngine.OReplyKeepsXLines` | tictactoe.py:84-89 | a reply by O cannot make X own a line that X did not own |
| `DecisionEngine.OReplyNoXWin` | tictactoe.py:167-174 | with O to move and no winner, no reply reaches utility 1 |
| `DecisionEngine.BestReplyOnOTurn` | tictactoe.py:167-175 | with O to move and no winner, the best reply is at most 0 |
| `DecisionEngine.DeclinesImmediateWin` | tictactoe.py:146-188 | on the board `X X _ / O O _ / _ _ _`, with X to move, the winning move (0,2) scores above the blocking move (1,2), so it is not chosen |

## Left out

- The interactive driver (rendering, input, the game loop) lives outside the core and is not modelled.
- Python's `Counter`, `copy.deepcopy` and set hashing are replaced by the recursive counts, sequence update and Dafny sets of the model.
- The exception `result` raises is the `None` outcome of `MoveApplicator.Result`; its message text is not modelled.
- The floats `-math.inf` and `math.inf` are modelled as the `Score` values `NegInf` and `PosInf`; no other float arithmetic occurs.
- Which of several tied first moves `minimax` returns depends on set iteration order, so `DecisionEngine.Minimax` leaves the tie open.
- The code would also run on boards of other shapes or with other cell values. Such malformed boards are not modelled: `Board` is three rows of three cells by construction, which is the code's unchecked assumption.
- DecisionEngine.PickMin: requires a non-empty table. On an empty `action_value_map` the engine never binds `optimal_action` and fails with an unbound-variable error; `DecisionEngine.Minimax` never reaches that case (`DecisionEngine.NotFinishedHasMoves`), so the failure is not modelled.
- The engine's `action_value_map` is a set of (move, score) pairs. Since moves are distinct, the model keeps it as a map from move to score.
- LineEnumerator.Lines: its contract gives only the shape; the position of each cell in each line is stated by the lemma `LinesFollowGeometry`.
- StateInspector.Actions: the set itself carries no contract; its meaning is stated by `ActionsAreEmptyCells` and `ActionsByScan`.
