# MatrixV2 games, modelled in Dafny

MatrixV2 drives an LED matrix panel and runs small games on it. This project
models the logic of those games and of the board-text helpers used by the
Connect-4 players, and proves properties of that logic:

- **Connect-4 rules** (`c4_common.dfy`): the 7 × 6 board stored column by
  column, bottom row first. It covers the first open row of a column, the
  draw test, Python's wrap-around indexing in the move check, and the
  four-in-a-row search.
- **Connect-4 players**: `c4_claude.dfy` is minimax with alpha-beta bounds
  that mutates one board and undoes its moves. `c4_chatgpt.dfy` is minimax
  over copies of the board with an immediate-win shortcut. `c4_shared.dfy`
  holds what both use: the place/undo step and the best-moves ranking loop.
- **Connect-4 game board** (`game.dfy`): the board object of the panel
  game.
- **Connect-4 board texts**:
  - `board2string.dfy`: the three console renderings.
  - `board2ai.dfy`: the long structured description a language model is
    given.
  - `c4_ollama.dfy`: the prompt built from a base text, and the parsing of
    the model's reply into a column.
  - `text.dfy`: the string helpers these need (join, split, strip, integer
    parsing, replace), stated as Python defines them.
- **Snake** (`snake_grid.dfy`, `snake_search.dfy`, `snake_rules.dfy`,
  `snake_game.dfy`): the playing field with obstacles, A* search, the move
  chooser of the self-playing snake, and the game object that moves, eats
  and grows.
- **Tic-tac-toe** (`ttt_rules.dfy`, `ttt_ai.dfy`): the rules, and the
  minimax move finder with its alpha-beta search.
- **Game of Life** (`gameoflife.dfy`): the grid object, neighbour counting
  and one generation step.
- **Maze** (`maze.dfy`, `maze_walker.dfy`): the depth-first maze carver
  (the maze is connected, odd cells are open, the border is walled) and
  the player who walks it.
- **Display** (`raster.dfy`, `display.dfy`): the drawing primitives of the
  panel: pixels, lines, rectangles, circles and the overlay.

Python values become Dafny values:

| Python | Dafny |
|---|---|
| `None` in a board | `Option` |
| a raised `IndexError`, `KeyError` or `ValueError` | the `Err` side of a `Result` |
| `float('inf')` scores | an extended integer |

Objects whose fields the source updates in place are classes. Randomness
becomes a choice Dafny cannot predict (`:|`) or a parameter.

## Model

| member | source | states |
|---|---|---|
| C4Common.FirstOpenFrom | tests/ChatGPT/c4_common.py:12-15 | the first empty cell at or above a row, and that every cell below it is occupied; None exactly when none is empty |
| C4Common.GetFirstOpenRow | tests/ChatGPT/c4_common.py:10-17 | IndexError exactly for a column outside 0..6; None exactly for a full column; otherwise the lowest empty row, with every row below it occupied |
| C4Common.OpenRow | tests/ChatGPT/c4_common.py:10-15 | for a column that is not full: an empty row, and the one GetFirstOpenRow returns |
| C4Common.DrawFrom | tests/ChatGPT/c4_common.py:21-24 | true iff every column from col on is full |
| C4Common.CheckForDraw | tests/ChatGPT/c4_common.py:20-24 | true iff GetFirstOpenRow gives None for every column, iff every cell holds a chip |
| C4Common.PyIndex | tests/ChatGPT/c4_common.py:28 | Python list indexing: indices -len..len-1 are accepted, negative ones count from the end; all others raise IndexError |
| C4Common.CheckForValidMove | tests/ChatGPT/c4_common.py:27-30 | on the board: whether the cell is empty; negative indices wrap around as in Python; IndexError exactly outside -7..6 × -6..5 |
| C4Common.DirectionIsUnit | tests/ChatGPT/c4_common.py:46-51 | each of the four directions is a unit step, not (0, 0) |
| C4Common.ExtendRun | tests/ChatGPT/c4_common.py:59-72 | one of the two while loops: appends exactly the run of the player's chips starting at the first cell and going in one direction |
| C4Common.CollectLine | tests/ChatGPT/c4_common.py:55-72 | the positions list of one direction is the start, then the forward run, then the backward run |
| C4Common.CheckForWinner | tests/ChatGPT/c4_common.py:35-79 | returns the winner specification's result: IndexError off the board, None when the cell is not the player's, else the first direction's line of at least four |
| C4Common.WalkOnRay | tests/ChatGPT/c4_common.py:59-72 | the cells a run visits are consecutive steps along its direction |
| C4Common.WalkHolds | tests/ChatGPT/c4_common.py:60 | every cell of a run is on the board and holds the player's chip |
| C4Common.WalkIsMaximal | tests/ChatGPT/c4_common.py:60 | the cell after a run is off the board or not the player's: the loop stopped at the first such cell |
| C4Common.WinnerFromSome | tests/ChatGPT/c4_common.py:53-79 | a line is returned iff some direction, from the current one on, has a run of at least four through the cell |
| C4Common.LineThroughLength | tests/ChatGPT/c4_common.py:55-72 | the positions list of a direction is as long as the run through the cell |
| C4Common.WinnerFromLine | tests/ChatGPT/c4_common.py:75-76 | a returned list has at least four positions and is the line through the cell in one of the directions |
| C4Common.WinnerErrors | tests/ChatGPT/c4_common.py:38-43 | IndexError exactly for a position off the board; None when the cell does not hold the player's chip |
| C4Common.JoinRuns | tests/ChatGPT/c4_common.py:55-72 | the start, the forward run and the backward run form one unbroken line through the cell |
| C4Common.LineThroughIsRun | tests/ChatGPT/c4_common.py:55-72 | the positions list of a direction is an unbroken line through the cell |
| C4Common.LineThroughHolds | tests/ChatGPT/c4_common.py:42-72 | when the cell is the player's, every position in its line holds the player's chip |
| C4Common.WinnerShape | tests/ChatGPT/c4_common.py:35-79 | a returned list starts at (col, row), has at least four positions, all holding the player's chip, and forms an unbroken line in one of the four directions |
| C4Common.WinnerNoneIff | tests/ChatGPT/c4_common.py:42-79 | on the board, None is returned iff the cell is not the player's or each of the four runs through it is shorter than four |
| C4Shared.Place | tests/Claude/c4_claude.py:27 | writing one cell changes that cell and no other |
| C4Shared.PlaceUndo | tests/Claude/c4_claude.py:27-33 | placing a chip in an empty cell and then writing None there restores the board |
| C4Shared.Opponent | tests/Claude/c4_claude.py:30 | 1 - player: the two players' numbers sum to 1 |
| C4Shared.Child | tests/ChatGPT/c4_chatgpt.py:45-50 | dropping a chip into an open column gives a well-formed board |
| C4Shared.Count | tests/Claude/c4_claude.py:196-198 | list.count: never more than the window's length |
| C4Shared.CountsFit | tests/Claude/c4_claude.py:196-198 | the counts of three different values together never exceed the window's length |
| C4Shared.CountAbsent | tests/Claude/c4_claude.py:196-198 | a value that does not occur counts zero |
| C4Shared.RankingStep | tests/Claude/c4_claude.py:36-40 | one iteration of the best-moves loop keeps its invariant: best_moves holds exactly the columns seen so far whose score equals best_score, none scores higher, and best_score stays -inf while the list is empty |
| C4Shared.RankingCorrect | tests/Claude/c4_claude.py:19-40 | after the loop, best_moves holds exactly the open columns, with their rows, whose score is the maximum; it is empty iff every column is full |
| C4Claude.GameBoard.constructor | tests/Claude/c4_claude.py:4 | wraps the board list that the search mutates |
| C4Claude.EvaluateWindowTable | tests/Claude/c4_claude.py:182-214 | the window score table: +100 for four AI chips, +10 for three and one empty, +2 for two and two empty, -80 for three opponent chips and one empty, -2 for two and two empty, 0 for every other window |
| C4Claude.Window | tests/Claude/c4_claude.py:150-172 | every window of the four families has four cells |
| C4Claude.ScoreFamily | tests/Claude/c4_claude.py:150-172 | the two nested loops of one window family add up exactly that family's window scores |
| C4Claude.EvaluateBoard | tests/Claude/c4_claude.py:133-179 | the sum of the four families' window scores plus 3 for each AI chip in the centre column |
| C4Claude.EmptyWindow | tests/Claude/c4_claude.py:182-214 | every window of an empty board scores 0 |
| C4Claude.NeutralInner | tests/Claude/c4_claude.py:150-172 | an inner window loop over windows that all score 0 adds 0 |
| C4Claude.NeutralOuter | tests/Claude/c4_claude.py:150-172 | an outer window loop over windows that all score 0 adds 0 |
| C4Claude.EmptyFamily | tests/Claude/c4_claude.py:150-172 | each window family of an empty board scores 0 |
| C4Claude.EmptyBoardScoresZero | tests/Claude/c4_claude.py:133-179 | the empty board evaluates to 0 for either player |
| C4Claude.EmptyCentre | tests/Claude/c4_claude.py:175-177 | an empty board has no centre chip to reward |
| C4Claude.WinScanFirst | tests/Claude/c4_claude.py:69-79 | the terminal scan returns the first chip, in column-major order, that completes a four; it returns none exactly when no chip does |
| C4Claude.ScanNextRow | tests/Claude/c4_claude.py:71-79 | one step up a column keeps the scan's first-win property |
| C4Claude.ScanNextColumn | tests/Claude/c4_claude.py:70-71 | going on at the bottom of the next column keeps the scan's first-win property |
| C4Claude.FindWinningChip | tests/Claude/c4_claude.py:69-79 | the nested loops with their early exit compute the terminal scan |
| C4Claude.TerminalScore | tests/Claude/c4_claude.py:68-87 | the base cases of minimax: 1000 + depth for an AI win, -1000 - depth for an opponent win, 0 for a draw, the board evaluation at depth 0, none otherwise |
| C4Claude.MaxLoopStep | tests/Claude/c4_claude.py:91-108 | one iteration of the maximizing loop: a full column is skipped; otherwise max_score and alpha take the child's score, and the loop stops once beta <= alpha |
| C4Claude.MinLoopStep | tests/Claude/c4_claude.py:112-129 | one iteration of the minimizing loop: a full column is skipped; otherwise min_score and beta take the child's score, and the loop stops once beta <= alpha |
| C4Claude.Minimax | tests/Claude/c4_claude.py:52-130 | the in-place search returns the minimax value of the board it was given, and the board is unchanged afterwards |
| C4Claude.TryMove | tests/Claude/c4_claude.py:95-101 | placing a chip, searching one level down and taking it back gives the child's value and leaves the board as it was |
| C4Claude.MaxSearch | tests/Claude/c4_claude.py:89-109 | the maximizing loop returns the maximizing value of the position, and the board is unchanged |
| C4Claude.MinSearch | tests/Claude/c4_claude.py:110-130 | the minimizing loop returns the minimizing value of the position, and the board is unchanged |
| C4Claude.MinimaxIsFinite | tests/Claude/c4_claude.py:52-130 | minimax never returns ±inf: any non-terminal position has an open column |
| C4Claude.ChildIsFinite | tests/Claude/c4_claude.py:89-130 | every child's score is finite |
| C4Claude.ChildValueUnfold | tests/Claude/c4_claude.py:95-98 | a child's value is minimax on the board with that chip added, one level down, with the other player to move |
| C4Claude.MaxLoopIsFinite | tests/Claude/c4_claude.py:90-109 | the maximizing loop returns a finite score when it has already seen a move or an open column is still ahead |
| C4Claude.MaxLoopOpenIsFinite | tests/Claude/c4_claude.py:90-109 | the maximizing loop returns a finite score when it starts at an open column |
| C4Claude.MinLoopIsFinite | tests/Claude/c4_claude.py:111-130 | the minimizing loop returns a finite score when it has already seen a move or an open column is still ahead |
| C4Claude.MinLoopOpenIsFinite | tests/Claude/c4_claude.py:111-130 | the minimizing loop returns a finite score when it starts at an open column |
| C4Claude.FirstOpenColumn | tests/Claude/c4_claude.py:91-93 | the first column from col on that is not full, with every column before it full |
| C4Claude.MaxLoopFirstOnly | tests/Claude/c4_claude.py:89-109 | with alpha = beta = -inf, as GetAIMove passes them, the maximizing loop stops after the first open column and returns that child's value |
| C4Claude.MinLoopFirstOnly | tests/Claude/c4_claude.py:110-130 | with alpha = beta = -inf, the minimizing loop stops after the first open column and returns that child's value |
| C4Claude.SearchFollowsFirstColumn | tests/Claude/c4_claude.py:23-130 | below GetAIMove every non-terminal node's value is the value of its first open column only, whichever side is to move |
| C4Claude.SearchDepth | tests/Claude/c4_claude.py:16-17 | a level of 0 or less is raised to 1; other levels are kept |
| C4Claude.ColumnMoves | tests/Claude/c4_claude.py:23-33 | for every column: none when it is full, else its open row and the minimax score of playing there |
| C4Claude.BestMovesAreBest | tests/Claude/c4_claude.py:19-43 | best_moves lists exactly the open columns, with their rows, whose score is the highest; it is empty exactly on a full board |
| C4Claude.GetAIMove | tests/Claude/c4_claude.py:4-49 | the board is unchanged; the move is one of the best moves, or (0, 0) when the board is full |
| C4ChatGPT.EvaluateWindowTable | tests/ChatGPT/c4_chatgpt.py:6-19 | the window score table: +1000 for four of the player's chips, +10 for three and one empty, +1 for two and two empty, -50 for three opponent chips and one empty, 0 for every other window |
| C4ChatGPT.Window | tests/ChatGPT/c4_chatgpt.py:24-42 | every window of the four families has four cells |
| C4ChatGPT.ScoreFamily | tests/ChatGPT/c4_chatgpt.py:24-42 | the nested loops of one window family add up exactly that family's window scores |
| C4ChatGPT.ScoreLine | tests/ChatGPT/c4_chatgpt.py:25-27 | the inner loop of one family adds up the windows of one row or column |
| C4ChatGPT.ScorePosition | tests/ChatGPT/c4_chatgpt.py:21-43 | score_position is the sum of the four families' window scores |
| C4ChatGPT.CountFill | tests/ChatGPT/c4_chatgpt.py:74 | filling an empty cell removes exactly one None from its column |
| C4ChatGPT.EmptiesBelowFill | tests/ChatGPT/c4_chatgpt.py:72-75 | a trial move lowers the empty-cell count of the columns it covers by one |
| C4ChatGPT.EmptiesDrop | tests/ChatGPT/c4_chatgpt.py:72-75 | each trial move leaves one empty cell fewer, so the recursion ends even for a negative depth |
| C4ChatGPT.OpenColumnsFrom | tests/ChatGPT/c4_chatgpt.py:53 | valid_moves lists, in increasing order, exactly the columns that are not full |
| C4ChatGPT.Scores | tests/ChatGPT/c4_chatgpt.py:70-76 | the scores list has one entry per valid move: the child's minimax value, negated when the opponent is to move |
| C4ChatGPT.SeqMax | tests/ChatGPT/c4_chatgpt.py:78 | max of a non-empty list: an element of it, and no element is larger |
| C4ChatGPT.SeqMin | tests/ChatGPT/c4_chatgpt.py:78 | min of a non-empty list: an element of it, and no element is smaller |
| C4ChatGPT.Minimax | tests/ChatGPT/c4_chatgpt.py:52-78 | the nested minimax computes the minimax value of its board |
| C4ChatGPT.ScanForWin | tests/ChatGPT/c4_chatgpt.py:56-65 | is_terminal is true iff some valid move wins at once for the player to move |
| C4ChatGPT.ScoreMoves | tests/ChatGPT/c4_chatgpt.py:70-76 | the loop over the valid moves builds exactly the scores list |
| C4ChatGPT.TrialMove | tests/ChatGPT/c4_chatgpt.py:72-76 | a move on a copy of the board gives that child's score, negated for the opponent |
| C4ChatGPT.ChildValueUnfold | tests/ChatGPT/c4_chatgpt.py:72-75 | a child's value is minimax on the board with that chip added, one level down, with the other player to move |
| C4ChatGPT.AiNodeIsBestChild | tests/ChatGPT/c4_chatgpt.py:67-78 | on the AI's turn, away from the base cases, the value is the largest child value |
| C4ChatGPT.OpponentNodeNegatesBest | tests/ChatGPT/c4_chatgpt.py:67-78 | on the opponent's turn the source negates the children's scores and takes the minimum, so the value is minus the largest child value |
| C4ChatGPT.ImmediateWinIsLeaf | tests/ChatGPT/c4_chatgpt.py:56-68 | when the player to move can win at once, minimax returns score_position without searching |
| C4ChatGPT.AnyWinsMember | tests/ChatGPT/c4_chatgpt.py:57-65 | one winning move in the list makes the position terminal |
| C4ChatGPT.FirstWin | tests/ChatGPT/c4_chatgpt.py:84-91 | the first open column where the player's chip completes a four; none exactly when no open column does |
| C4ChatGPT.ColumnMoves | tests/ChatGPT/c4_chatgpt.py:84-93 | for every column: none when it is full, else its open row and the minimax score of playing there |
| C4ChatGPT.GetAIMove | tests/ChatGPT/c4_chatgpt.py:5-107 | an immediate win is taken in the first winning column; otherwise the move is one of the best-scoring moves; None exactly on a full board; every move lands on the open row of an open column |
| C4ChatGPT.RankColumns | tests/ChatGPT/c4_chatgpt.py:81-99 | the column loop either returns the first immediate win, or ends with best_moves from the ranking of all open columns |
| C4ChatGPT.FirstOpenMove | tests/ChatGPT/c4_chatgpt.py:103-107 | the fallback loop returns the first open column with its row, or None exactly on a full board |
| C4ChatGPT.ScoreColumn | tests/ChatGPT/c4_chatgpt.py:87-93 | a trial chip in a column gets that column's minimax score |
| C4ChatGPT.BestMovesAreBest | tests/ChatGPT/c4_chatgpt.py:81-99 | without an immediate win, best_moves lists exactly the open columns, with their rows, whose score is the highest; it is empty exactly on a full board |
| C4Game.GameBoard.constructor | app/game.py:29 | the board starts with every cell empty |
| C4Game.GameBoard.PlaceChip | app/game.py:115-119 | IndexError exactly for a position off the board, which leaves the board unchanged; otherwise exactly that cell takes the value |
| C4Game.GameBoard.ReadChip | app/game.py:121-125 | IndexError exactly for a position off the board; otherwise the cell's value |
| C4Game.GameBoard.GetFirstOpenRow | app/game.py:128-136 | the same result as the shared Connect-4 GetFirstOpenRow on the stored board: IndexError off the board, None for a full column, else the lowest empty row |
| C4Game.PlaceRaisesOpenRow | app/game.py:58-65 | placing a chip in the open row of a column moves that column's open row strictly up and leaves every other column's open row unchanged |
| TicTacToe.Other | app/ttt_game.py:337 | the opponent's piece differs from the player's |
| TicTacToe.PieceOf | app/ttt_game.py:210 | turn 0 plays X and any other turn plays O |
| TicTacToe.EmptyGrid | app/ttt_game.py:21 | a 3 × 3 grid with every square empty |
| TicTacToe.TttBoard.constructor | app/ttt_game.py:21 | the board starts empty |
| TicTacToe.Place | app/ttt_game.py:291 | writing one square changes that square and no other |
| TicTacToe.PlaceUndo | app/ttt_game.py:291-297 | placing a piece in an empty square and writing None back restores the grid |
| TicTacToe.Line | app/ttt_game.py:159-175 | each of the eight lines Check_For_Winner tests has three squares |
| TicTacToe.FirstWinnerIff | app/ttt_game.py:156-177 | the winner found is the owner of the first complete line in checking order; there is none iff no line is complete |
| TicTacToe.CheckForWinner | app/ttt_game.py:156-177 | the loops return the owner of the first complete line: rows, then columns, then the two diagonals |
| TicTacToe.WinnerIff | app/ttt_game.py:156-177 | a returned mark owns a complete line; None is returned iff no line is complete for either mark |
| TicTacToe.CheckForDraw | app/ttt_game.py:180-193 | true iff there is no winner and no empty square |
| TicTacToe.CountPieces | app/ttt_game.py:268-274 | never more pieces than squares |
| TicTacToe.GetPieceCount | app/ttt_game.py:268-274 | the number of occupied squares |
| TicTacToe.CountColumn | app/ttt_game.py:271-273 | a column's count is its occupied squares, one by one |
| TicTacToe.ColumnSums | app/ttt_game.py:270-273 | the board's count is the sum of its columns' counts |
| TicTacToe.CountSquares | app/ttt_game.py:268-274 | the board's count is its occupied squares, one by one |
| TicTacToe.CountBounds | app/ttt_game.py:268-274 | the count is at most 9; it is 9 iff the board is full and 0 iff the board is empty |
| TicTacToe.PlaceAddsOne | app/ttt_game.py:291 | a piece in an empty square adds one to the count and removes one empty square |
| TicTacToe.ClearBoard | app/ttt_game.py:133-136 | afterwards every square is empty |
| TicTacToe.ClearedBoard | app/ttt_game.py:133-136 | a cleared board has no pieces, nine empty squares, no winner and no draw |
| TicTacToeAI.FirstCompleting | app/ttt_game.py:234-241 | the first empty square, in column-major order, where m's piece would complete a line; none exactly when no empty square does |
| TicTacToeAI.FindCompleting | app/ttt_game.py:234-251 | the try-and-undo loop finds the first completing square, and the board is unchanged afterwards |
| TicTacToeAI.Available | app/ttt_game.py:255-261 | the available squares of a list are exactly its empty squares |
| TicTacToeAI.AvailableNone | app/ttt_game.py:255-263 | with every listed square taken, nothing is available |
| TicTacToeAI.GetStrategicMove | app/ttt_game.py:225-265 | the board is unchanged; the move is one of the strategic candidates (win, else block, else a free corner, else a free edge), and None exactly when there is none |
| TicTacToeAI.CornersAndEdges | app/ttt_game.py:254-260 | the corners and edges are on the board and, with the centre, cover every square |
| TicTacToeAI.StrategicMoveIsEmpty | app/ttt_game.py:225-265 | every strategic candidate is an empty square |
| TicTacToeAI.StrategicMoveWins | app/ttt_game.py:233-240 | when m can complete a line, the only candidate is a winning square |
| TicTacToeAI.StrategicMoveBlocks | app/ttt_game.py:243-250 | when m cannot win but the opponent could, the only candidate is a square that blocks the opponent |
| TicTacToeAI.StrategicNoneIff | app/ttt_game.py:225-265 | there is no candidate iff neither side can complete a line and every square but the centre is taken |
| TicTacToeAI.SideSquaresTaken | app/ttt_game.py:254-263 | with every square but the centre taken, no corner or edge is available |
| TicTacToeAI.FreeSideSquare | app/ttt_game.py:254-263 | an empty square other than the centre leaves a corner or an edge available |
| TicTacToeAI.EarlyGameHasStrategicMove | app/ttt_game.py:205-212 | with at most four pieces on the board get_strategic_move always finds a move |
| TicTacToeAI.ChildValueUnfold | app/ttt_game.py:326-329 | a child's value is minimax_ab on the board with the mover's piece added, one level deeper, with the other side to move |
| TicTacToeAI.MinimaxAB | app/ttt_game.py:307-348 | returns the minimax_ab value of its board and leaves the board unchanged; 10 - depth when the player has won, -10 + depth when the opponent has, 0 for a draw |
| TicTacToeAI.ScanColumn | app/ttt_game.py:325-333 | one column of the nested loops, a cutoff ending only that column, advances the loop specification and leaves the board unchanged |
| TicTacToeAI.TryCell | app/ttt_game.py:326-333 | placing a piece, searching and taking it back gives the child's value and leaves the board unchanged |
| TicTacToeAI.ValueBounds | app/ttt_game.py:307-348 | minimax_ab on a reachable position returns a finite score between -10 + depth and 10 - depth |
| TicTacToeAI.LoopBounds | app/ttt_game.py:321-348 | the nested loops return a bounded score once they have seen or will still see an empty square |
| TicTacToeAI.ChildBounds | app/ttt_game.py:326-342 | a child's score is bounded at one level deeper |
| TicTacToeAI.MoveTable | app/ttt_game.py:287-297 | for every square: none when it is taken, else the score of playing there |
| TicTacToeAI.FindBestMove | app/ttt_game.py:277-304 | find_best_move returns the best move of the position and leaves the board unchanged |
| TicTacToeAI.ScoreMove | app/ttt_game.py:289-297 | placing a piece, scoring it with minimax_ab and taking it back gives that square's score |
| TicTacToeAI.ScanStep | app/ttt_game.py:299-302 | one iteration keeps the scan invariant: the best move is the first square with the highest score seen so far |
| TicTacToeAI.ScanCorrect | app/ttt_game.py:287-304 | the whole scan keeps its invariant to the end |
| TicTacToeAI.MoveScoreFinite | app/ttt_game.py:294 | every empty square gets a finite score |
| TicTacToeAI.BestMoveIsFirstMax | app/ttt_game.py:277-304 | None exactly on a full board; otherwise an empty square whose score no square beats, and every square before it in scan order scores strictly less |
| TicTacToeAI.BestMoveIsOpen | app/ttt_game.py:277-304 | the best move is an empty square, and None exactly on a full board |
| TicTacToeAI.GetNextMove | app/ttt_game.py:194-222 | X takes the centre of an empty board; with at most four pieces a strategic candidate is played; with more, the best move is played; on any board that is not full exactly one empty square gets the mover's piece; a full board is left alone |
| TicTacToeAI.PlayBestMove | app/ttt_game.py:214-222 | the best move gets the mover's piece; without one the board is full and unchanged |
| GameOfLife.Neighbors | app/gameoflife.py:34-50 | the live cells among the eight around a cell, edges counting as dead, are at most eight |
| GameOfLife.StepRow | app/gameoflife.py:56-70 | a next-generation row has the board's width, and each cell is alive exactly when Conway's rule holds for the old cell and its neighbour count |
| GameOfLife.Step | app/gameoflife.py:54-70 | the next generation has the same shape as the board |
| GameOfLife.RowPopulation | app/gameoflife.py:123 | a row's live count is at most its length |
| GameOfLife.Life.constructor | app/gameoflife.py:14-29 | the object holds the given width, height and board, at generation 0 |
| GameOfLife.Life.CountNeighbors | app/gameoflife.py:34-50 | the nested offset loops count exactly the live neighbours of the cell |
| GameOfLife.Life.Update | app/gameoflife.py:52-73 | the board becomes the next generation of the old board, its shape is kept and the generation goes up by one |
| GameOfLife.Life.NextRow | app/gameoflife.py:57-70 | the inner loop of update builds row y of the next generation |
| GameOfLife.Life.CountPopulation | app/gameoflife.py:121-123 | the sum over rows of the live cells is the board's population |
| GameOfLife.Blank | app/gameoflife.py:54 | the fresh board has the board's shape and every cell dead |
| GameOfLife.VisitedAll | app/gameoflife.py:37-48 | the three columns of offsets, the centre skipped, visit exactly the eight neighbours |
| GameOfLifeFacts.AllDeadStaysDead | app/gameoflife.py:62-70 | a board with no live cell stays without one: no cell is born from zero neighbours |
| GameOfLifeFacts.PopulationZeroIff | app/gameoflife.py:121-123 | the population is 0 exactly when every cell is dead |
| GameOfLifeFacts.RowPopulationZeroIff | app/gameoflife.py:123 | a row's live count is 0 exactly when every cell in it is dead |
| GameOfLifeFacts.PopulationBound | app/gameoflife.py:121-123 | the population is at most width times height |
| GameOfLifeFacts.NeighborsIgnoreSelf | app/gameoflife.py:39-40 | changing a cell does not change its own neighbour count |
| GameOfLifeFacts.NeighborsLocal | app/gameoflife.py:37-48 | changing a cell outside the 3x3 block around (x, y) does not change the neighbour count of (x, y) |
| GameOfLifeFacts.LiveElsewhere | app/gameoflife.py:46-47 | changing one cell leaves every other position's liveness unchanged |
| Maze.Clear | app/maze.py:31-32 | writing False into one cell keeps the grid's shape |
| Maze.ClearOpen | app/maze.py:31-32 | after the write, a cell is open exactly when it was open before or is the cell written; the cells on the grid are the same |
| Maze.ClearCount | app/maze.py:31-32 | the write removes one wall when the cell was a wall and none otherwise |
| Maze.Carved | app/maze.py:29-32 | one carving step (target cell, then the cell halfway to it) keeps the grid's shape |
| Maze.CarvedWalls | app/maze.py:29-32 | a carving step into a walled target stays on the grid, only opens cells, strictly lowers the wall count and opens the target |
| Maze.CarvedPlaces | app/maze.py:29-32 | a carving step from an odd-odd cell keeps every open cell inside the border (row and column at least 1, an odd coordinate, an even coordinate short of the far edge), and the target is the only odd-odd cell it opens |
| Maze.CarvedTree | app/maze.py:29-33 | the cells opened by a carving step hang off the cell carved from, so every open cell still has a path back to the start |
| Maze.StepInv | app/maze.py:28-33 | one carving step keeps the carving invariant (shape, open cells inside the border, a path tree back to (1, 1), settled cells stay settled), only opens cells, lowers the wall count and opens the target |
| Maze.PathToStart | app/maze.py:22-37 | every open cell has a walk through open cells from (1, 1) |
| Maze.InteriorClear | app/maze.py:36 | opening an odd-odd cell keeps every open cell inside the border |
| Maze.InteriorStep | app/maze.py:29-32 | a carving step between odd-odd cells keeps every open cell inside the border |
| Maze.MazeGrid.constructor | app/maze.py:22-36 | every cell is a wall except (1, 1), and nothing has been carved from yet |
| Maze.MazeGrid.CarveStep | app/maze.py:30-32 | the grid becomes the carved grid, with one wall fewer at least, the target open and the carving invariant kept |
| Maze.MazeGrid.TryStep | app/maze.py:29-33 | one direction of carve_passages: cells are only opened, the wall count does not grow, and afterwards the target is settled (off the grid, open, or carved from) |
| Maze.MazeGrid.Carve | app/maze.py:24-33 | carve_passages(x, y) ends with (x, y) settled: every direction from it leads off the grid or to an open cell, and only newly settled cells were opened |
| Maze.SettledByLoop | app/maze.py:25-33 | having tried every direction of a permutation of the four steps settles the cell |
| Maze.SkippedDone | app/maze.py:30 | a direction the guard skips (target off the grid or already open) is already settled |
| Maze.TreeStep | app/maze.py:31-32 | opening the target and the cell halfway, both hung off the cell carved from, keeps the path tree |
| Maze.OnlyStartBefore | app/maze.py:36-37 | when only (1, 1) was open before carving, every odd-odd open cell afterwards has been carved from |
| Maze.ClearCommutes | app/maze.py:31-32 | the two writes of a carving step may be done in either order |
| Maze.RowWallsClear | app/maze.py:31 | writing False into a row removes one wall when the cell was a wall |
| Maze.GenerateMaze | app/maze.py:11-39 | IndexError exactly when the grid has no cell (1, 1); otherwise the grid has the given shape, (1, 1) is open and every open cell is reachable from it; with odd sides every odd-odd cell is open and the border is all walls |
| Maze.StartOnlyOpen | app/maze.py:22-36 | before carving, (1, 1) is the only open cell |
| Maze.TreeConnected | app/maze.py:22-39 | a path tree over the open cells makes the maze connected |
| Maze.OddCellsAllOpen | app/maze.py:24-37 | with odd sides, once carving from (1, 1) ends, every odd-odd cell is open |
| Maze.OddCellOpen | app/maze.py:24-37 | each odd-odd cell is open, by induction from (1, 1) over settled neighbours |
| Maze.BorderWalled | app/maze.py:22-37 | with odd sides, carving never opens a cell of the border |
| MazeWalker.ValidFrom | app/maze.py:74-80 | the valid moves are at most the directions tried |
| MazeWalker.UnvisitedFrom | app/maze.py:85-97 | the unvisited moves are at most the valid moves |
| MazeWalker.Available | app/maze.py:188-189 | the available moves are at most the valid moves |
| MazeWalker.ValidFromMembers | app/maze.py:72-80 | a move is kept by get_valid_moves exactly when it is one of the listed directions and its target is on the grid and open |
| MazeWalker.UnvisitedFromMembers | app/maze.py:82-97 | a move is kept exactly when it is valid, does not reverse the excluded direction, and its edge is not visited |
| MazeWalker.UnvisitedFromNext | app/maze.py:87-95 | one iteration of the filtering loop appends the move exactly when it passes both tests |
| MazeWalker.AvailableMembers | app/maze.py:188-189 | the available moves are the valid moves except the reverse of the current direction |
| MazeWalker.ValidMoveIff | app/maze.py:72-80 | a valid move is a unit step onto an open cell of the grid |
| MazeWalker.UnvisitedMoveIff | app/maze.py:82-97 | an unvisited move is a valid move that does not turn back and whose edge is not visited |
| MazeWalker.AvailableIff | app/maze.py:188-189 | an available move is a valid move that does not turn back |
| MazeWalker.FallbackChoice | app/maze.py:166-213 | any direction the walker may turn to at a wall is a unit step onto an open cell |
| MazeWalker.FallbackEmpty | app/maze.py:166-219 | at a wall the walker has no direction to turn to exactly when no valid move exists |
| MazeWalker.Walker.constructor | app/maze.py:56-65 | the walker starts at (1, 1) heading right, with no edge visited and the goal not reached |
| MazeWalker.Walker.GetValidMoves | app/maze.py:72-80 | the loop returns the valid moves in the order (0, -1), (0, 1), (-1, 0), (1, 0) |
| MazeWalker.Walker.GetUnvisitedMoves | app/maze.py:82-97 | the loop returns the unvisited moves in valid-move order |
| MazeWalker.Walker.MoveIfFree | app/maze.py:175-184 | moving onto a free cell records the edge and reports whether the goal was reached; otherwise nothing changes |
| MazeWalker.Walker.GoStraight | app/maze.py:140-162 | the walker moves ahead and records the edge; unless at the goal it then takes the only unvisited move, or one of two or more, or keeps its direction |
| MazeWalker.Walker.ChooseAtCrossing | app/maze.py:155-162 | only the direction changes: to one of several unvisited moves, to the single one, or not at all |
| MazeWalker.Walker.TurnTo | app/maze.py:170-184 | turning to a free direction moves one step that way and records the edge |
| MazeWalker.Walker.TurnAside | app/maze.py:163-219 | at a wall the walker turns to an unvisited move, else a move that does not turn back, else any valid move, and steps that way; with no valid move nothing changes |
| MazeWalker.Walker.StepStraight | app/maze.py:140-162 | the forward branch of a move keeps the walker's invariant and makes exactly one step along a recorded edge |
| MazeWalker.Walker.StepAside | app/maze.py:163-219 | the blocked branch of a move keeps the walker's invariant and steps exactly when a valid move exists |
| MazeWalker.Walker.Step | app/maze.py:131-221 | one move: the walker stays put exactly when no valid move exists; otherwise it steps to an adjacent cell and records that edge; it reports reaching the goal exactly when it stepped onto (size - 2, size - 2) |
| MazeWalker.StartMazeGame | app/maze.py:51-65 | the 31 x 31 maze is connected and its goal cell is open and reachable from the start, where the walker begins |
| SnakeGrid.GetNeighbors | app/snake.py:81-89 | at most four neighbours |
| SnakeGrid.GetNeighborsExact | app/snake.py:81-89 | the neighbours are exactly the adjacent valid positions, in the order (0, 1), (0, -1), (1, 0), (-1, 0) |
| SnakeGrid.AdjacentIsShift | app/snake.py:85-86 | two positions are adjacent exactly when one is the other shifted by one of the four offsets |
| SnakeGrid.OffsetIndexOfShift | app/snake.py:85 | a shifted position tells which offset produced it |
| SnakeSearch.MinIndex | app/snake.py:123 | heappop's choice: an entry no other entry precedes in (f, counter) order |
| SnakeSearch.RemoveAt | app/snake.py:123 | popping removes one entry and keeps only entries of the queue |
| SnakeSearch.RelaxOne | app/snake.py:145-156 | relaxing one neighbour never changes the closed set |
| SnakeSearch.Relax | app/snake.py:144-156 | relaxing the neighbours never changes the closed set |
| SnakeSearch.RelaxOneInv | app/snake.py:145-156 | relaxing a valid adjacent neighbour keeps the search invariant: every known cell has a parent chain of adjacent, valid, non-avoided cells back to the start |
| SnakeSearch.RelaxInv | app/snake.py:144-156 | relaxing all neighbours keeps the search invariant |
| SnakeSearch.Chain | app/snake.py:130-134 | following parents from a known cell gives g + 1 cells |
| SnakeSearch.Reverse | app/snake.py:135 | path[::-1] has the same length and reversed contents |
| SnakeSearch.PopInv | app/snake.py:123 | popping the queue keeps the search invariant |
| SnakeSearch.CloseInv | app/snake.py:137 | closing a known cell keeps the search invariant |
| SnakeSearch.ExpandInv | app/snake.py:137-156 | closing a known cell shrinks the set of unclosed cells, and expanding it within the distance limit keeps the invariant |
| SnakeSearch.UniverseHasValid | app/snake.py:75-79 | every valid position and the start are among the cells the search can know |
| SnakeSearch.KnownInUniverse | app/snake.py:114-156 | known and closed cells stay within that finite universe, so the search ends |
| SnakeSearch.CloseShrinks | app/snake.py:137 | closing a new cell shrinks the unclosed part of the universe |
| SnakeSearch.Init | app/snake.py:114-120 | the start alone, with no parent and g = 0, satisfies the search invariant |
| SnakeSearch.ChainShape | app/snake.py:130-134 | the parent chain runs from the cell back to the start through adjacent cells that are valid and not avoided |
| SnakeSearch.ReversedChainIsPath | app/snake.py:130-135 | the reversed chain is a path from start to target |
| SnakeSearch.ReconstructShape | app/snake.py:128-135 | the reconstructed path is a path from start to target no longer than the distance limit plus two |
| SnakeSearch.RunShape | app/snake.py:122-158 | the main loop returns either [] or a path from start to target within that length |
| SnakeSearch.AStarShape | app/snake.py:91-158 | [start] when start is target; [] when the Manhattan distance exceeds twice the larger side; otherwise [] or a path of adjacent, valid, non-avoided cells from start to target |
| SnakeRules.ClampCoverage | app/snake.py:24 | the coverage is clamped into 0..50 and unchanged when already there |
| SnakeRules.Generate | app/snake.py:57-73 | squares are added in turn until the target is reached or the corners run out; every cell comes from a square placed |
| SnakeRules.SquareInBounds | app/snake.py:65-71 | a square whose corner randint can draw lies on the field |
| SnakeRules.GenerateInBounds | app/snake.py:55-73 | every obstacle lies on the field |
| SnakeRules.CanReachTailIgnoresFlag | app/snake.py:180-207 | the body set built for will_eat_fruit True equals the one for False once the tail is discarded, so the flag never changes the answer |
| SnakeRules.CanReachTailHasPath | app/snake.py:205-207 | a True answer comes with a path from the new head to the tail |
| SnakeRules.WallDistance | app/snake.py:261 | the smallest of the four distances to the field edges |
| SnakeRules.MinDistance | app/snake.py:257-268 | the minimum over the body of Manhattan distances, bounded by the start value and attained |
| SnakeRules.MinDistanceUnique | app/snake.py:257-268 | that minimum does not depend on the order the set is visited in |
| SnakeRules.Qualified | app/snake.py:251-254 | one flag per neighbour: free of the body, valid, and with the tail reachable after the move |
| SnakeRules.Scores | app/snake.py:256-268 | one clearance per neighbour |
| SnakeRules.ChooseBestNone | app/snake.py:247-274 | the scan returns None exactly when it started with none and no qualifying neighbour beats the best distance |
| SnakeRules.ChooseBestIsBest | app/snake.py:270-272 | the scan returns the first qualifying neighbour with the strictly highest clearance, or keeps its start value when none beats it |
| SnakeRules.FallbackPicksFirstBest | app/snake.py:246-274 | strategy 3 returns None exactly when no neighbour qualifies, and otherwise the first neighbour of greatest clearance |
| SnakeRules.ClearanceNonNegative | app/snake.py:257-268 | a valid position has non-negative clearance, so it beats the start value -1 |
| SnakeRules.PathStepIsSafe | app/snake.py:228-240 | the second cell of a search path is adjacent to the start, valid and not avoided |
| SnakeRules.FallbackIsSafe | app/snake.py:246-274 | strategy 3's move is adjacent to the head and safe |
| SnakeRules.BestMoveIsSafe | app/snake.py:209-274 | every move _find_best_move returns is adjacent to the head, on the field, off the obstacles and off the body except the tail |
| Snake.Copies | app/snake.py:318-320 | n copies of one position |
| Snake.InitialSnakeShape | app/snake.py:29-34 | start_length cells (none when not positive) from the centre leftwards, each adjacent to the next, all distinct |
| Snake.AddSquare | app/snake.py:69-71 | the double loop adds exactly the 5 x 5 square at the corner |
| Snake.GenerateObstacles | app/snake.py:55-73 | ValueError when squares are needed but the field is narrower or lower than 5; otherwise the obstacles of the given corners |
| Snake.RelaxNeighbors | app/snake.py:144-156 | the neighbour loop computes the relaxation |
| Snake.ReconstructPath | app/snake.py:130-134 | the parent-following loop builds the parent chain |
| Snake.SearchLoop | app/snake.py:122-158 | the while loop computes the search result |
| Snake.SnakeGame.Field | app/snake.py:75-79 | the field of the game: its width, height and obstacles |
| Snake.SnakeGame.constructor | app/snake.py:18-44 | on a field where the obstacles fit: the clamped coverage, the obstacles of the given corners, the snake laid out from the centre leftwards heading right, nothing eaten, the game running and a fruit on a free cell |
| Snake.NewGame | app/snake.py:18-44 | ValueError exactly when obstacles are due and a 5 x 5 square does not fit on the field, otherwise a fresh game in the state the constructor states |
| Snake.SnakeGame.SpawnFruit | app/snake.py:46-53 | the fruit lands on a cell on the field, off the snake and off the obstacles |
| Snake.SnakeGame.AStarPath | app/snake.py:91-158 | _astar_path_to_target computes the A* search result |
| Snake.SnakeGame.CanReachTailAfterMove | app/snake.py:180-207 | computes whether the tail can be reached after the move |
| Snake.SnakeGame.MeasureClearance | app/snake.py:256-268 | the loops compute the neighbour's clearance |
| Snake.SnakeGame.FindBestMove | app/snake.py:209-274 | computes the three-strategy best move |
| Snake.SnakeGame.FruitStrategy | app/snake.py:224-233 | strategy 1: the second cell of the path to the fruit, when the tail stays reachable |
| Snake.SnakeGame.TailStrategy | app/snake.py:235-244 | strategy 2: the second cell of the path to the tail, when the tail stays reachable |
| Snake.SnakeGame.ClearanceFallback | app/snake.py:246-274 | strategy 3: the first qualifying neighbour of greatest clearance |
| Snake.SnakeGame.MoveSnake | app/snake.py:307-323 | without the fruit the head advances and the tail is popped; eating the last fruit wins with no growth; eating another adds nine copies of the tail, counts the fruit and respawns it on a free cell |
| Snake.SnakeGame.Update | app/snake.py:276-323 | nothing changes once the game is over or won; a running game with an empty snake raises IndexError at `snake[0]` and changes nothing; no move ends the game as trapped; an unsafe move ends it as hit wall or hit self; a safe move advances the snake as MoveSnake states |
| Snake.SnakeGame.GetPixels | app/snake.py:325-347 | one light-blue pixel per obstacle, the head bright green, the body dark green, then the fruit red when there is one |
| Raster.Abs | app/display.py:118-119 | abs(v) is v or -v and never negative |
| Raster.Inc | app/display.py:123-124 | the step toward the end point: +1 exactly when the start is below it, else -1 |
| Raster.CellsIff | app/display.py:61-82 | a shape's painted cells are exactly the on-screen cells the loops' test accepts |
| Raster.CoversInBox | app/display.py:63-64 | every accepted cell lies within the ranges the two loops scan |
| Raster.DiscCovers | app/display.py:75-82 | draw_circle accepts exactly the cells at squared distance below radius² from the centre |
| Raster.DiscEmpty | app/display.py:77-79 | a zero or negative radius draws nothing |
| Raster.RingCovers | app/display.py:85-105 | draw_o accepts exactly the cells with (outer - width)² <= d² < outer², all inside the outer disc |
| Raster.PaintedPixels | app/display.py:52 | painting a set of cells writes the colour to each and leaves every other written pixel as it was |
| Raster.PaintedIdempotent | app/display.py:48-52 | painting the same cells in the same colour twice gives the same canvas as once |
| Raster.PaintedNothing | app/display.py:63-66 | painting no cell changes nothing |
| Raster.PaintedCompose | app/display.py:171-180 | two paintings in one colour in a row paint the union |
| Raster.PaintedUpToStart | app/display.py:63-64 | before the scan starts nothing has to be painted |
| Raster.Rescan | app/display.py:63-64 | moving the scan position over cells outside the shape changes nothing |
| Raster.ScanStep | app/display.py:64-66 | one scanned cell is painted when it belongs to the shape and skipped otherwise |
| Raster.ScanDone | app/display.py:63-66 | once every cell of the shape has been scanned, the shape is painted |
| Raster.FillStart | app/display.py:63 | at the start of the outer loop no covered cell has been scanned |
| Raster.FillRowDone | app/display.py:64 | past the end of a row the scan moves to the next row |
| Raster.FillDone | app/display.py:63 | past the last row the whole shape is painted |
| Raster.Walk | app/display.py:130-137 | the loop visits n points, the first being the start |
| Raster.WalkPixelsStep | app/display.py:131-137 | one pass of the loop moves the current point, when on screen, into the painted set |
| Raster.WalkPixelsDone | app/display.py:130 | when the loop ends the painted set is complete |
| Raster.WalkPixelsIff | app/display.py:130-148 | the painted pixels of a walk are exactly its on-screen points |
| Raster.WalkShape | app/display.py:130-148 | each pass moves the major axis one step and the minor axis by zero or one step in its direction |
| Raster.ErrorStep | app/display.py:133-136 | one pass keeps the Bresenham error invariant |
| Raster.ErrorEnd | app/display.py:129-137 | after all major steps the minor axis has taken exactly its full extent |
| Raster.WalkLands | app/display.py:130-148 | the walk's end point on the minor axis is the target coordinate |
| Raster.LineLands | app/display.py:107-148 | draw_line's walk ends exactly at (x2, y2) |
| Raster.LineShape | app/display.py:107-148 | draw_line visits max(dx, dy) points starting at (x1, y1), each a single step from the previous, the last one step from (x2, y2) |
| Raster.LineAvoidsEnd | app/display.py:130-148 | draw_line never paints its end point |
| Raster.WalkDiagonal | app/display.py:129-148 | with equal extents every pass steps both axes |
| Raster.LineDiagonal | app/display.py:107-148 | a line with equal extents is the exact 45-degree diagonal |
| Raster.ScreenCells | app/display.py:48-52 | background covers exactly the on-screen cells |
| Raster.SegmentPixelsIff | app/display.py:107-148 | the pixels draw_line writes are the on-screen points of its path |
| Raster.XPassLines | app/display.py:160-180 | pass i of draw_x draws the four lines offset from the corners |
| Raster.XStep | app/display.py:171-180 | pass i after the first i passes paints the first i + 1 |
| Raster.XStrokeDiagonal | app/display.py:160-180 | every stroke of draw_x is an exact 45-degree diagonal of abs(height + 1) pixels, running down and right or down and left |
| Display.FrameCanvas.constructor | app/display.py:27 | a new frame canvas has no pixel written |
| Display.FrameCanvas.SetPixel | app/display.py:58 | SetPixel writes one pixel in the colour and leaves the others |
| Display.Display.constructor | app/display.py:13-44 | a canvas of the given size with nothing written, an all-zero overlay, additive mode and black overlay colour |
| Display.Display.Fill | app/display.py:61-82 | the nested fill loops paint exactly a shape's on-screen cells |
| Display.Display.FillRow | app/display.py:64-66 | one row of the fill loops extends the painted prefix by that row |
| Display.Display.Background | app/display.py:48-52 | background paints every on-screen pixel in the colour |
| Display.Display.Clear | app/display.py:54-55 | clear paints every on-screen pixel black |
| Display.Display.SetPixel | app/display.py:57-58 | set_pixel writes one pixel, unclipped |
| Display.Display.DrawSquare | app/display.py:61-66 | paints exactly the on-screen cells of the size x size square |
| Display.Display.DrawRectangle | app/display.py:68-73 | paints exactly the on-screen cells of the rectangle |
| Display.Display.DrawCircle | app/display.py:75-82 | paints exactly the on-screen cells strictly inside the radius |
| Display.Display.DrawO | app/display.py:85-105 | paints exactly the on-screen cells of the ring |
| Display.Display.DrawLine | app/display.py:107-148 | paints exactly the on-screen points of the Bresenham path |
| Display.Display.DrawShallow | app/display.py:127-137 | the horizontal-major loop paints the on-screen points of its walk |
| Display.Display.DrawSteep | app/display.py:138-148 | the vertical-major loop paints the on-screen points of its walk |
| Display.Display.DrawPoint | app/display.py:131-132 | the clipped write adds the point to the painted set only when it is on screen |
| Display.Display.DrawX | app/display.py:150-180 | paints exactly the on-screen pixels of the line_width passes of four lines each |
| Display.Display.DrawXPassAt | app/display.py:172-180 | one pass paints the four offset lines |
| Display.Display.DrawXPass | app/display.py:175-180 | four draw_line calls paint the union of their lines |
| Display.Display.DrawSegment | app/display.py:175 | a draw_line call after others adds its pixels to the painted set |
| Display.Display.OverlaySetColor | app/display.py:202-203 | only the overlay colour changes |
| Display.Display.OverlaySetType | app/display.py:205-206 | only the overlay mode changes |
| Display.Display.OverlaySetPixel | app/display.py:208-210 | marks the one cell when it is on screen; every other cell is unchanged |
| Display.Display.Mark | app/display.py:212-230 | the overlay scan marks exactly the on-screen cells of the shape |
| Display.Display.OverlayCircle | app/display.py:212-218 | marks exactly the on-screen cells strictly inside the radius |
| Display.Display.OverlaySquare | app/display.py:220-224 | marks exactly the on-screen cells of the square |
| Display.Display.OverlayRectangle | app/display.py:226-230 | marks exactly the on-screen cells of the rectangle |
| Display.Display.LitIff | app/display.py:237-244 | a cell is written by overlay_render exactly when it is on screen and the mode selects it |
| Display.Display.OverlayRender | app/display.py:232-244 | writes the overlay colour to exactly the cells the mode selects |
| Display.Display.RenderRow | app/display.py:235-244 | one row of overlay_render extends the painted prefix by that row |
| Display.Display.RenderCell | app/display.py:237-244 | one cell of overlay_render is written exactly when it is selected |
| Display.Display.RenderModes | app/display.py:237-244 | additive mode selects the marked cells, subtractive mode the unmarked ones, and any other mode none |
| Text.JoinCons | app/c4_ollama.py:80 | joining a first part in front of more parts puts one separator after it |
| Text.JoinAppend | app/c4_ollama.py:65 | joining two non-empty runs of parts puts one separator between them |
| Text.IndexOf | app/c4_ollama.py:51 | the first index holding the character |
| Text.JoinSplit | app/c4_ollama.py:51 | '\n'.join(s.split('\n')) == s |
| Text.SplitJoin | app/c4_ollama.py:51-65 | splitting a join of pieces that hold no separator gives the pieces back |
| Text.SplitPieces | app/c4_ollama.py:51 | no piece of a split holds the separator |
| Text.JoinLacks | app/c4_ollama.py:80 | a join of parts and a separator that lack a character lacks it too |
| Text.NatToString | app/c4_ollama.py:69 | str(n) is never empty |
| Text.NatToStringDigits | app/c4_ollama.py:69 | str(n) holds only digits, and one digit below ten |
| Text.ContainsAt | app/c4_ollama.py:56 | an occurrence at some index makes `pat in s` true |
| Text.ContainsIndex | app/c4_ollama.py:56 | `pat in s` always has such an index |
| Text.ReplaceAllIdentity | app/c4_ollama.py:85-86 | replace leaves a string without the pattern, or replacing a pattern by itself, unchanged |
| Text.SkipSpace | app/c4_ollama.py:126 | the first non-whitespace index at or after i, everything skipped being whitespace |
| Text.TrimSpace | app/c4_ollama.py:126 | the end once trailing whitespace is dropped, everything dropped being whitespace |
| Text.StripShape | app/c4_ollama.py:126 | strip removes only leading and trailing whitespace, and its result neither starts nor ends with whitespace |
| Text.StripNothing | app/c4_ollama.py:126 | a string that neither starts nor ends with whitespace is its own strip |
| Text.StripIdempotent | app/c4_ollama.py:126 | stripping twice is stripping once |
| Text.ParseDigits | app/c4_ollama.py:145 | a value exactly when the text is a run of digits with single underscores between digits |
| Text.DigitsValueOf | app/c4_ollama.py:145 | the digits of str(n) read back as n |
| Text.ParseIntOfNat | app/c4_ollama.py:145-146 | int(str(n)) == n |
| Board2String.Lookup | tests/board2string.py:11-15 | the character table yields X for 0, O for 1 and the empty mark for None, and KeyError exactly for any other cell value |
| Board2String.GameBoard2String | tests/board2string.py:8-39 | the loops build the standard board text, or KeyError when a cell is not 0, 1 or None |
| Board2String.RowTextShape | tests/board2string.py:26-31 | a standard row is its number, a bar, then each cell's character followed by a space |
| Board2String.RowLinesShape | tests/board2string.py:25-33 | one row line per row, from the top row down, none holding a newline |
| Board2String.BoardTextLines | tests/board2string.py:8-39 | on a board of known cells the text splits into the header, the border, the six rows from the top down, the border and the header |
| Board2String.GameBoard2StringSimple | tests/board2string.py:42-59 | the loops build the simple board text, or KeyError on an unknown cell |
| Board2String.SimpleRowShape | tests/board2string.py:51-54 | a simple row is just the seven cell characters |
| Board2String.SimpleRowLinesShape | tests/board2string.py:50-55 | one simple line per row, from the top down |
| Board2String.SimpleTextLines | tests/board2string.py:42-59 | the simple text splits into six lines of seven characters, line k showing row 6 - k, then the footer 1234567 |
| Board2String.GameBoard2StringDetailed | tests/board2string.py:62-98 | the loops build the detailed board text, or KeyError on an unknown cell |
| Board2String.WideRowShape | tests/board2string.py:81-86 | a detailed row is its number and a box-drawing bar, then each cell's character, empty cells as a middle dot, framed by bars |
| Board2String.WideRowLinesShape | tests/board2string.py:80-92 | each row is followed by a separator except the bottom one |
| Board2String.DetailedTextLines | tests/board2string.py:62-98 | the detailed text splits into the title, the legend, a blank line, the column header, the top frame, the six rows with separators between them, the bottom frame and the column header |
| Board2AI.VisualLines | tests/board2AI.py:25-33 | one visual line per row |
| Board2AI.VisualSection | tests/board2AI.py:25-33 | the visual rows from the top down when every cell is 0, 1 or None, and KeyError exactly otherwise |
| Board2AI.DataLines | tests/board2AI.py:43-53 | one data line per row |
| Board2AI.DataSection | tests/board2AI.py:43-53 | the loops build the position data lines from the bottom row up |
| Board2AI.CollectPositions | tests/board2AI.py:61-70 | the column-major scan collects the X positions and the O positions |
| Board2AI.ColumnHeights | tests/board2AI.py:81-97 | the loops compute each column's height and next available row |
| Board2AI.BoardSections | tests/board2AI.py:13-55 | the header, visual and data sections have 2 x 6 + 12 lines |
| Board2AI.PositionLines | tests/board2AI.py:58-78 | the occupied positions section has five lines |
| Board2AI.HeightLines | tests/board2AI.py:99-100 | the heights section has two lines |
| Board2AI.AILines | tests/board2AI.py:10-100 | the `result` list has 2 x 6 + 19 lines |
| Board2AI.PositionSection | tests/board2AI.py:58-78 | builds the occupied positions section |
| Board2AI.HeightSection | tests/board2AI.py:81-100 | builds the heights section |
| Board2AI.GameBoard2AI | tests/board2AI.py:1-102 | the whole text joined by newlines, or KeyError when a cell is not 0, 1 or None |
| Board2AI.HeightUpToIsTop | tests/board2AI.py:85-89 | after n rows the height is one above the highest occupied row seen, every row from it up to n being empty |
| Board2AI.HeightIsTop | tests/board2AI.py:84-91 | a column's height is one above its highest occupied cell, every cell above being empty; 0 exactly for an empty column |
| Board2AI.NextFullIff | tests/board2AI.py:93-97 | FULL exactly when the top cell is occupied, else the height plus one |
| Board2AI.PosTextInjective | tests/board2AI.py:68-70 | distinct cells get distinct (row,col) texts |
| Board2AI.ColumnPositionsIff | tests/board2AI.py:65-70 | a column's scan lists a cell exactly when it is in that column, among the rows seen, and holds the piece |
| Board2AI.PositionsUpToIff | tests/board2AI.py:64-70 | after n columns a cell is listed exactly when it is in one of them and holds the piece |
| Board2AI.PositionsIff | tests/board2AI.py:61-70 | a cell is listed exactly when it holds the piece |
| Board2AI.ColumnPositionsEmpty | tests/board2AI.py:65-70 | a column's list is empty exactly when none of its rows seen holds the piece |
| Board2AI.PositionsEmpty | tests/board2AI.py:64-70 | the list is empty exactly when no cell seen holds the piece |
| Board2AI.PositionsParen | tests/board2AI.py:68-70 | every listed position starts with a parenthesis |
| Board2AI.ColumnPositionsParen | tests/board2AI.py:68-70 | every position a column lists starts with a parenthesis |
| Board2AI.PosListNone | tests/board2AI.py:73-74 | the list reads None exactly when no cell holds the piece |
| Board2AI.VisualRowShape | tests/board2AI.py:26-31 | a visual row is its label, then each cell's character followed by a space |
| Board2AI.RowCharsJoin | tests/board2AI.py:45-52 | the joined row characters alternate cell characters and commas |
| Board2AI.RowCharsLength | tests/board2AI.py:47-50 | one character per column |
| Board2AI.DataLineShape | tests/board2AI.py:44-53 | a data line is its label then the seven cell characters separated by commas |
| Board2AI.VisualLinesShape | tests/board2AI.py:25-33 | visual line k shows row 6 - k |
| Board2AI.DataLinesShape | tests/board2AI.py:43-53 | data line k shows row k + 1 |
| Board2AI.AILinesSections | tests/board2AI.py:10-100 | the visual rows sit at entries 8 to 13 and the data lines at entries 18 to 23 of the `result` list |
| Board2AI.AITextLines | tests/board2AI.py:10-102 | the returned text of a known board splits at its newlines into exactly the `result` list: 2 x 6 + 19 lines, the visual rows at lines 8 to 13 and the data lines at lines 18 to 23 |
| C4Ollama.FirstStandalone | app/c4_ollama.py:132-136 | the first index holding a digit 1 to 7 with no word character on either side, or none exactly when there is no such index |
| C4Ollama.ParseWhole | app/c4_ollama.py:144-152 | int(response) read as a column: 0 to 6 or ValueError |
| C4Ollama.ParseAIResponse | app/c4_ollama.py:123-152 | the result is always a column 0 to 6 or ValueError |
| C4Ollama.ParseStandalone | app/c4_ollama.py:126-141 | with a standalone digit in the stripped response, the first one decides the column |
| C4Ollama.ParseNoStandalone | app/c4_ollama.py:143-152 | without one, the column is int(response) - 1 when that is 1 to 7, and ValueError otherwise |
| C4Ollama.ParseEmbedded | app/c4_ollama.py:123-141 | a column number written on its own inside text that holds no earlier standalone digit is read back as that column |
| C4Ollama.EmbeddedFirst | app/c4_ollama.py:132-134 | such a digit is the first standalone digit |
| C4Ollama.ParseLeadingZero | app/c4_ollama.py:132-147 | "07" has no standalone digit but int() reads it as 7, giving column 6 |
| C4Ollama.MarkerLine | app/c4_ollama.py:54-58 | the first line containing the marker, or none exactly when no line contains it |
| C4Ollama.FindMarker | app/c4_ollama.py:54-58 | -1 when no line holds the marker, else one past the first line that does |
| C4Ollama.RowStates | app/c4_ollama.py:71-78 | one entry per row |
| C4Ollama.RowStatesShape | app/c4_ollama.py:72-78 | entry r reads Row r + 1 and the cell's state, and holds no newline |
| C4Ollama.ColumnState | app/c4_ollama.py:69-80 | the loops build the column's line |
| C4Ollama.ColumnLineNoNewline | app/c4_ollama.py:69-80 | a column line holds no newline |
| C4Ollama.ColumnLines | app/c4_ollama.py:68-81 | one line per column |
| C4Ollama.ColumnLinesAt | app/c4_ollama.py:68-81 | line k describes column k |
| C4Ollama.ColumnsTextJoin | app/c4_ollama.py:68-81 | appending each column line and a newline is joining them by newlines and adding one |
| C4Ollama.ColumnsTextLines | app/c4_ollama.py:68-81 | the board text splits into the seven column lines and a final empty piece |
| C4Ollama.GeneratePrompt | app/c4_ollama.py:50-88 | the prompt is the head kept from the base prompt, then the seven column lines, with the current-player placeholder replaced |
| C4Ollama.PromptHeadPrefix | app/c4_ollama.py:63-65 | with the marker present the kept head is a prefix of the base prompt plus a newline |
| C4Ollama.PromptHeadLines | app/c4_ollama.py:63-65 | the kept head is the lines up to and including the marker line |
| C4Ollama.PromptHeadNoMarker | app/c4_ollama.py:60-62 | without the marker the whole base prompt is kept and the marker header appended |
| C4Ollama.PromptUnreplaced | app/c4_ollama.py:83-86 | for player X, or without the placeholder, the replacement changes nothing |
| C4Ollama.PlaceholderNamesX | app/c4_ollama.py:84-86 | the replacement for player 0 is the placeholder itself |

## Left out

- The game loops `RunGame`, `ttt_RunGame`, `RunGameOfLife`, `RunMazeGame` and `RunSnakeGame`: they only sequence the modelled operations with clocks, sleeps, prints and display refreshes. One move of each game is modelled. The loops themselves are not.
- Animation and drawing built on the display: `DropChip` and `DrawChips` (app/game.py:86-157), `Draw_Board` (app/ttt_game.py:138-154), the maze's 2 × 2 block drawing (app/maze.py:106-128) and `GameOfLife.get_pixels` with `_hsv_to_rgb` (app/gameoflife.py:80-119). The colour wheel works in floating point, and so does the hue offset that `update` advances (app/gameoflife.py:75-78).
- The second `while True` loop of `RunMazeGame` (app/maze.py:235 onwards): the first loop returns on every path, so it is never reached.
- The LED hardware and the font: `Display.__init__`'s matrix options, `text_set`, `text_render`, `text_loadFont` and `show` (app/display.py:13-45, 187-199, 249-252). The canvas is modelled as the map of the pixels written so far, and the overlay as an `array2` of the display's size.
- Display.Display.Background: the source scans column by column and the model row by row. Every write carries the same colour, so the final canvas is the same. The order of the writes is not modelled.
- Bresenham's line keeps the source's float error `dx / 2` doubled, as an integer. The comparisons against zero are unchanged by the doubling, so the same pixels are visited.
- Randomness: `random.shuffle`, `random.choice` and the fruit position become an arbitrary choice among the source's candidates. The obstacle corners and the Game of Life's initial board become parameters.
- Snake.SnakeGame.SpawnFruit and Snake.SnakeGame.Update require a free cell to exist whenever a fruit must be placed. Without one, `_spawn_fruit` loops forever.
- Snake.SnakeGame.constructor: requires the obstacles to fit on the field. The ValueError that `__init__` raises otherwise is modelled by Snake.NewGame, which returns it as an error result.
- Snake.GenerateObstacles: the random corners are a finite parameter sequence, so the model stops placing squares when the sequence runs out even if the target coverage has not been reached.
- The Ollama side of app/c4_ollama.py: `GetOllamaMove` (network call with a random fallback, lines 14-32), the prompt file read (lines 37-48), `call_ollama_api` (lines 91-120) and `test_connection`. `GeneratePrompt` takes the file's text as a parameter.
- C4Ollama.ParseAIResponse: `\b` and `int()` are modelled for ASCII text. Non-ASCII word characters count as non-word characters, and non-ASCII digits are not accepted by `int()`.
- Board2AI: `NUMROWS` and `NUMCOLS` are only defined under `__main__` in tests/board2AI.py. They are taken as 6 and 7, the values the section texts print.
- Boards of the wrong size: every Connect-4 operation requires a 7 × 6 board (`WellFormed`). Python would raise IndexError on a shorter list. The board cells are `Option<int>`, so values of other Python types are not modelled.
- C4Game.GameBoard.PlaceChip: the stored value is an integer or None, not an arbitrary Python object.
- C4Claude: `GetAIMove` calls `minimax` with beta = -inf, so every inner node cuts off after its first open column. This is modelled as written and stated by `C4Claude.SearchFollowsFirstColumn`; no corrected search is given.
- The games are not proved never to lose. Only the search values and the move choices are specified.
