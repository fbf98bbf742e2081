/** The alpha-beta Connect-4 player of tests/Claude/c4_claude.py. The board
    is one object whose cells the search changes in place, a chip placed and
    taken back for every trial move; scores are integers extended with the
    two infinities the source writes as float('inf'). */
module C4Claude {
  import opened Wrappers
  import opened C4Common
  import opened C4Shared

  /** The board list the search places and removes trial chips in. */
  class GameBoard {
    var cells: Board

    constructor(cells: Board)
      ensures this.cells == cells
    {
      this.cells := cells;
    }
  }

  // ---------------------------------------------------------------------
  // Window scoring

  /** evaluate_window */
  function EvaluateWindow(window: seq<Cell>, ai: int): int
  {
    var opponent := 1 - ai;
    var aiCount := Count(window, Some(ai));
    var oppCount := Count(window, Some(opponent));
    var emptyCount := Count(window, None);
    var gain := if aiCount == 4 then 100
                else if aiCount == 3 && emptyCount == 1 then 10
                else if aiCount == 2 && emptyCount == 2 then 2
                else 0;
    var penalty := if oppCount == 3 && emptyCount == 1 then 80
                   else if oppCount == 2 && emptyCount == 2 then 2
                   else 0;
    gain - penalty
  }

  /** The score table of a four-cell window: +100 for four AI chips, +10
      for three and an empty cell, +2 for two and two empty, -80 for three
      opponent chips and an empty cell, -2 for two and two empty, and 0 for
      every other window (a window never earns a bonus and a penalty). */
  lemma EvaluateWindowTable(window: seq<Cell>, ai: int)
    requires |window| == 4
    ensures var aiN := Count(window, Some(ai));
      var oppN := Count(window, Some(1 - ai));
      var empty := Count(window, None);
      var score := EvaluateWindow(window, ai);
      var patterned := aiN == 4 || (aiN == 3 && empty == 1) || (aiN == 2 && empty == 2)
        || (oppN == 3 && empty == 1) || (oppN == 2 && empty == 2);
      && (aiN == 4 ==> score == 100)
      && (aiN == 3 && empty == 1 ==> score == 10)
      && (aiN == 2 && empty == 2 ==> score == 2)
      && (oppN == 3 && empty == 1 ==> score == -80)
      && (oppN == 2 && empty == 2 ==> score == -2)
      && (!patterned ==> score == 0)
  {
    CountsFit(window, Some(ai), Some(1 - ai), None);
  }

  // ---------------------------------------------------------------------
  // Board evaluation

  /** Range of the outer loop variable of each family in evaluate_board. */
  function OuterLo(f: Family): int
  {
    if f == Falling then 3 else 0
  }

  function OuterHi(f: Family): int
  {
    match f
    case Horizontal => NUMROWS
    case Vertical => NUMCOLS
    case Rising => NUMROWS - 3
    case Falling => NUMROWS
  }

  /** Number of iterations of the inner loop. */
  function InnerHi(f: Family): int
  {
    if f == Vertical then NUMROWS - 3 else NUMCOLS - 3
  }

  /** The (col, row) of a window's first cell: the outer loop runs over
      columns for vertical windows and over rows for the others. */
  function Anchor(f: Family, outer: int, inner: int): (int, int)
  {
    if f == Vertical then (outer, inner) else (inner, outer)
  }

  /** The window list comprehension: four cells from the anchor on. */
  function Window(board: Board, f: Family, outer: int, inner: int): (w: seq<Cell>)
    requires WellFormed(board) && OuterLo(f) <= outer < OuterHi(f) && 0 <= inner < InnerHi(f)
    ensures |w| == 4
  {
    var (c, r) := Anchor(f, outer, inner);
    var (dc, dr) := Dir(f);
    [board[c][r], board[c + dc][r + dr], board[c + 2 * dc][r + 2 * dr], board[c + 3 * dc][r + 3 * dr]]
  }

  /** The inner loop's sum over the first n windows of one outer step. */
  function InnerSum(board: Board, ai: int, f: Family, outer: int, n: int): int
    requires WellFormed(board) && OuterLo(f) <= outer < OuterHi(f) && 0 <= n <= InnerHi(f)
  {
    if n == 0 then 0 else InnerSum(board, ai, f, outer, n - 1) + EvaluateWindow(Window(board, f, outer, n - 1), ai)
  }

  /** The outer loop's sum over the outer values below hi. */
  function OuterSum(board: Board, ai: int, f: Family, hi: int): int
    requires WellFormed(board) && OuterLo(f) <= hi <= OuterHi(f)
    decreases hi
  {
    if hi == OuterLo(f) then 0
    else OuterSum(board, ai, f, hi - 1) + InnerSum(board, ai, f, hi - 1, InnerHi(f))
  }

  function FamilyScore(board: Board, ai: int, f: Family): int
    requires WellFormed(board)
  {
    OuterSum(board, ai, f, OuterHi(f))
  }

  /** evaluate_board: the window scores of the four families plus 3 per AI
      chip in the centre column. */
  function BoardScore(board: Board, ai: int): int
    requires WellFormed(board)
  {
    FamilyScore(board, ai, Horizontal) + FamilyScore(board, ai, Vertical)
      + FamilyScore(board, ai, Rising) + FamilyScore(board, ai, Falling)
      + Count(board[NUMCOLS / 2], Some(ai)) * 3
  }

  /** One of the four pairs of nested loops of evaluate_board: the sum of
      the window scores of one family. */
  method ScoreFamily(board: Board, ai: int, f: Family) returns (score: int)
    requires WellFormed(board)
    ensures score == FamilyScore(board, ai, f)
  {
    score := 0;
    for outer := OuterLo(f) to OuterHi(f)
      invariant score == OuterSum(board, ai, f, outer)
    {
      for inner := 0 to InnerHi(f)
        invariant score == OuterSum(board, ai, f, outer) + InnerSum(board, ai, f, outer, inner)
      {
        score := score + EvaluateWindow(Window(board, f, outer, inner), ai);
      }
    }
  }

  /** evaluate_board: horizontal, vertical, rising and falling windows,
      then the centre column bonus. */
  method EvaluateBoard(board: Board, ai: int) returns (score: int)
    requires WellFormed(board)
    ensures score == BoardScore(board, ai)
  {
    score := 0;
    var s := ScoreFamily(board, ai, Horizontal);
    score := score + s;
    s := ScoreFamily(board, ai, Vertical);
    score := score + s;
    s := ScoreFamily(board, ai, Rising);
    score := score + s;
    s := ScoreFamily(board, ai, Falling);
    score := score + s;

    var centerCol := NUMCOLS / 2;
    var centerCount := Count(board[centerCol], Some(ai));
    score := score + centerCount * 3;
  }

  /** The board with no chip. */
  predicate Empty(board: Board)
    requires WellFormed(board)
  {
    forall c, k :: 0 <= c < NUMCOLS && 0 <= k < NUMROWS ==> board[c][k] == None
  }

  lemma EmptyWindow(board: Board, ai: int, f: Family, outer: int, inner: int)
    requires WellFormed(board) && Empty(board)
    requires OuterLo(f) <= outer < OuterHi(f) && 0 <= inner < InnerHi(f)
    ensures EvaluateWindow(Window(board, f, outer, inner), ai) == 0
  {
    var w := Window(board, f, outer, inner);
    assert w == [None, None, None, None];
    CountAbsent(w, Some(ai));
    CountAbsent(w, Some(1 - ai));
  }

  /** Every window of family f scores 0. */
  ghost predicate NeutralFamily(board: Board, ai: int, f: Family)
    requires WellFormed(board)
  {
    forall outer, inner :: OuterLo(f) <= outer < OuterHi(f) && 0 <= inner < InnerHi(f) ==>
      EvaluateWindow(Window(board, f, outer, inner), ai) == 0
  }

  lemma {:induction false} NeutralInner(board: Board, ai: int, f: Family, outer: int, n: int)
    requires WellFormed(board) && NeutralFamily(board, ai, f)
    requires OuterLo(f) <= outer < OuterHi(f) && 0 <= n <= InnerHi(f)
    ensures InnerSum(board, ai, f, outer, n) == 0
  {
    if n > 0 {
      NeutralInner(board, ai, f, outer, n - 1);
    }
  }

  lemma {:induction false} NeutralOuter(board: Board, ai: int, f: Family, hi: int)
    requires WellFormed(board) && NeutralFamily(board, ai, f) && OuterLo(f) <= hi <= OuterHi(f)
    decreases hi
    ensures OuterSum(board, ai, f, hi) == 0
  {
    if hi > OuterLo(f) {
      NeutralOuter(board, ai, f, hi - 1);
      NeutralInner(board, ai, f, hi - 1, InnerHi(f));
    }
  }

  lemma EmptyFamily(board: Board, ai: int, f: Family)
    requires WellFormed(board) && Empty(board)
    ensures FamilyScore(board, ai, f) == 0
  {
    forall outer, inner | OuterLo(f) <= outer < OuterHi(f) && 0 <= inner < InnerHi(f)
      ensures EvaluateWindow(Window(board, f, outer, inner), ai) == 0
    {
      EmptyWindow(board, ai, f, outer, inner);
    }
    NeutralOuter(board, ai, f, OuterHi(f));
  }

  /** An empty board scores 0. */
  lemma EmptyBoardScoresZero(board: Board, ai: int)
    requires WellFormed(board) && Empty(board)
    ensures BoardScore(board, ai) == 0
  {
    EmptyFamily(board, ai, Horizontal);
    EmptyFamily(board, ai, Vertical);
    EmptyFamily(board, ai, Rising);
    EmptyFamily(board, ai, Falling);
    EmptyCentre(board, ai);
  }

  lemma EmptyCentre(board: Board, ai: int)
    requires WellFormed(board) && Empty(board)
    ensures Count(board[NUMCOLS / 2], Some(ai)) == 0
  {
    CountAbsent(board[NUMCOLS / 2], Some(ai));
  }

  // ---------------------------------------------------------------------
  // The search

  /** Cell (c, k) comes strictly before (col, row) in the column-major
      order of the terminal scan. */
  predicate Before(c: int, k: int, col: int, row: int)
  {
    c < col || (c == col && k < row)
  }

  lemma BeforeNextRow(c: int, k: int, col: int, row: int)
    requires !Before(c, k, col, row) && (c, k) != (col, row)
    ensures !Before(c, k, col, row + 1)
  {
  }

  lemma BeforeNextColumn(c: int, k: int, col: int)
    requires !Before(c, k, col, NUMROWS) && 0 <= k < NUMROWS
    ensures !Before(c, k, col + 1, 0)
  {
  }

  /** The chip at (c, k) completes a four for its owner. */
  predicate Wins(board: Board, c: int, k: int)
    requires WellFormed(board) && InBounds(c, k)
  {
    board[c][k].Some? && WinnerFrom(board, c, k, board[c][k].value, 0).Some?
  }

  /** No chip from (col, row) on, and before (c, k), completes a four. */
  ghost predicate NoWinBetween(board: Board, col: int, row: int, c: int, k: int)
    requires WellFormed(board)
  {
    forall c', k' :: InBounds(c', k') && !Before(c', k', col, row) && Before(c', k', c, k) ==> !Wins(board, c', k')
  }

  /** The terminal scan of minimax from (col, row) on, in column-major
      order: the first cell whose chip completes a four, if any. */
  function WinScan(board: Board, col: int, row: int): Option<(int, int)>
    requires WellFormed(board) && 0 <= col <= NUMCOLS && 0 <= row <= NUMROWS
    decreases NUMCOLS - col, NUMROWS - row
  {
    if col == NUMCOLS then None
    else if row == NUMROWS then WinScan(board, col + 1, 0)
    else if Wins(board, col, row) then Some((col, row))
    else WinScan(board, col, row + 1)
  }

  /** WinScan from (col, row) on returns the first winning chip in scan
      order, and None exactly when no chip from there on completes a four. */
  ghost predicate ScanFindsFirst(board: Board, col: int, row: int)
    requires WellFormed(board) && 0 <= col <= NUMCOLS && 0 <= row <= NUMROWS
  {
    var w := WinScan(board, col, row);
    && (w.Some? ==> InBounds(w.value.0, w.value.1) && !Before(w.value.0, w.value.1, col, row)
                    && Wins(board, w.value.0, w.value.1)
                    && NoWinBetween(board, col, row, w.value.0, w.value.1))
    && (w.None? ==> NoWinBetween(board, col, row, NUMCOLS, 0))
  }

  lemma {:induction false} WinScanFirst(board: Board, col: int, row: int)
    requires WellFormed(board) && 0 <= col <= NUMCOLS && 0 <= row <= NUMROWS
    decreases NUMCOLS - col, NUMROWS - row
    ensures ScanFindsFirst(board, col, row)
  {
    if col == NUMCOLS {
    } else if row == NUMROWS {
      WinScanFirst(board, col + 1, 0);
      ScanNextColumn(board, col);
    } else if Wins(board, col, row) {
    } else {
      WinScanFirst(board, col, row + 1);
      ScanNextRow(board, col, row);
    }
  }

  /** At the top of a column the scan goes on at the bottom of the next. */
  lemma ScanNextColumn(board: Board, col: int)
    requires WellFormed(board) && 0 <= col < NUMCOLS && ScanFindsFirst(board, col + 1, 0)
    ensures ScanFindsFirst(board, col, NUMROWS)
  {
    var e := match WinScan(board, col + 1, 0) case Some(p) => p case None => (NUMCOLS, 0);
    forall c', k' | InBounds(c', k') && !Before(c', k', col, NUMROWS) && Before(c', k', e.0, e.1)
      ensures !Wins(board, c', k')
    {
      BeforeNextColumn(c', k', col);
    }
  }

  /** Past a cell without a winning chip the scan goes on one row up. */
  lemma ScanNextRow(board: Board, col: int, row: int)
    requires WellFormed(board) && 0 <= col < NUMCOLS && 0 <= row < NUMROWS && !Wins(board, col, row)
    requires ScanFindsFirst(board, col, row + 1)
    ensures ScanFindsFirst(board, col, row)
  {
    var e := match WinScan(board, col, row + 1) case Some(p) => p case None => (NUMCOLS, 0);
    forall c', k' | InBounds(c', k') && !Before(c', k', col, row) && Before(c', k', e.0, e.1)
      ensures !Wins(board, c', k')
    {
      if (c', k') != (col, row) {
        BeforeNextRow(c', k', col, row);
      }
    }
  }

  /** The terminal check of minimax: the nested scan over every cell,
      returning at the first chip that completes a four. */
  method FindWinningChip(board: Board) returns (found: Option<(int, int)>)
    requires WellFormed(board)
    ensures found == WinScan(board, 0, 0)
  {
    for col := 0 to NUMCOLS
      invariant WinScan(board, col, 0) == WinScan(board, 0, 0)
    {
      for row := 0 to NUMROWS
        invariant WinScan(board, col, row) == WinScan(board, 0, 0)
      {
        if board[col][row].Some? {
          var winner := CheckForWinner(board, col, row, board[col][row].value);
          if winner.Ok? && winner.value.Some? {
            return Some((col, row));
          }
        }
      }
    }
    return None;
  }

  /** The base cases of minimax: a win on the board (1000 + depth for the
      AI, -1000 - depth for the opponent), a draw (0), or the depth limit
      (the static evaluation); None when the search goes on. */
  function Terminal(board: Board, depth: int, ai: int): Option<ExtInt>
    requires WellFormed(board)
  {
    var w := WinScan(board, 0, 0);
    if w.Some? then Some(if board[w.value.0][w.value.1] == Some(ai) then Fin(1000 + depth) else Fin(-1000 - depth))
    else if CheckForDraw(board) then Some(Fin(0))
    else if depth <= 0 then Some(Fin(BoardScore(board, ai)))
    else None
  }

  /** minimax */
  function MinimaxValue(board: Board, depth: int, alpha: ExtInt, beta: ExtInt, isMaximizing: bool,
                        ai: int, current: int): ExtInt
    requires WellFormed(board)
    decreases if depth > 0 then depth else 0, NUMCOLS + 1
  {
    var t := Terminal(board, depth, ai);
    if t.Some? then t.value
    else if isMaximizing then MaxLoop(board, depth, alpha, beta, ai, current, 0, NegInf)
    else MinLoop(board, depth, alpha, beta, ai, current, 0, PosInf)
  }

  /** The maximizing `for col` loop from col on, with the running alpha and
      max_score. */
  function MaxLoop(board: Board, depth: int, alpha: ExtInt, beta: ExtInt, ai: int, current: int,
                   col: int, maxScore: ExtInt): ExtInt
    requires WellFormed(board) && depth > 0 && 0 <= col <= NUMCOLS
    decreases depth, NUMCOLS - col
  {
    if col == NUMCOLS then maxScore
    else
      var row := GetFirstOpenRow(board, col).value;
      if row.None? then MaxLoop(board, depth, alpha, beta, ai, current, col + 1, maxScore)
      else
        var score := ChildValue(board, depth, alpha, beta, false, ai, current, col);
        var m := Max(maxScore, score);
        var a := Max(alpha, score);
        if Le(beta, a) then m else MaxLoop(board, depth, a, beta, ai, current, col + 1, m)
  }

  /** The minimizing `for col` loop from col on, with the running beta and
      min_score. */
  function MinLoop(board: Board, depth: int, alpha: ExtInt, beta: ExtInt, ai: int, current: int,
                   col: int, minScore: ExtInt): ExtInt
    requires WellFormed(board) && depth > 0 && 0 <= col <= NUMCOLS
    decreases depth, NUMCOLS - col
  {
    if col == NUMCOLS then minScore
    else
      var row := GetFirstOpenRow(board, col).value;
      if row.None? then MinLoop(board, depth, alpha, beta, ai, current, col + 1, minScore)
      else
        var score := ChildValue(board, depth, alpha, beta, true, ai, current, col);
        var m := Min(minScore, score);
        var b := Min(beta, score);
        if Le(b, alpha) then m else MinLoop(board, depth, alpha, b, ai, current, col + 1, m)
  }

  /** The score minimax gives the chip of `current` in column col, one
      level down with the other player to move. */
  function ChildValue(board: Board, depth: int, alpha: ExtInt, beta: ExtInt, isMaximizing: bool,
                      ai: int, current: int, col: int): ExtInt
    requires WellFormed(board) && depth > 0 && 0 <= col < NUMCOLS && !ColumnFull(board, col)
    decreases depth, 0
  {
    MinimaxValue(Child(board, col, current), depth - 1, alpha, beta, isMaximizing, ai, Opponent(current))
  }

  /** One iteration of the maximizing loop. */
  lemma MaxLoopStep(board: Board, depth: int, alpha: ExtInt, beta: ExtInt, ai: int, current: int,
                    col: int, maxScore: ExtInt)
    requires WellFormed(board) && depth > 0 && 0 <= col < NUMCOLS
    ensures ColumnFull(board, col) ==>
      MaxLoop(board, depth, alpha, beta, ai, current, col, maxScore)
        == MaxLoop(board, depth, alpha, beta, ai, current, col + 1, maxScore)
    ensures !ColumnFull(board, col) ==>
      var score := ChildValue(board, depth, alpha, beta, false, ai, current, col);
      MaxLoop(board, depth, alpha, beta, ai, current, col, maxScore)
        == if Le(beta, Max(alpha, score)) then Max(maxScore, score)
           else MaxLoop(board, depth, Max(alpha, score), beta, ai, current, col + 1, Max(maxScore, score))
  {
  }

  /** One iteration of the minimizing loop. */
  lemma MinLoopStep(board: Board, depth: int, alpha: ExtInt, beta: ExtInt, ai: int, current: int,
                    col: int, minScore: ExtInt)
    requires WellFormed(board) && depth > 0 && 0 <= col < NUMCOLS
    ensures ColumnFull(board, col) ==>
      MinLoop(board, depth, alpha, beta, ai, current, col, minScore)
        == MinLoop(board, depth, alpha, beta, ai, current, col + 1, minScore)
    ensures !ColumnFull(board, col) ==>
      var score := ChildValue(board, depth, alpha, beta, true, ai, current, col);
      MinLoop(board, depth, alpha, beta, ai, current, col, minScore)
        == if Le(Min(beta, score), alpha) then Min(minScore, score)
           else MinLoop(board, depth, alpha, Min(beta, score), ai, current, col + 1, Min(minScore, score))
  {
  }

  /** minimax, placing and removing each trial chip on the shared board. */
  method Minimax(b: GameBoard, depth: int, alpha: ExtInt, beta: ExtInt, isMaximizing: bool,
                 ai: int, current: int) returns (score: ExtInt)
    requires WellFormed(b.cells)
    modifies b
    decreases if depth > 0 then depth else 0, 2
    ensures b.cells == old(b.cells)
    ensures score == MinimaxValue(old(b.cells), depth, alpha, beta, isMaximizing, ai, current)
  {
    var t := TerminalScore(b.cells, depth, ai);
    if t.Some? {
      return t.value;
    }
    if isMaximizing {
      score := MaxSearch(b, depth, alpha, beta, ai, current);
    } else {
      score := MinSearch(b, depth, alpha, beta, ai, current);
    }
  }

  /** The base cases at the top of minimax. */
  method TerminalScore(board: Board, depth: int, ai: int) returns (t: Option<ExtInt>)
    requires WellFormed(board)
    ensures t == Terminal(board, depth, ai)
  {
    var winner := FindWinningChip(board);
    if winner.Some? {
      if board[winner.value.0][winner.value.1] == Some(ai) {
        return Some(Fin(1000 + depth));
      } else {
        return Some(Fin(-1000 - depth));
      }
    }

    if CheckForDraw(board) {
      return Some(Fin(0));
    }

    if depth <= 0 {
      var e := EvaluateBoard(board, ai);
      return Some(Fin(e));
    }
    return None;
  }

  /** Make the move, score it with minimax one level down, undo the move. */
  method TryMove(b: GameBoard, col: int, row: int, depth: int, alpha: ExtInt, beta: ExtInt,
                 isMaximizing: bool, ai: int, current: int) returns (score: ExtInt)
    requires WellFormed(b.cells) && depth > 0 && 0 <= col < NUMCOLS && !ColumnFull(b.cells, col)
    requires row == OpenRow(b.cells, col)
    modifies b
    decreases depth, 0
    ensures b.cells == old(b.cells)
    ensures score == ChildValue(old(b.cells), depth, alpha, beta, isMaximizing, ai, current, col)
  {
    ghost var board := b.cells;
    b.cells := Place(b.cells, col, row, Some(current));
    ghost var child := b.cells;
    assert child == Child(board, col, current);
    var opponent := Opponent(current);
    score := Minimax(b, depth - 1, alpha, beta, isMaximizing, ai, opponent);
    assert score == MinimaxValue(Child(board, col, current), depth - 1, alpha, beta, isMaximizing, ai, opponent);
    ChildValueUnfold(board, depth, alpha, beta, isMaximizing, ai, current, col);
    b.cells := Place(b.cells, col, row, None);
    PlaceUndo(board, col, row, Some(current));
  }

  /** The maximizing branch of minimax: try every open column, keep the
      best score and raise alpha, stop once beta <= alpha. */
  method MaxSearch(b: GameBoard, depth: int, alpha: ExtInt, beta: ExtInt, ai: int, current: int)
    returns (maxScore: ExtInt)
    requires WellFormed(b.cells) && depth > 0
    modifies b
    decreases depth, 1
    ensures b.cells == old(b.cells)
    ensures maxScore == MaxLoop(old(b.cells), depth, alpha, beta, ai, current, 0, NegInf)
  {
    ghost var board := b.cells;
    var alpha' := alpha;
    maxScore := NegInf;
    for col := 0 to NUMCOLS
      invariant b.cells == board
      invariant MaxLoop(board, depth, alpha', beta, ai, current, col, maxScore)
             == MaxLoop(board, depth, alpha, beta, ai, current, 0, NegInf)
    {
      MaxLoopStep(board, depth, alpha', beta, ai, current, col, maxScore);
      var row := GetFirstOpenRow(b.cells, col).value;
      if row.Some? {
        assert OpenRow(board, col) == row.value;
        var score := TryMove(b, col, row.value, depth, alpha', beta, false, ai, current);
        ghost var before := MaxLoop(board, depth, alpha', beta, ai, current, col, maxScore);
        maxScore := Max(maxScore, score);
        alpha' := Max(alpha', score);
        if Le(beta, alpha') {
          assert before == maxScore;
          return;
        }
        assert before == MaxLoop(board, depth, alpha', beta, ai, current, col + 1, maxScore);
      } else {
        assert ColumnFull(board, col);
      }
    }
  }

  /** The minimizing branch of minimax: try every open column, keep the
      least score and lower beta, stop once beta <= alpha. */
  method MinSearch(b: GameBoard, depth: int, alpha: ExtInt, beta: ExtInt, ai: int, current: int)
    returns (minScore: ExtInt)
    requires WellFormed(b.cells) && depth > 0
    modifies b
    decreases depth, 1
    ensures b.cells == old(b.cells)
    ensures minScore == MinLoop(old(b.cells), depth, alpha, beta, ai, current, 0, PosInf)
  {
    ghost var board := b.cells;
    var beta' := beta;
    minScore := PosInf;
    for col := 0 to NUMCOLS
      invariant b.cells == board
      invariant MinLoop(board, depth, alpha, beta', ai, current, col, minScore)
             == MinLoop(board, depth, alpha, beta, ai, current, 0, PosInf)
    {
      MinLoopStep(board, depth, alpha, beta', ai, current, col, minScore);
      var row := GetFirstOpenRow(b.cells, col).value;
      if row.Some? {
        assert OpenRow(board, col) == row.value;
        var score := TryMove(b, col, row.value, depth, alpha, beta', true, ai, current);
        ghost var before := MinLoop(board, depth, alpha, beta', ai, current, col, minScore);
        minScore := Min(minScore, score);
        beta' := Min(beta', score);
        if Le(beta', alpha) {
          assert before == minScore;
          return;
        }
        assert before == MinLoop(board, depth, alpha, beta', ai, current, col + 1, minScore);
      } else {
        assert ColumnFull(board, col);
      }
    }
  }

  // ---------------------------------------------------------------------
  // Properties of the search

  /** minimax never returns an infinity: every leaf is a finite score and a
      node that is not a draw has an open column to try. */
  lemma {:induction false} MinimaxIsFinite(board: Board, depth: int, alpha: ExtInt, beta: ExtInt,
                                           isMaximizing: bool, ai: int, current: int)
    requires WellFormed(board)
    decreases if depth > 0 then depth else 0, NUMCOLS + 1, 0
    ensures MinimaxValue(board, depth, alpha, beta, isMaximizing, ai, current).Fin?
  {
    if Terminal(board, depth, ai).None? {
      assert !BoardFull(board);
      var c, k :| 0 <= c < NUMCOLS && 0 <= k < NUMROWS && board[c][k] == None;
      assert !ColumnFull(board, c);
      if isMaximizing {
        MaxLoopIsFinite(board, depth, alpha, beta, ai, current, 0, NegInf);
      } else {
        MinLoopIsFinite(board, depth, alpha, beta, ai, current, 0, PosInf);
      }
    }
  }

  lemma {:induction false} ChildIsFinite(board: Board, depth: int, alpha: ExtInt, beta: ExtInt,
                                         isMaximizing: bool, ai: int, current: int, col: int)
    requires WellFormed(board) && depth > 0 && 0 <= col < NUMCOLS && !ColumnFull(board, col)
    decreases depth, 0, 0
    ensures ChildValue(board, depth, alpha, beta, isMaximizing, ai, current, col).Fin?
  {
    var child := Child(board, col, current);
    var opponent := Opponent(current);
    MinimaxIsFinite(child, depth - 1, alpha, beta, isMaximizing, ai, opponent);
    ChildValueUnfold(board, depth, alpha, beta, isMaximizing, ai, current, col);
  }

  lemma ChildValueUnfold(board: Board, depth: int, alpha: ExtInt, beta: ExtInt,
                                         isMaximizing: bool, ai: int, current: int, col: int)
    requires WellFormed(board) && depth > 0 && 0 <= col < NUMCOLS && !ColumnFull(board, col)
    ensures ChildValue(board, depth, alpha, beta, isMaximizing, ai, current, col)
         == MinimaxValue(Child(board, col, current), depth - 1, alpha, beta, isMaximizing, ai, Opponent(current))
  {
  }

  /** Some column from col on is still open. */
  predicate OpenFrom(board: Board, col: int)
    requires WellFormed(board)
  {
    exists c :: col <= c < NUMCOLS && 0 <= c && !ColumnFull(board, c)
  }

  lemma {:induction false} MaxLoopIsFinite(board: Board, depth: int, alpha: ExtInt, beta: ExtInt, ai: int,
                                           current: int, col: int, maxScore: ExtInt)
    requires WellFormed(board) && depth > 0 && 0 <= col <= NUMCOLS
    requires maxScore.Fin? || (maxScore == NegInf && OpenFrom(board, col))
    decreases depth, NUMCOLS - col, 1
    ensures MaxLoop(board, depth, alpha, beta, ai, current, col, maxScore).Fin?
  {
    if col == NUMCOLS {
    } else if ColumnFull(board, col) {
      if maxScore == NegInf {
        var c :| col <= c < NUMCOLS && 0 <= c && !ColumnFull(board, c);
        assert c != col;
      }
      assert MaxLoop(board, depth, alpha, beta, ai, current, col, maxScore)
          == MaxLoop(board, depth, alpha, beta, ai, current, col + 1, maxScore);
      MaxLoopIsFinite(board, depth, alpha, beta, ai, current, col + 1, maxScore);
    } else {
      MaxLoopOpenIsFinite(board, depth, alpha, beta, ai, current, col, maxScore);
    }
  }

  lemma {:induction false} MaxLoopOpenIsFinite(board: Board, depth: int, alpha: ExtInt, beta: ExtInt, ai: int,
                                               current: int, col: int, maxScore: ExtInt)
    requires WellFormed(board) && depth > 0 && 0 <= col < NUMCOLS && !ColumnFull(board, col)
    requires maxScore.Fin? || maxScore == NegInf
    decreases depth, NUMCOLS - col, 0
    ensures MaxLoop(board, depth, alpha, beta, ai, current, col, maxScore).Fin?
  {
    var score := ChildValue(board, depth, alpha, beta, false, ai, current, col);
    ChildIsFinite(board, depth, alpha, beta, false, ai, current, col);
    var m := Max(maxScore, score);
    MaxLoopStep(board, depth, alpha, beta, ai, current, col, maxScore);
    if !Le(beta, Max(alpha, score)) {
      MaxLoopIsFinite(board, depth, Max(alpha, score), beta, ai, current, col + 1, m);
    }
  }


  lemma {:induction false} MinLoopIsFinite(board: Board, depth: int, alpha: ExtInt, beta: ExtInt, ai: int,
                                           current: int, col: int, minScore: ExtInt)
    requires WellFormed(board) && depth > 0 && 0 <= col <= NUMCOLS
    requires minScore.Fin? || (minScore == PosInf && OpenFrom(board, col))
    decreases depth, NUMCOLS - col, 1
    ensures MinLoop(board, depth, alpha, beta, ai, current, col, minScore).Fin?
  {
    if col == NUMCOLS {
    } else if ColumnFull(board, col) {
      if minScore == PosInf {
        var c :| col <= c < NUMCOLS && 0 <= c && !ColumnFull(board, c);
        assert c != col;
      }
      assert MinLoop(board, depth, alpha, beta, ai, current, col, minScore)
          == MinLoop(board, depth, alpha, beta, ai, current, col + 1, minScore);
      MinLoopIsFinite(board, depth, alpha, beta, ai, current, col + 1, minScore);
    } else {
      MinLoopOpenIsFinite(board, depth, alpha, beta, ai, current, col, minScore);
    }
  }

  lemma {:induction false} MinLoopOpenIsFinite(board: Board, depth: int, alpha: ExtInt, beta: ExtInt, ai: int,
                                               current: int, col: int, minScore: ExtInt)
    requires WellFormed(board) && depth > 0 && 0 <= col < NUMCOLS && !ColumnFull(board, col)
    requires minScore.Fin? || minScore == PosInf
    decreases depth, NUMCOLS - col, 0
    ensures MinLoop(board, depth, alpha, beta, ai, current, col, minScore).Fin?
  {
    var score := ChildValue(board, depth, alpha, beta, true, ai, current, col);
    ChildIsFinite(board, depth, alpha, beta, true, ai, current, col);
    var m := Min(minScore, score);
    MinLoopStep(board, depth, alpha, beta, ai, current, col, minScore);
    if !Le(Min(beta, score), alpha) {
      MinLoopIsFinite(board, depth, alpha, Min(beta, score), ai, current, col + 1, m);
    }
  }


  /** The leftmost open column from col on. */
  function FirstOpenColumn(board: Board, col: int): (r: Option<int>)
    requires WellFormed(board) && 0 <= col <= NUMCOLS
    decreases NUMCOLS - col
    ensures r.Some? ==> && col <= r.value < NUMCOLS && !ColumnFull(board, r.value)
                        && forall c :: col <= c < r.value ==> ColumnFull(board, c)
    ensures r.None? ==> forall c :: col <= c < NUMCOLS ==> ColumnFull(board, c)
  {
    if col == NUMCOLS then None
    else if !ColumnFull(board, col) then Some(col)
    else FirstOpenColumn(board, col + 1)
  }

  /** With alpha = beta = -inf every node is cut off after its first child:
      the maximizing loop returns the score of the leftmost open column. */
  lemma {:induction false} MaxLoopFirstOnly(board: Board, depth: int, ai: int, current: int, col: int)
    requires WellFormed(board) && depth > 0 && 0 <= col <= NUMCOLS
    decreases NUMCOLS - col
    ensures var c := FirstOpenColumn(board, col);
      MaxLoop(board, depth, NegInf, NegInf, ai, current, col, NegInf)
        == if c.None? then NegInf
           else ChildValue(board, depth, NegInf, NegInf, false, ai, current, c.value)
  {
    if col < NUMCOLS {
      MaxLoopStep(board, depth, NegInf, NegInf, ai, current, col, NegInf);
      if ColumnFull(board, col) {
        MaxLoopFirstOnly(board, depth, ai, current, col + 1);
      } else {
        assert FirstOpenColumn(board, col) == Some(col);
      }
    }
  }

  /** ... and so does the minimizing loop. */
  lemma {:induction false} MinLoopFirstOnly(board: Board, depth: int, ai: int, current: int, col: int)
    requires WellFormed(board) && depth > 0 && 0 <= col <= NUMCOLS
    decreases NUMCOLS - col
    ensures var c := FirstOpenColumn(board, col);
      MinLoop(board, depth, NegInf, NegInf, ai, current, col, PosInf)
        == if c.None? then PosInf
           else ChildValue(board, depth, NegInf, NegInf, true, ai, current, c.value)
  {
    if col < NUMCOLS {
      MinLoopStep(board, depth, NegInf, NegInf, ai, current, col, PosInf);
      if ColumnFull(board, col) {
        MinLoopFirstOnly(board, depth, ai, current, col + 1);
      } else {
        assert FirstOpenColumn(board, col) == Some(col);
      }
    }
  }

  /** The window GetAIMove opens, alpha = beta = -inf, prunes every
      non-terminal node to its leftmost open column: the search follows one
      line of play instead of exploring the tree. */
  lemma SearchFollowsFirstColumn(board: Board, depth: int, isMaximizing: bool, ai: int, current: int)
    requires WellFormed(board) && depth > 0 && Terminal(board, depth, ai).None?
    ensures var c := FirstOpenColumn(board, 0);
      && c.Some?
      && MinimaxValue(board, depth, NegInf, NegInf, isMaximizing, ai, current)
         == ChildValue(board, depth, NegInf, NegInf, !isMaximizing, ai, current, c.value)
  {
    assert !BoardFull(board);
    var c, k :| 0 <= c < NUMCOLS && 0 <= k < NUMROWS && board[c][k] == None;
    assert !ColumnFull(board, c);
    if isMaximizing {
      MaxLoopFirstOnly(board, depth, ai, current, 0);
    } else {
      MinLoopFirstOnly(board, depth, ai, current, 0);
    }
  }

  // ---------------------------------------------------------------------
  // GetAIMove

  /** The depth GetAIMove searches: level, raised to 1 when not positive. */
  function SearchDepth(level: int): (d: int)
    ensures d >= 1 && (level >= 1 ==> d == level)
  {
    if level <= 0 then 1 else level
  }

  /** The minimax score GetAIMove gives the chip of `player` in column col:
      the child one level down, the opponent to move, alpha = beta = -inf. */
  function MoveScore(board: Board, player: int, depth: int, col: int): ExtInt
    requires WellFormed(board) && depth > 0 && 0 <= col < NUMCOLS && !ColumnFull(board, col)
  {
    ChildValue(board, depth, NegInf, NegInf, false, player, player, col)
  }

  /** What the `for col` loop of GetAIMove sees in each column: nothing for
      a full column, else the row the chip lands in and its score. */
  function ColumnMoves(board: Board, player: int, depth: int): (r: seq<Option<(int, ExtInt)>>)
    requires WellFormed(board) && depth > 0
    ensures |r| == NUMCOLS
    ensures forall c :: 0 <= c < NUMCOLS ==>
      if ColumnFull(board, c) then r[c] == None else r[c] == Some((OpenRow(board, c), MoveScore(board, player, depth, c)))
  {
    seq(NUMCOLS, c requires 0 <= c < NUMCOLS =>
      if ColumnFull(board, c) then None else Some((OpenRow(board, c), MoveScore(board, player, depth, c))))
  }

  /** The moves GetAIMove picks among are exactly the open columns, each
      with the row its chip lands in, whose minimax score is the best of
      all open columns; there are none exactly when the board is full. */
  lemma BestMovesAreBest(board: Board, player: int, level: int)
    requires WellFormed(board)
    ensures var depth := SearchDepth(level);
      var r := Ranking(ColumnMoves(board, player, depth), 0, NegInf, []);
      && (forall i :: 0 <= i < |r.1| ==>
            0 <= r.1[i].0 < NUMCOLS && !ColumnFull(board, r.1[i].0) && r.1[i].1 == OpenRow(board, r.1[i].0)
            && MoveScore(board, player, depth, r.1[i].0) == r.0)
      && (forall c :: 0 <= c < NUMCOLS && !ColumnFull(board, c) ==>
            Le(MoveScore(board, player, depth, c), r.0)
            && (MoveScore(board, player, depth, c) == r.0 ==> (c, OpenRow(board, c)) in r.1))
      && (r.1 == [] <==> BoardFull(board))
  {
    var depth := SearchDepth(level);
    var cands := ColumnMoves(board, player, depth);
    RankingCorrect(cands, 0, NegInf, []);
    var r := Ranking(cands, 0, NegInf, []);
    forall i | 0 <= i < |r.1|
      ensures 0 <= r.1[i].0 < NUMCOLS && !ColumnFull(board, r.1[i].0) && r.1[i].1 == OpenRow(board, r.1[i].0)
            && MoveScore(board, player, depth, r.1[i].0) == r.0
    {
      assert cands[r.1[i].0] == Some((r.1[i].1, r.0));
    }
    forall c | 0 <= c < NUMCOLS && !ColumnFull(board, c)
      ensures Le(MoveScore(board, player, depth, c), r.0)
      ensures MoveScore(board, player, depth, c) == r.0 ==> (c, OpenRow(board, c)) in r.1
    {
      assert cands[c].Some?;
    }
    if r.1 == [] {
      forall c, k | 0 <= c < NUMCOLS && 0 <= k < NUMROWS ensures board[c][k] != None {
        assert cands[c].None?;
      }
    } else {
      var c := r.1[0].0;
      assert 0 <= c < NUMCOLS && !ColumnFull(board, c);
      var k :| 0 <= k < NUMROWS && board[c][k] == None;
      assert !BoardFull(board);
    }
  }

  /** GetAIMove: score every open column with minimax and pick one of the
      best at random; on a full board, a random column's first open row or
      (0, 0). */
  method GetAIMove(b: GameBoard, player: int, level: int) returns (move: (int, int))
    requires WellFormed(b.cells)
    modifies b
    ensures b.cells == old(b.cells)
    ensures var moves := Ranking(ColumnMoves(old(b.cells), player, SearchDepth(level)), 0, NegInf, []).1;
      (moves != [] ==> move in moves) && (moves == [] ==> move == (0, 0))
  {
    var depth := level;
    if depth <= 0 {
      depth := 1;
    }
    ghost var board := b.cells;
    ghost var cands := ColumnMoves(board, player, depth);
    var bestMoves: seq<(int, int)> := [];
    var bestScore := NegInf;
    for col := 0 to NUMCOLS
      invariant b.cells == board
      invariant Ranking(cands, col, bestScore, bestMoves) == Ranking(cands, 0, NegInf, [])
    {
      var row := GetFirstOpenRow(b.cells, col).value;
      if row.Some? {
        assert OpenRow(board, col) == row.value;
        var score := TryMove(b, col, row.value, depth, NegInf, NegInf, false, player, player);
        assert cands[col] == Some((row.value, score));
        if Lt(bestScore, score) {
          bestScore := score;
          bestMoves := [(col, row.value)];
        } else if score == bestScore {
          bestMoves := bestMoves + [(col, row.value)];
        }
      } else {
        assert cands[col] == None;
      }
    }

    if bestMoves != [] {
      assert bestMoves[0] in bestMoves;
      move :| move in bestMoves;
    } else {
      var col :| 0 <= col < NUMCOLS;
      var row := GetFirstOpenRow(b.cells, col).value;
      BestMovesAreBest(board, player, level);
      // No column is open here, so the (col, row) alternative is never taken.
      assert ColumnFull(board, col);
      assert row == None;
      move := (0, 0);
    }
  }
}
