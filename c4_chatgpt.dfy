/** The Connect-4 player of tests/ChatGPT/c4_chatgpt.py. Every trial move is
    made on a deep copy of the board, so boards are values here and the
    caller's board is never changed. The search of the nested `minimax`
    keeps every score from the AI's point of view, negates the scores of
    the opponent's children and then takes their minimum, exactly as the
    source does. */
module C4ChatGPT {
  import opened Wrappers
  import opened C4Common
  import opened C4Shared

  // ---------------------------------------------------------------------
  // evaluate_window and score_position

  /** evaluate_window */
  function EvaluateWindow(window: seq<Cell>, player: int): int
  {
    var opponent := 1 - player;
    var count := Count(window, Some(player));
    var empty := Count(window, None);
    var gain := if count == 4 then 1000
                else if count == 3 && empty == 1 then 10
                else if count == 2 && empty == 2 then 1
                else 0;
    var penalty := if Count(window, Some(opponent)) == 3 && empty == 1 then 50 else 0;
    gain - penalty
  }

  /** The score table of a four-cell window: +1000 for four of the player's
      chips, +10 for three and an empty cell, +1 for two and two empty, -50
      for three opponent chips and an empty cell, and 0 for every other
      window (no window earns a bonus and the penalty). */
  lemma EvaluateWindowTable(window: seq<Cell>, player: int)
    requires |window| == 4
    ensures var own := Count(window, Some(player));
      var opp := Count(window, Some(1 - player));
      var empty := Count(window, None);
      var score := EvaluateWindow(window, player);
      var patterned := own == 4 || (own == 3 && empty == 1) || (own == 2 && empty == 2) || (opp == 3 && empty == 1);
      && (own == 4 ==> score == 1000)
      && (own == 3 && empty == 1 ==> score == 10)
      && (own == 2 && empty == 2 ==> score == 1)
      && (opp == 3 && empty == 1 ==> score == -50)
      && (!patterned ==> score == 0)
  {
    CountsFit(window, Some(player), Some(1 - player), None);
  }

  /** Range of the outer loop variable of each family in score_position:
      rows for horizontal windows, columns for the others. */
  function OuterHi(f: Family): int
  {
    match f
    case Horizontal => NUMROWS
    case Vertical => NUMCOLS
    case Rising => NUMCOLS - 3
    case Falling => NUMCOLS - 3
  }

  /** Range of the inner loop variable: columns for horizontal windows, rows
      for the others; the falling diagonals start at row 3. */
  function InnerLo(f: Family): int
  {
    if f == Falling then 3 else 0
  }

  function InnerHi(f: Family): int
  {
    match f
    case Horizontal => NUMCOLS - 3
    case Vertical => NUMROWS - 3
    case Rising => NUMROWS - 3
    case Falling => NUMROWS
  }

  /** The (col, row) of a window's first cell. */
  function Anchor(f: Family, outer: int, inner: int): (int, int)
  {
    if f == Horizontal then (inner, outer) else (outer, inner)
  }

  /** The window list comprehension: four cells from the anchor on. */
  function Window(board: Board, f: Family, outer: int, inner: int): (w: seq<Cell>)
    requires WellFormed(board) && 0 <= outer < OuterHi(f) && InnerLo(f) <= inner < InnerHi(f)
    ensures |w| == 4
  {
    var (c, r) := Anchor(f, outer, inner);
    var (dc, dr) := Dir(f);
    [board[c][r], board[c + dc][r + dr], board[c + 2 * dc][r + 2 * dr], board[c + 3 * dc][r + 3 * dr]]
  }

  /** The inner loop's sum over the windows below hi of one outer step. */
  function InnerSum(board: Board, player: int, f: Family, outer: int, hi: int): int
    requires WellFormed(board) && 0 <= outer < OuterHi(f) && InnerLo(f) <= hi <= InnerHi(f)
    decreases hi
  {
    if hi == InnerLo(f) then 0
    else InnerSum(board, player, f, outer, hi - 1) + EvaluateWindow(Window(board, f, outer, hi - 1), player)
  }

  /** The outer loop's sum over the outer values below hi. */
  function OuterSum(board: Board, player: int, f: Family, hi: int): int
    requires WellFormed(board) && 0 <= hi <= OuterHi(f)
  {
    if hi == 0 then 0
    else OuterSum(board, player, f, hi - 1) + InnerSum(board, player, f, hi - 1, InnerHi(f))
  }

  function FamilyScore(board: Board, player: int, f: Family): int
    requires WellFormed(board)
  {
    OuterSum(board, player, f, OuterHi(f))
  }

  /** score_position: the window scores of the four families. */
  function PositionScore(board: Board, player: int): int
    requires WellFormed(board)
  {
    FamilyScore(board, player, Horizontal) + FamilyScore(board, player, Vertical)
      + FamilyScore(board, player, Rising) + FamilyScore(board, player, Falling)
  }

  /** One of the four pairs of nested loops of score_position. */
  method ScoreFamily(board: Board, player: int, f: Family) returns (score: int)
    requires WellFormed(board)
    ensures score == FamilyScore(board, player, f)
  {
    score := 0;
    for outer := 0 to OuterHi(f)
      invariant score == OuterSum(board, player, f, outer)
    {
      var s := ScoreLine(board, player, f, outer);
      score := score + s;
    }
  }

  /** The inner loop of one family for one value of the outer variable. */
  method ScoreLine(board: Board, player: int, f: Family, outer: int) returns (score: int)
    requires WellFormed(board) && 0 <= outer < OuterHi(f)
    ensures score == InnerSum(board, player, f, outer, InnerHi(f))
  {
    score := 0;
    for inner := InnerLo(f) to InnerHi(f)
      invariant score == InnerSum(board, player, f, outer, inner)
    {
      score := score + EvaluateWindow(Window(board, f, outer, inner), player);
    }
  }

  /** score_position */
  method ScorePosition(board: Board, player: int) returns (score: int)
    requires WellFormed(board)
    ensures score == PositionScore(board, player)
  {
    score := 0;
    var s := ScoreFamily(board, player, Horizontal);
    score := score + s;
    s := ScoreFamily(board, player, Vertical);
    score := score + s;
    s := ScoreFamily(board, player, Rising);
    score := score + s;
    s := ScoreFamily(board, player, Falling);
    score := score + s;
  }

  // ---------------------------------------------------------------------
  // The number of empty cells, which every trial move lowers by one

  /** Empty cells in the columns below n. */
  function EmptiesBelow(board: Board, n: int): nat
    requires WellFormed(board) && 0 <= n <= NUMCOLS
  {
    if n == 0 then 0 else EmptiesBelow(board, n - 1) + Count(board[n - 1], None)
  }

  function Empties(board: Board): nat
    requires WellFormed(board)
  {
    EmptiesBelow(board, NUMCOLS)
  }

  /** Overwriting the empty cell i with a chip removes one empty cell. */
  lemma {:induction false} CountFill(s: seq<Cell>, i: int, x: Cell)
    requires 0 <= i < |s| && s[i] == None && x != None
    ensures Count(s[i := x], None) + 1 == Count(s, None)
  {
    if i > 0 {
      CountFill(s[1..], i - 1, x);
      assert s[i := x][1..] == s[1..][i - 1 := x];
    }
  }

  lemma {:induction false} EmptiesBelowFill(board: Board, col: int, player: int, n: int)
    requires WellFormed(board) && 0 <= col < NUMCOLS && !ColumnFull(board, col) && 0 <= n <= NUMCOLS
    ensures EmptiesBelow(Child(board, col, player), n) + (if col < n then 1 else 0) == EmptiesBelow(board, n)
  {
    if n > 0 {
      EmptiesBelowFill(board, col, player, n - 1);
      var child := Child(board, col, player);
      if n - 1 == col {
        var row := OpenRow(board, col);
        assert child[col] == board[col][row := Some(player)];
        CountFill(board[col], row, Some(player));
      } else {
        assert child[n - 1] == board[n - 1];
      }
    }
  }

  /** A chip dropped into an open column fills one empty cell. */
  lemma EmptiesDrop(board: Board, col: int, player: int)
    requires WellFormed(board) && 0 <= col < NUMCOLS && !ColumnFull(board, col)
    ensures Empties(Child(board, col, player)) + 1 == Empties(board)
  {
    EmptiesBelowFill(board, col, player, NUMCOLS);
  }

  // ---------------------------------------------------------------------
  // minimax

  /** valid_moves from column c on: the open columns, left to right. */
  function OpenColumnsFrom(board: Board, c: int): (moves: seq<int>)
    requires WellFormed(board) && 0 <= c <= NUMCOLS
    decreases NUMCOLS - c
    ensures |moves| <= NUMCOLS - c
    ensures forall i :: 0 <= i < |moves| ==> c <= moves[i] < NUMCOLS && !ColumnFull(board, moves[i])
    ensures forall i, j :: 0 <= i < j < |moves| ==> moves[i] < moves[j]
    ensures forall d :: c <= d < NUMCOLS && !ColumnFull(board, d) ==> d in moves
  {
    if c == NUMCOLS then []
    else if GetFirstOpenRow(board, c).value.Some? then [c] + OpenColumnsFrom(board, c + 1)
    else OpenColumnsFrom(board, c + 1)
  }

  /** valid_moves */
  function ValidMoves(board: Board): seq<int>
    requires WellFormed(board)
  {
    OpenColumnsFrom(board, 0)
  }

  /** A list of open columns, as minimax and its loops receive them. */
  predicate OpenColumns(board: Board, moves: seq<int>)
    requires WellFormed(board)
  {
    |moves| <= NUMCOLS && forall i :: 0 <= i < |moves| ==> 0 <= moves[i] < NUMCOLS && !ColumnFull(board, moves[i])
  }

  /** CheckForWinner on the copy where `player` has dropped a chip into the
      open column c is truthy: the chip completes a four. */
  predicate WinsAt(board: Board, c: int, player: int)
    requires WellFormed(board) && 0 <= c < NUMCOLS && !ColumnFull(board, c)
  {
    var w := Winner(Child(board, c, player), c, OpenRow(board, c), player);
    w.Ok? && w.value.Some?
  }

  /** The is_terminal scan: some move of the list wins at once. */
  predicate AnyWins(board: Board, player: int, moves: seq<int>)
    requires WellFormed(board) && OpenColumns(board, moves)
  {
    moves != [] && (WinsAt(board, moves[0], player) || AnyWins(board, player, moves[1..]))
  }

  /** The value the nested minimax returns: score_position at depth 0, when
      the player to move can win at once, or on a full board; otherwise the
      maximum of the children's scores on the AI's turn and the minimum of
      their negations on the opponent's. Boards with fewer empty cells come
      first, whatever the depth: a negative depth searches to the end. */
  function Value(board: Board, depth: int, current: int, player: int): int
    requires WellFormed(board)
    decreases Empties(board), NUMCOLS + 2
  {
    var moves := ValidMoves(board);
    if depth == 0 || AnyWins(board, current, moves) || moves == [] then PositionScore(board, player)
    else
      var scores := Scores(board, depth, current, player, moves);
      if current == player then SeqMax(scores) else SeqMin(scores)
  }

  /** The `scores` list of minimax for the given moves. */
  function Scores(board: Board, depth: int, current: int, player: int, moves: seq<int>): (r: seq<int>)
    requires WellFormed(board) && OpenColumns(board, moves)
    decreases Empties(board), |moves| + 1
    ensures |r| == |moves|
    ensures forall i :: 0 <= i < |moves| ==> r[i] == ChildScore(board, depth, current, player, moves[i])
  {
    if moves == [] then []
    else [ChildScore(board, depth, current, player, moves[0])] + Scores(board, depth, current, player, moves[1..])
  }

  /** One entry of `scores`: the child's minimax value, negated when
      current is not the AI. */
  function ChildScore(board: Board, depth: int, current: int, player: int, col: int): int
    requires WellFormed(board) && 0 <= col < NUMCOLS && !ColumnFull(board, col)
    decreases Empties(board), 1
  {
    var score := ChildValue(board, depth, current, player, col);
    if current == player then score else -score
  }

  /** minimax of the copy with current's chip in column col, one level down
      with the other player to move. */
  function ChildValue(board: Board, depth: int, current: int, player: int, col: int): int
    requires WellFormed(board) && 0 <= col < NUMCOLS && !ColumnFull(board, col)
    decreases Empties(board), 0
  {
    EmptiesDrop(board, col, current);
    Value(Child(board, col, current), depth - 1, Opponent(current), player)
  }

  /** max(scores) */
  function SeqMax(s: seq<int>): (m: int)
    requires |s| > 0
    ensures m in s && forall i :: 0 <= i < |s| ==> s[i] <= m
  {
    if |s| == 1 then s[0]
    else
      var m := SeqMax(s[1..]);
      assert s[1..][0] in s[1..];
      if s[0] >= m then s[0] else m
  }

  /** min(scores) */
  function SeqMin(s: seq<int>): (m: int)
    requires |s| > 0
    ensures m in s && forall i :: 0 <= i < |s| ==> m <= s[i]
  {
    if |s| == 1 then s[0]
    else
      var m := SeqMin(s[1..]);
      assert s[1..][0] in s[1..];
      if s[0] <= m then s[0] else m
  }

  /** The nested minimax. */
  method Minimax(board: Board, depth: int, currentPlayer: int, player: int) returns (value: int)
    requires WellFormed(board)
    decreases Empties(board), 2
    ensures value == Value(board, depth, currentPlayer, player)
  {
    var validMoves := ValidMoves(board);
    var isTerminal := ScanForWin(board, currentPlayer, validMoves);
    if depth == 0 || isTerminal || |validMoves| == 0 {
      value := ScorePosition(board, player);
      return;
    }
    var scores := ScoreMoves(board, depth, currentPlayer, player, validMoves);
    if currentPlayer == player {
      value := SeqMax(scores);
    } else {
      value := SeqMin(scores);
    }
  }

  /** The is_terminal loop of minimax: place the chip on a copy, ask
      CheckForWinner, stop at the first win. */
  method ScanForWin(board: Board, currentPlayer: int, validMoves: seq<int>) returns (isTerminal: bool)
    requires WellFormed(board) && OpenColumns(board, validMoves)
    ensures isTerminal == AnyWins(board, currentPlayer, validMoves)
  {
    isTerminal := false;
    for i := 0 to |validMoves|
      invariant AnyWins(board, currentPlayer, validMoves) == AnyWins(board, currentPlayer, validMoves[i..])
    {
      var c := validMoves[i];
      assert validMoves[i..][1..] == validMoves[i + 1..];
      var row := GetFirstOpenRow(board, c).value;
      if row.Some? {
        var tempBoard := Place(board, c, row.value, Some(currentPlayer));
        var winner := CheckForWinner(tempBoard, c, row.value, currentPlayer);
        if winner.Ok? && winner.value.Some? {
          isTerminal := true;
          return;
        }
      }
    }
  }

  /** The `for col in valid_moves` loop of minimax: each move on a fresh
      copy, scored one level down. */
  method ScoreMoves(board: Board, depth: int, currentPlayer: int, player: int, validMoves: seq<int>)
    returns (scores: seq<int>)
    requires WellFormed(board) && OpenColumns(board, validMoves)
    decreases Empties(board), 1
    ensures scores == Scores(board, depth, currentPlayer, player, validMoves)
  {
    scores := [];
    for i := 0 to |validMoves|
      invariant |scores| == i
      invariant forall j :: 0 <= j < i ==> scores[j] == ChildScore(board, depth, currentPlayer, player, validMoves[j])
    {
      var col := validMoves[i];
      var score := TrialMove(board, depth, currentPlayer, player, col);
      scores := scores + [score];
    }
  }

  /** b_copy = deepcopy(board); b_copy[col][row] = current_player; the
      minimax call on it, and the score negated when the opponent moved. */
  method TrialMove(board: Board, depth: int, currentPlayer: int, player: int, col: int) returns (score: int)
    requires WellFormed(board) && 0 <= col < NUMCOLS && !ColumnFull(board, col)
    decreases Empties(board), 0
    ensures score == ChildScore(board, depth, currentPlayer, player, col)
  {
    var bCopy := board;
    var row := GetFirstOpenRow(bCopy, col).value;
    bCopy := Place(bCopy, col, row.value, Some(currentPlayer));
    assert bCopy == Child(board, col, currentPlayer);
    EmptiesDrop(board, col, currentPlayer);
    var opponent := Opponent(currentPlayer);
    score := Minimax(bCopy, depth - 1, opponent, player);
    ChildValueUnfold(board, depth, currentPlayer, player, col);
    if currentPlayer != player {
      score := -score;
    }
  }

  /** ChildValue is the minimax value of the child board. */
  lemma ChildValueUnfold(board: Board, depth: int, current: int, player: int, col: int)
    requires WellFormed(board) && 0 <= col < NUMCOLS && !ColumnFull(board, col)
    ensures ChildValue(board, depth, current, player, col)
      == Value(Child(board, col, current), depth - 1, Opponent(current), player)
  {
  }

  // ---------------------------------------------------------------------
  // Properties of minimax

  /** On the AI's turn a node that is not a leaf is worth the best of its
      children. */
  lemma AiNodeIsBestChild(board: Board, depth: int, player: int)
    requires WellFormed(board)
    requires var moves := ValidMoves(board);
      depth != 0 && !AnyWins(board, player, moves) && moves != []
    ensures var moves := ValidMoves(board);
      var v := Value(board, depth, player, player);
      && (forall i :: 0 <= i < |moves| ==> ChildValue(board, depth, player, player, moves[i]) <= v)
      && (exists i :: 0 <= i < |moves| && ChildValue(board, depth, player, player, moves[i]) == v)
  {
    var moves := ValidMoves(board);
    var scores := Scores(board, depth, player, player, moves);
    var i :| 0 <= i < |scores| && scores[i] == SeqMax(scores);
  }

  /** On the opponent's turn the scores are negated before the minimum is
      taken, so the node is worth minus the best child for the AI: the
      opponent is assumed to play the AI's best reply. */
  lemma OpponentNodeNegatesBest(board: Board, depth: int, current: int, player: int)
    requires WellFormed(board) && current != player
    requires var moves := ValidMoves(board);
      depth != 0 && !AnyWins(board, current, moves) && moves != []
    ensures var moves := ValidMoves(board);
      var v := Value(board, depth, current, player);
      && (forall i :: 0 <= i < |moves| ==> ChildValue(board, depth, current, player, moves[i]) <= -v)
      && (exists i :: 0 <= i < |moves| && ChildValue(board, depth, current, player, moves[i]) == -v)
  {
    var moves := ValidMoves(board);
    var scores := Scores(board, depth, current, player, moves);
    var i :| 0 <= i < |scores| && scores[i] == SeqMin(scores);
  }

  /** minimax stops and scores the board itself when the player to move
      wins at once, whatever the depth left. */
  lemma ImmediateWinIsLeaf(board: Board, depth: int, current: int, player: int, c: int)
    requires WellFormed(board) && 0 <= c < NUMCOLS && !ColumnFull(board, c) && WinsAt(board, c, current)
    ensures Value(board, depth, current, player) == PositionScore(board, player)
  {
    AnyWinsMember(board, current, ValidMoves(board), c);
  }

  lemma {:induction false} AnyWinsMember(board: Board, player: int, moves: seq<int>, c: int)
    requires WellFormed(board) && OpenColumns(board, moves)
    requires c in moves && WinsAt(board, c, player)
    ensures AnyWins(board, player, moves)
  {
    if moves[0] != c {
      AnyWinsMember(board, player, moves[1..], c);
    }
  }

  // ---------------------------------------------------------------------
  // GetAIMove

  /** The leftmost open column from c on where the player's chip wins at
      once. */
  function FirstWin(board: Board, player: int, c: int): (w: Option<int>)
    requires WellFormed(board) && 0 <= c <= NUMCOLS
    decreases NUMCOLS - c
    ensures w.Some? ==> c <= w.value < NUMCOLS && !ColumnFull(board, w.value) && WinsAt(board, w.value, player)
    ensures w.Some? ==> forall d :: c <= d < w.value && !ColumnFull(board, d) ==> !WinsAt(board, d, player)
    ensures w.None? ==> forall d :: c <= d < NUMCOLS && !ColumnFull(board, d) ==> !WinsAt(board, d, player)
  {
    if c == NUMCOLS then None
    else if !ColumnFull(board, c) && WinsAt(board, c, player) then Some(c)
    else FirstWin(board, player, c + 1)
  }

  /** The score GetAIMove gives column col: minimax of the copy with the
      AI's chip there, level - 1 deep, the opponent to move. */
  function MoveScore(board: Board, player: int, level: int, col: int): int
    requires WellFormed(board) && 0 <= col < NUMCOLS && !ColumnFull(board, col)
  {
    ChildScore(board, level, player, player, col)
  }

  /** What the `for col` loop of GetAIMove ranks in each column. */
  function ColumnMoves(board: Board, player: int, level: int): (r: seq<Option<(int, ExtInt)>>)
    requires WellFormed(board)
    ensures |r| == NUMCOLS
    ensures forall c :: 0 <= c < NUMCOLS ==>
      if ColumnFull(board, c) then r[c] == None
      else r[c] == Some((OpenRow(board, c), Fin(MoveScore(board, player, level, c))))
  {
    seq(NUMCOLS, c requires 0 <= c < NUMCOLS =>
      if ColumnFull(board, c) then None else Some((OpenRow(board, c), Fin(MoveScore(board, player, level, c)))))
  }

  /** GetAIMove: the leftmost immediate win if there is one; else one of the
      best-scoring moves at random; else the first open column; None for
      the source's (None, None). */
  method GetAIMove(board: Board, player: int, level: int) returns (move: Option<(int, int)>)
    requires WellFormed(board)
    ensures var w := FirstWin(board, player, 0);
      w.Some? ==> move == Some((w.value, OpenRow(board, w.value)))
    ensures var moves := Ranking(ColumnMoves(board, player, level), 0, NegInf, []).1;
      FirstWin(board, player, 0).None? && moves != [] ==> move.Some? && move.value in moves
    ensures move.None? <==> BoardFull(board)
    ensures move.Some? ==>
      0 <= move.value.0 < NUMCOLS && !ColumnFull(board, move.value.0) && move.value.1 == OpenRow(board, move.value.0)
  {
    var win, bestMoves := RankColumns(board, player, level);
    if win.Some? {
      return win;
    }
    if bestMoves != [] {
      BestMovesAreBest(board, player, level);
      assert bestMoves[0] in bestMoves;
      var m :| m in bestMoves;
      return Some(m);
    }
    move := FirstOpenMove(board);
  }

  /** The `for col in range(NUMCOLS)` loop of GetAIMove: it returns the
      first drop that wins at once, and otherwise ranks every open column
      by its minimax score, keeping the columns that tie for the best. */
  method RankColumns(board: Board, player: int, level: int) returns (win: Option<(int, int)>, bestMoves: seq<(int, int)>)
    requires WellFormed(board)
    ensures var w := FirstWin(board, player, 0);
      w.Some? ==> win == Some((w.value, OpenRow(board, w.value)))
    ensures FirstWin(board, player, 0).None? ==>
      win.None? && bestMoves == Ranking(ColumnMoves(board, player, level), 0, NegInf, []).1
  {
    ghost var cands := ColumnMoves(board, player, level);
    var bestScore := NegInf;
    bestMoves := [];
    for col := 0 to NUMCOLS
      invariant FirstWin(board, player, col) == FirstWin(board, player, 0)
      invariant Ranking(cands, col, bestScore, bestMoves) == Ranking(cands, 0, NegInf, [])
    {
      var row := GetFirstOpenRow(board, col).value;
      if row.Some? {
        var tempBoard := Place(board, col, row.value, Some(player));
        var winner := CheckForWinner(tempBoard, col, row.value, player);
        if winner.Ok? && winner.value.Some? {
          return Some((col, row.value)), bestMoves;
        }
        var score := ScoreColumn(board, player, level, col);
        assert cands[col] == Some((row.value, Fin(score)));
        if Lt(bestScore, Fin(score)) {
          bestScore := Fin(score);
          bestMoves := [(col, row.value)];
        } else if Fin(score) == bestScore {
          bestMoves := bestMoves + [(col, row.value)];
        }
      } else {
        assert cands[col] == None;
      }
    }
    win := None;
  }

  /** The closing loop of GetAIMove: the first open column and the row a
      chip lands in, or None when every column is full. */
  method FirstOpenMove(board: Board) returns (move: Option<(int, int)>)
    requires WellFormed(board)
    ensures move.None? <==> BoardFull(board)
    ensures move.Some? ==>
      0 <= move.value.0 < NUMCOLS && !ColumnFull(board, move.value.0) && move.value.1 == OpenRow(board, move.value.0)
      && forall d :: 0 <= d < move.value.0 ==> ColumnFull(board, d)
  {
    for c := 0 to NUMCOLS
      invariant forall d :: 0 <= d < c ==> ColumnFull(board, d)
    {
      var row := GetFirstOpenRow(board, c).value;
      if row.Some? {
        return Some((c, row.value));
      }
    }
    forall c, k | 0 <= c < NUMCOLS && 0 <= k < NUMROWS
      ensures board[c][k] != None
    {
      assert ColumnFull(board, c);
    }
    return None;
  }

  /** The trial of column col in GetAIMove: the AI's chip on a copy, then
      minimax(temp_board, level - 1, 1 - player). */
  method ScoreColumn(board: Board, player: int, level: int, col: int) returns (score: int)
    requires WellFormed(board) && 0 <= col < NUMCOLS && !ColumnFull(board, col)
    ensures score == MoveScore(board, player, level, col)
  {
    score := TrialMove(board, level, player, player, col);
  }

  /** The moves GetAIMove picks among, when no drop wins at once, are
      exactly the open columns, with the row the chip lands in, whose
      minimax score is the best of all open columns; there are none exactly
      when the board is full. */
  lemma BestMovesAreBest(board: Board, player: int, level: int)
    requires WellFormed(board)
    ensures var r := Ranking(ColumnMoves(board, player, level), 0, NegInf, []);
      && (forall i :: 0 <= i < |r.1| ==>
            0 <= r.1[i].0 < NUMCOLS && !ColumnFull(board, r.1[i].0) && r.1[i].1 == OpenRow(board, r.1[i].0)
            && Fin(MoveScore(board, player, level, r.1[i].0)) == r.0)
      && (forall c :: 0 <= c < NUMCOLS && !ColumnFull(board, c) ==>
            Le(Fin(MoveScore(board, player, level, c)), r.0)
            && (Fin(MoveScore(board, player, level, c)) == r.0 ==> (c, OpenRow(board, c)) in r.1))
      && (r.1 == [] <==> BoardFull(board))
  {
    var cands := ColumnMoves(board, player, level);
    RankingCorrect(cands, 0, NegInf, []);
    var r := Ranking(cands, 0, NegInf, []);
    forall i | 0 <= i < |r.1|
      ensures 0 <= r.1[i].0 < NUMCOLS && !ColumnFull(board, r.1[i].0) && r.1[i].1 == OpenRow(board, r.1[i].0)
            && Fin(MoveScore(board, player, level, r.1[i].0)) == r.0
    {
      assert cands[r.1[i].0] == Some((r.1[i].1, r.0));
    }
    forall c | 0 <= c < NUMCOLS && !ColumnFull(board, c)
      ensures Le(Fin(MoveScore(board, player, level, c)), r.0)
      ensures Fin(MoveScore(board, player, level, c)) == r.0 ==> (c, OpenRow(board, c)) in r.1
    {
      assert cands[c].Some?;
    }
    if r.1 == [] {
      forall c, k | 0 <= c < NUMCOLS && 0 <= k < NUMROWS ensures board[c][k] != None {
        assert cands[c].None?;
      }
    }
  }
}
