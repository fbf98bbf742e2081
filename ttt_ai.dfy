/** The tic-tac-toe player of app/ttt_game.py: the strategic shortcut of
    the early game, minimax with alpha-beta pruning, the best-move search
    and the move generator. Every trial piece is placed on the shared board
    and taken off again. */
module TicTacToeAI {
  import opened Wrappers
  import opened TicTacToe

  /** (c, r) comes before (col, row) in the column-major order of the
      `for col ... for row` loops; (col, 3) stands for the end of column
      col. */
  predicate Before(c: int, r: int, col: int, row: int)
  {
    c < col || (c == col && r < row)
  }

  // ---------------------------------------------------------------------
  // get_strategic_move

  /** Putting m's piece on the empty square (col, row) makes
      Check_For_Winner report m. */
  predicate WinsWith(g: Grid, col: int, row: int, m: Mark)
    requires WellFormed(g) && InBounds(col, row)
  {
    g[col][row] == None && Winner(Place(g, col, row, Some(m))) == Some(m)
  }

  /** The first square from (col, row) on, in column-major order, where m's
      piece wins. */
  function FirstCompleting(g: Grid, m: Mark, col: int, row: int): (r: Option<(int, int)>)
    requires WellFormed(g) && 0 <= col <= 3 && 0 <= row <= 3
    decreases 3 - col, 3 - row
    ensures r.Some? ==> (InBounds(r.value.0, r.value.1) && !Before(r.value.0, r.value.1, col, row)
      && WinsWith(g, r.value.0, r.value.1, m)
      && forall c, k :: InBounds(c, k) && !Before(c, k, col, row) && Before(c, k, r.value.0, r.value.1) ==> !WinsWith(g, c, k, m))
    ensures r.None? ==> forall c, k :: InBounds(c, k) && !Before(c, k, col, row) ==> !WinsWith(g, c, k, m)
  {
    if col == 3 then None
    else if row == 3 then FirstCompleting(g, m, col + 1, 0)
    else if WinsWith(g, col, row, m) then Some((col, row))
    else FirstCompleting(g, m, col, row + 1)
  }

  /** One of the two "try every empty square" loops of get_strategic_move:
      the first square where m's piece wins, the board left as it was. */
  method FindCompleting(b: TttBoard, m: Mark) returns (move: Option<(int, int)>)
    requires WellFormed(b.cells)
    modifies b
    ensures b.cells == old(b.cells)
    ensures move == FirstCompleting(old(b.cells), m, 0, 0)
  {
    ghost var g := b.cells;
    for col := 0 to 3
      invariant b.cells == g
      invariant FirstCompleting(g, m, col, 0) == FirstCompleting(g, m, 0, 0)
    {
      for row := 0 to 3
        invariant b.cells == g
        invariant FirstCompleting(g, m, col, row) == FirstCompleting(g, m, 0, 0)
      {
        if b.cells[col][row] == None {
          b.cells := Place(b.cells, col, row, Some(m));
          var winner := CheckForWinner(b);
          if winner == Some(m) {
            b.cells := Place(b.cells, col, row, None);
            PlaceUndo(g, col, row, Some(m));
            return Some((col, row));
          }
          b.cells := Place(b.cells, col, row, None);
          PlaceUndo(g, col, row, Some(m));
        }
      }
    }
    return None;
  }

  const Corners: seq<(int, int)> := [(0, 0), (0, 2), (2, 0), (2, 2)]
  const Edges: seq<(int, int)> := [(0, 1), (1, 0), (1, 2), (2, 1)]

  /** [pos for pos in squares if game_board[pos[0]][pos[1]] is None] */
  function Available(g: Grid, squares: seq<(int, int)>): (r: seq<(int, int)>)
    requires WellFormed(g) && forall p :: p in squares ==> InBounds(p.0, p.1)
    ensures forall p :: p in r <==> p in squares && InBounds(p.0, p.1) && g[p.0][p.1] == None
  {
    if squares == [] then []
    else
      var rest := Available(g, squares[1..]);
      var p := squares[0];
      assert p in squares;
      assert InBounds(p.0, p.1) && |g[p.0]| == 3;
      if g[p.0][p.1] == None then [p] + rest else rest
  }

  /** No square of the list is free, so the comprehension is empty. */
  lemma {:induction false} AvailableNone(g: Grid, squares: seq<(int, int)>)
    requires WellFormed(g) && forall p :: p in squares ==> InBounds(p.0, p.1) && g[p.0][p.1] != None
    ensures Available(g, squares) == []
  {
    if squares != [] {
      AvailableNone(g, squares[1..]);
      var p := squares[0];
      assert p in squares;
    }
  }

  /** The squares get_strategic_move may return for m: the first winning
      square; else the first square where the other side would win; else
      the free corners; else the free edges. It returns one of them at
      random, or None when there is none. */
  function StrategicCandidates(g: Grid, m: Mark): seq<(int, int)>
    requires WellFormed(g)
  {
    var win := FirstCompleting(g, m, 0, 0);
    if win.Some? then [win.value]
    else
      var block := FirstCompleting(g, Other(m), 0, 0);
      if block.Some? then [block.value]
      else
        var corners := Available(g, Corners);
        if corners != [] then corners else Available(g, Edges)
  }

  /** get_strategic_move */
  method GetStrategicMove(b: TttBoard, turn: int) returns (move: Option<(int, int)>)
    requires WellFormed(b.cells)
    modifies b
    ensures b.cells == old(b.cells)
    ensures move.None? <==> StrategicCandidates(old(b.cells), PieceOf(turn)) == []
    ensures move.Some? ==> move.value in StrategicCandidates(old(b.cells), PieceOf(turn))
  {
    CornersAndEdges();
    var piece := PieceOf(turn);
    var opponent := if turn == 0 then O else X;
    assert opponent == Other(piece);
    move := FindCompleting(b, piece);
    if move.Some? {
      return;
    }
    move := FindCompleting(b, opponent);
    if move.Some? {
      return;
    }
    var availableCorners := Available(b.cells, Corners);
    if availableCorners != [] {
      assert availableCorners[0] in availableCorners;
      var p :| p in availableCorners;
      return Some(p);
    }
    var availableEdges := Available(b.cells, Edges);
    if availableEdges != [] {
      assert availableEdges[0] in availableEdges;
      var p :| p in availableEdges;
      return Some(p);
    }
    return None;
  }

  /** The corners and the edges are every square but the centre. */
  lemma CornersAndEdges()
    ensures forall p :: p in Corners ==> InBounds(p.0, p.1)
    ensures forall p :: p in Edges ==> InBounds(p.0, p.1)
    ensures forall c, k :: InBounds(c, k) && (c, k) != (1, 1) ==> (c, k) in Corners || (c, k) in Edges
  {
  }

  /** Every square get_strategic_move can return is empty. */
  lemma StrategicMoveIsEmpty(g: Grid, m: Mark)
    requires WellFormed(g)
    ensures forall p :: p in StrategicCandidates(g, m) ==> InBounds(p.0, p.1) && g[p.0][p.1] == None
  {
    var win := FirstCompleting(g, m, 0, 0);
    if win.Some? {
      assert WinsWith(g, win.value.0, win.value.1, m);
    } else {
      var block := FirstCompleting(g, Other(m), 0, 0);
      if block.Some? {
        assert WinsWith(g, block.value.0, block.value.1, Other(m));
      } else {
        CornersAndEdges();
      }
    }
  }

  /** A winning square comes first: when m's piece can win at once, the
      only candidate is the first such square. */
  lemma StrategicMoveWins(g: Grid, m: Mark, c: int, k: int)
    requires WellFormed(g) && InBounds(c, k) && WinsWith(g, c, k, m)
    ensures exists p :: StrategicCandidates(g, m) == [p] && InBounds(p.0, p.1) && WinsWith(g, p.0, p.1, m)
  {
    assert !Before(c, k, 0, 0);
    var win := FirstCompleting(g, m, 0, 0);
    assert win.Some?;
  }

  /** Blocking comes next: when m cannot win at once but the other side
      could, the only candidate is the first square where it could. */
  lemma StrategicMoveBlocks(g: Grid, m: Mark, c: int, k: int)
    requires WellFormed(g) && InBounds(c, k) && WinsWith(g, c, k, Other(m))
    requires forall c', k' :: InBounds(c', k') ==> !WinsWith(g, c', k', m)
    ensures exists p :: StrategicCandidates(g, m) == [p] && InBounds(p.0, p.1) && WinsWith(g, p.0, p.1, Other(m))
  {
    var win := FirstCompleting(g, m, 0, 0);
    assert win.None?;
    assert !Before(c, k, 0, 0);
    var block := FirstCompleting(g, Other(m), 0, 0);
    assert block.Some?;
  }

  /** get_strategic_move returns None exactly when no square wins or
      blocks and all four corners and all four edges are taken. */
  lemma StrategicNoneIff(g: Grid, m: Mark)
    requires WellFormed(g)
    ensures StrategicCandidates(g, m) == [] <==>
      && FirstCompleting(g, m, 0, 0).None? && FirstCompleting(g, Other(m), 0, 0).None?
      && forall c, k :: InBounds(c, k) && (c, k) != (1, 1) ==> g[c][k] != None
  {
    if forall c, k :: InBounds(c, k) && (c, k) != (1, 1) ==> g[c][k] != None {
      SideSquaresTaken(g);
    } else {
      var c, k :| InBounds(c, k) && (c, k) != (1, 1) && g[c][k] == None;
      FreeSideSquare(g, c, k);
    }
  }

  /** With every square but the centre taken, no corner and no edge is free. */
  lemma SideSquaresTaken(g: Grid)
    requires WellFormed(g) && forall c, k :: InBounds(c, k) && (c, k) != (1, 1) ==> g[c][k] != None
    ensures Available(g, Corners) == [] && Available(g, Edges) == []
  {
    assert g[0][0] != None && g[0][2] != None && g[2][0] != None && g[2][2] != None;
    AvailableNone(g, Corners);
    assert g[0][1] != None && g[1][0] != None && g[1][2] != None && g[2][1] != None;
    AvailableNone(g, Edges);
  }

  /** A free square other than the centre is a free corner or a free edge. */
  lemma FreeSideSquare(g: Grid, c: int, k: int)
    requires WellFormed(g) && InBounds(c, k) && (c, k) != (1, 1) && g[c][k] == None
    ensures Available(g, Corners) != [] || Available(g, Edges) != []
  {
    CornersAndEdges();
    if (c, k) in Corners {
      assert (c, k) in Available(g, Corners);
    } else {
      assert (c, k) in Available(g, Edges);
    }
  }

  /** With at most four pieces on the board get_strategic_move always has
      a move: four pieces cannot cover the eight corners and edges. */
  lemma EarlyGameHasStrategicMove(g: Grid, m: Mark)
    requires WellFormed(g) && PieceCount(g) <= 4
    ensures StrategicCandidates(g, m) != []
  {
    StrategicNoneIff(g, m);
    if StrategicCandidates(g, m) == [] {
      CountSquares(g);
    }
  }

  // ---------------------------------------------------------------------
  // minimax_ab

  /** The score a search starts from: float('-inf') when maximizing,
      float('inf') when minimizing. */
  function Initial(isMax: bool): ExtInt
  {
    if isMax then NegInf else PosInf
  }

  /** The value minimax_ab(player, isMax, depth, alpha, beta) returns on
      board g: 10 - depth when player has won, -10 + depth when the other
      side has, 0 on a draw, and otherwise the result of the loops over the
      empty squares. */
  function Value(g: Grid, player: Mark, isMax: bool, depth: int, alpha: ExtInt, beta: ExtInt): ExtInt
    requires WellFormed(g)
    decreases Empties(g), 17
  {
    var winner := Winner(g);
    if winner == Some(player) then Fin(10 - depth)
    else if winner.Some? then Fin(-10 + depth)
    else if IsDraw(g) then Fin(0)
    else Loop(g, player, isMax, depth, 0, 0, alpha, beta, Initial(isMax))
  }

  /** The nested `for col ... for row` loops of minimax_ab from square
      (col, row) on, with the running alpha, beta and best score. A cutoff
      (beta <= alpha) leaves only the inner loop: the search goes on with
      the next column. */
  function Loop(g: Grid, player: Mark, isMax: bool, depth: int, col: int, row: int,
                alpha: ExtInt, beta: ExtInt, best: ExtInt): ExtInt
    requires WellFormed(g) && 0 <= col <= 3 && 0 <= row <= 3
    decreases Empties(g), 4 * (3 - col) + (3 - row) + 1
  {
    if col == 3 then best
    else if row == 3 then Loop(g, player, isMax, depth, col + 1, 0, alpha, beta, best)
    else if g[col][row] != None then Loop(g, player, isMax, depth, col, row + 1, alpha, beta, best)
    else
      var score := ChildValue(g, player, isMax, depth, alpha, beta, col, row);
      var best' := if isMax then Max(score, best) else Min(score, best);
      var alpha' := if isMax then Max(alpha, score) else alpha;
      var beta' := if isMax then beta else Min(beta, score);
      if Le(beta', alpha') then Loop(g, player, isMax, depth, col + 1, 0, alpha', beta', best')
      else Loop(g, player, isMax, depth, col, row + 1, alpha', beta', best')
  }

  /** The score of one trial: the player's piece when maximizing, the other
      side's when minimizing, then minimax_ab one level deeper with the
      roles swapped. */
  function ChildValue(g: Grid, player: Mark, isMax: bool, depth: int, alpha: ExtInt, beta: ExtInt,
                      col: int, row: int): ExtInt
    requires WellFormed(g) && InBounds(col, row) && g[col][row] == None
    decreases Empties(g), 0
  {
    var piece := if isMax then player else Other(player);
    PlaceAddsOne(g, col, row, Some(piece));
    Value(Place(g, col, row, Some(piece)), player, !isMax, depth + 1, alpha, beta)
  }

  /** ChildValue is minimax_ab of the board with the trial piece on it. */
  lemma ChildValueUnfold(g: Grid, player: Mark, isMax: bool, depth: int, alpha: ExtInt, beta: ExtInt,
                         col: int, row: int)
    requires WellFormed(g) && InBounds(col, row) && g[col][row] == None
    ensures var piece := if isMax then player else Other(player);
      ChildValue(g, player, isMax, depth, alpha, beta, col, row)
        == Value(Place(g, col, row, Some(piece)), player, !isMax, depth + 1, alpha, beta)
  {
  }

  /** minimax_ab */
  method MinimaxAB(b: TttBoard, player: Mark, isMax: bool, depth: int, alpha: ExtInt, beta: ExtInt)
    returns (score: ExtInt)
    requires WellFormed(b.cells)
    modifies b
    decreases Empties(b.cells), 2
    ensures b.cells == old(b.cells)
    ensures score == Value(old(b.cells), player, isMax, depth, alpha, beta)
    ensures Winner(old(b.cells)) == Some(player) ==> score == Fin(10 - depth)
    ensures Winner(old(b.cells)) == Some(Other(player)) ==> score == Fin(-10 + depth)
    ensures IsDraw(old(b.cells)) ==> score == Fin(0)
  {
    var winner := CheckForWinner(b);
    if winner == Some(player) {
      return Fin(10 - depth);
    } else if winner.Some? {
      return Fin(-10 + depth);
    }
    var draw := CheckForDraw(b);
    if draw {
      return Fin(0);
    }
    ghost var g := b.cells;
    var a, bt := alpha, beta;
    if isMax {
      score := NegInf;
    } else {
      score := PosInf;
    }
    for col := 0 to 3
      invariant b.cells == g
      invariant Loop(g, player, isMax, depth, col, 0, a, bt, score) == Value(g, player, isMax, depth, alpha, beta)
    {
      a, bt, score := ScanColumn(b, player, isMax, depth, col, a, bt, score);
    }
  }

  /** The inner `for row` loop of minimax_ab for one column, which a cutoff
      ends early. */
  method ScanColumn(b: TttBoard, player: Mark, isMax: bool, depth: int, col: int,
                    alpha: ExtInt, beta: ExtInt, best: ExtInt)
    returns (a: ExtInt, bt: ExtInt, score: ExtInt)
    requires WellFormed(b.cells) && 0 <= col < 3
    modifies b
    decreases Empties(b.cells), 1
    ensures b.cells == old(b.cells)
    ensures Loop(old(b.cells), player, isMax, depth, col + 1, 0, a, bt, score)
      == Loop(old(b.cells), player, isMax, depth, col, 0, alpha, beta, best)
  {
    ghost var g := b.cells;
    a, bt, score := alpha, beta, best;
    for row := 0 to 3
      invariant b.cells == g
      invariant Loop(g, player, isMax, depth, col, row, a, bt, score) == Loop(g, player, isMax, depth, col, 0, alpha, beta, best)
    {
      if b.cells[col][row] == None {
        var s := TryCell(b, player, isMax, depth, col, row, a, bt);
        if isMax {
          score := Max(s, score);
          a := Max(a, s);
        } else {
          score := Min(s, score);
          bt := Min(bt, s);
        }
        if Le(bt, a) {
          return;
        }
      }
    }
  }

  /** Place the trial piece, search one level deeper, take the piece off. */
  method TryCell(b: TttBoard, player: Mark, isMax: bool, depth: int, col: int, row: int,
                 alpha: ExtInt, beta: ExtInt) returns (score: ExtInt)
    requires WellFormed(b.cells) && InBounds(col, row) && b.cells[col][row] == None
    modifies b
    decreases Empties(b.cells), 0
    ensures b.cells == old(b.cells)
    ensures score == ChildValue(old(b.cells), player, isMax, depth, alpha, beta, col, row)
  {
    ghost var g := b.cells;
    var piece := if isMax then player else Other(player);
    b.cells := Place(b.cells, col, row, Some(piece));
    PlaceAddsOne(g, col, row, Some(piece));
    var nextMax := !isMax;
    var nextDepth := depth + 1;
    score := MinimaxAB(b, player, nextMax, nextDepth, alpha, beta);
    b.cells := Place(b.cells, col, row, None);
    PlaceUndo(g, col, row, Some(piece));
    ChildValueUnfold(g, player, isMax, depth, alpha, beta, col, row);
  }

  /** A finite score between -10 + depth and 10 - depth. */
  predicate Bounded(v: ExtInt, depth: int)
  {
    v.Fin? && -10 + depth <= v.n <= 10 - depth
  }

  /** minimax_ab always returns a finite score: a win is worth at most
      10 - depth, a loss at least -10 + depth, and a draw 0. */
  lemma {:induction false} ValueBounds(g: Grid, player: Mark, isMax: bool, depth: int, alpha: ExtInt, beta: ExtInt)
    requires WellFormed(g) && 0 <= depth && depth + Empties(g) <= 9
    decreases Empties(g), 17
    ensures Bounded(Value(g, player, isMax, depth, alpha, beta), depth)
  {
    var winner := Winner(g);
    if winner.None? && !IsDraw(g) {
      assert !Full(g);
      var c, k :| 0 <= c < 3 && 0 <= k < 3 && g[c][k] == None;
      assert InBounds(c, k) && !Before(c, k, 0, 0);
      LoopBounds(g, player, isMax, depth, 0, 0, alpha, beta, Initial(isMax));
    }
  }

  lemma {:induction false} LoopBounds(g: Grid, player: Mark, isMax: bool, depth: int, col: int, row: int,
                                      alpha: ExtInt, beta: ExtInt, best: ExtInt)
    requires WellFormed(g) && 0 <= col <= 3 && 0 <= row <= 3 && 0 <= depth && depth + Empties(g) <= 9
    requires Bounded(best, depth)
      || (best == Initial(isMax) && exists c, k :: InBounds(c, k) && !Before(c, k, col, row) && g[c][k] == None)
    decreases Empties(g), 4 * (3 - col) + (3 - row) + 1
    ensures Bounded(Loop(g, player, isMax, depth, col, row, alpha, beta, best), depth)
  {
    if col == 3 {
    } else if row == 3 {
      LoopBounds(g, player, isMax, depth, col + 1, 0, alpha, beta, best);
    } else if g[col][row] != None {
      LoopBounds(g, player, isMax, depth, col, row + 1, alpha, beta, best);
    } else {
      var score := ChildValue(g, player, isMax, depth, alpha, beta, col, row);
      ChildBounds(g, player, isMax, depth, alpha, beta, col, row);
      var best' := if isMax then Max(score, best) else Min(score, best);
      var alpha' := if isMax then Max(alpha, score) else alpha;
      var beta' := if isMax then beta else Min(beta, score);
      assert Bounded(best', depth);
      if Le(beta', alpha') {
        LoopBounds(g, player, isMax, depth, col + 1, 0, alpha', beta', best');
      } else {
        LoopBounds(g, player, isMax, depth, col, row + 1, alpha', beta', best');
      }
    }
  }

  lemma {:induction false} ChildBounds(g: Grid, player: Mark, isMax: bool, depth: int, alpha: ExtInt, beta: ExtInt,
                                       col: int, row: int)
    requires WellFormed(g) && InBounds(col, row) && g[col][row] == None && 0 <= depth && depth + Empties(g) <= 9
    decreases Empties(g), 0
    ensures Bounded(ChildValue(g, player, isMax, depth, alpha, beta, col, row), depth + 1)
  {
    var piece := if isMax then player else Other(player);
    var child := Place(g, col, row, Some(piece));
    PlaceAddsOne(g, col, row, Some(piece));
    var nextMax := !isMax;
    var nextDepth := depth + 1;
    ValueBounds(child, player, nextMax, nextDepth, alpha, beta);
    ChildValueUnfold(g, player, isMax, depth, alpha, beta, col, row);
  }

  // ---------------------------------------------------------------------
  // find_best_move

  /** The score find_best_move gives the empty square (col, row): m's piece
      there, then minimax_ab(m, False, 0, -inf, inf). */
  function MoveScore(g: Grid, m: Mark, col: int, row: int): ExtInt
    requires WellFormed(g) && InBounds(col, row) && g[col][row] == None
  {
    PlaceAddsOne(g, col, row, Some(m));
    Value(Place(g, col, row, Some(m)), m, false, 0, NegInf, PosInf)
  }

  /** The scores find_best_move works through, square by square: Some
      score for an empty square, None for a taken one. */
  type Table = seq<seq<Option<ExtInt>>>

  predicate TableShape(t: Table)
  {
    |t| == 3 && forall c :: 0 <= c < 3 ==> |t[c]| == 3
  }

  /** Every score in the table is finite. */
  predicate Finite(t: Table)
    requires TableShape(t)
  {
    forall c, k :: 0 <= c < 3 && 0 <= k < 3 && t[c][k].Some? ==> t[c][k].value.Fin?
  }

  /** The table of g for m: MoveScore on the empty squares. */
  function MoveTable(g: Grid, m: Mark): (t: Table)
    requires WellFormed(g)
    ensures TableShape(t)
    ensures forall c, k :: InBounds(c, k) ==>
      t[c][k] == if g[c][k] == None then Some(MoveScore(g, m, c, k)) else None
  {
    seq(3, c requires 0 <= c < 3 =>
      seq(3, k requires 0 <= k < 3 => if g[c][k] == None then Some(MoveScore(g, m, c, k)) else None))
  }

  /** The loops of find_best_move from square (col, row) on: the best score
      so far and the square that first reached it (a later square must
      beat it strictly). */
  function BestScan(t: Table, col: int, row: int, bestScore: ExtInt, bestMove: Option<(int, int)>)
    : (ExtInt, Option<(int, int)>)
    requires TableShape(t) && 0 <= col <= 3 && 0 <= row <= 3
    decreases 3 - col, 3 - row
  {
    if col == 3 then (bestScore, bestMove)
    else if row == 3 then BestScan(t, col + 1, 0, bestScore, bestMove)
    else if t[col][row].None? then BestScan(t, col, row + 1, bestScore, bestMove)
    else
      var score := t[col][row].value;
      if Lt(bestScore, score) then BestScan(t, col, row + 1, score, Some((col, row)))
      else BestScan(t, col, row + 1, bestScore, bestMove)
  }

  /** The square find_best_move returns for m on g. */
  function BestMove(g: Grid, m: Mark): Option<(int, int)>
    requires WellFormed(g)
  {
    BestScan(MoveTable(g, m), 0, 0, NegInf, None).1
  }

  /** find_best_move */
  method FindBestMove(b: TttBoard, turn: int) returns (bestMove: Option<(int, int)>)
    requires WellFormed(b.cells)
    modifies b
    ensures b.cells == old(b.cells)
    ensures bestMove == BestMove(old(b.cells), PieceOf(turn))
  {
    ghost var g := b.cells;
    var currentPlayer := PieceOf(turn);
    ghost var t := MoveTable(g, currentPlayer);
    var bestScore := NegInf;
    bestMove := None;
    for col := 0 to 3
      invariant b.cells == g
      invariant BestScan(t, col, 0, bestScore, bestMove) == BestScan(t, 0, 0, NegInf, None)
    {
      for row := 0 to 3
        invariant b.cells == g
        invariant BestScan(t, col, row, bestScore, bestMove) == BestScan(t, 0, 0, NegInf, None)
      {
        if b.cells[col][row] == None {
          var score := ScoreMove(b, currentPlayer, col, row);
          assert t[col][row] == Some(score);
          if Lt(bestScore, score) {
            bestScore := score;
            bestMove := Some((col, row));
          }
        } else {
          assert t[col][row] == None;
        }
      }
    }
  }

  /** The trial of one square in find_best_move: make the move, evaluate
      it, undo it. */
  method ScoreMove(b: TttBoard, m: Mark, col: int, row: int) returns (score: ExtInt)
    requires WellFormed(b.cells) && InBounds(col, row) && b.cells[col][row] == None
    modifies b
    ensures b.cells == old(b.cells)
    ensures score == MoveScore(old(b.cells), m, col, row)
  {
    ghost var g := b.cells;
    b.cells := Place(b.cells, col, row, Some(m));
    score := MinimaxAB(b, m, false, 0, NegInf, PosInf);
    b.cells := Place(b.cells, col, row, None);
    PlaceUndo(g, col, row, Some(m));
  }

  /** What the scan of find_best_move knows on reaching (col, row): the
      chosen square has a score, bestScore; no earlier score is higher and
      every score before the chosen square is lower; no square is chosen
      only while every square so far is taken. */
  ghost predicate ScannedBefore(t: Table, col: int, row: int, bestScore: ExtInt, bestMove: Option<(int, int)>)
    requires TableShape(t)
  {
    && (bestMove.None? ==> bestScore == NegInf && forall c, k :: InBounds(c, k) && Before(c, k, col, row) ==> t[c][k].None?)
    && (bestMove.Some? ==>
          var (bc, bk) := bestMove.value;
          && InBounds(bc, bk) && Before(bc, bk, col, row) && t[bc][bk] == Some(bestScore)
          && forall c, k :: InBounds(c, k) && Before(c, k, col, row) && t[c][k].Some? ==>
               Le(t[c][k].value, bestScore) && (Before(c, k, bc, bk) ==> Lt(t[c][k].value, bestScore)))
  }

  /** One scored square keeps ScannedBefore. */
  lemma ScanStep(t: Table, col: int, row: int, bestScore: ExtInt, bestMove: Option<(int, int)>)
    requires TableShape(t) && Finite(t) && InBounds(col, row) && t[col][row].Some?
    requires ScannedBefore(t, col, row, bestScore, bestMove)
    ensures var score := t[col][row].value;
      if Lt(bestScore, score) then ScannedBefore(t, col, row + 1, score, Some((col, row)))
      else ScannedBefore(t, col, row + 1, bestScore, bestMove)
  {
    var score := t[col][row].value;
    if Lt(bestScore, score) {
      forall c, k | InBounds(c, k) && Before(c, k, col, row + 1) && t[c][k].Some?
        ensures Le(t[c][k].value, score)
      {
        if (c, k) != (col, row) {
          assert Before(c, k, col, row);
        }
      }
    }
  }

  lemma {:induction false} ScanCorrect(t: Table, col: int, row: int, bestScore: ExtInt, bestMove: Option<(int, int)>)
    requires TableShape(t) && Finite(t) && 0 <= col <= 3 && 0 <= row <= 3
    requires ScannedBefore(t, col, row, bestScore, bestMove)
    decreases 3 - col, 3 - row
    ensures var r := BestScan(t, col, row, bestScore, bestMove);
      ScannedBefore(t, 3, 0, r.0, r.1)
  {
    if col == 3 {
    } else if row == 3 {
      assert ScannedBefore(t, col + 1, 0, bestScore, bestMove);
      ScanCorrect(t, col + 1, 0, bestScore, bestMove);
    } else if t[col][row].None? {
      assert ScannedBefore(t, col, row + 1, bestScore, bestMove);
      ScanCorrect(t, col, row + 1, bestScore, bestMove);
    } else {
      ScanStep(t, col, row, bestScore, bestMove);
      var score := t[col][row].value;
      if Lt(bestScore, score) {
        ScanCorrect(t, col, row + 1, score, Some((col, row)));
      } else {
        ScanCorrect(t, col, row + 1, bestScore, bestMove);
      }
    }
  }

  /** Every square's score is finite. */
  lemma MoveScoreFinite(g: Grid, m: Mark, col: int, row: int)
    requires WellFormed(g) && InBounds(col, row) && g[col][row] == None
    ensures MoveScore(g, m, col, row).Fin?
  {
    var child := Place(g, col, row, Some(m));
    PlaceAddsOne(g, col, row, Some(m));
    ValueBounds(child, m, false, 0, NegInf, PosInf);
  }

  /** find_best_move returns None exactly on a full board, and otherwise
      the first empty square, in column-major order, whose score is the
      highest: no empty square scores more, and every empty square before
      it scores less. */
  lemma BestMoveIsFirstMax(g: Grid, m: Mark)
    requires WellFormed(g)
    ensures var r := BestMove(g, m);
      && (r.None? <==> Full(g))
      && (r.Some? ==> (InBounds(r.value.0, r.value.1) && g[r.value.0][r.value.1] == None
          && forall c, k :: InBounds(c, k) && g[c][k] == None ==>
               Le(MoveScore(g, m, c, k), MoveScore(g, m, r.value.0, r.value.1))
               && (Before(c, k, r.value.0, r.value.1) ==> Lt(MoveScore(g, m, c, k), MoveScore(g, m, r.value.0, r.value.1)))))
  {
    var t: Table := MoveTable(g, m);
    forall c, k | InBounds(c, k) && t[c][k].Some?
      ensures t[c][k].value.Fin?
    {
      MoveScoreFinite(g, m, c, k);
    }
    ScanCorrect(t, 0, 0, NegInf, None);
  }

  /** find_best_move finds an empty square exactly when there is one. */
  lemma BestMoveIsOpen(g: Grid, m: Mark)
    requires WellFormed(g)
    ensures var r := BestMove(g, m);
      && (r.None? <==> Full(g))
      && (r.Some? ==> InBounds(r.value.0, r.value.1) && g[r.value.0][r.value.1] == None)
  {
    BestMoveIsFirstMax(g, m);
  }

  // ---------------------------------------------------------------------
  // Get_Next_Move

  /** Get_Next_Move: the centre for X on an empty board; in the early game
      (at most four pieces) a strategic move when there is one; otherwise
      the square find_best_move picks, if any. */
  method GetNextMove(b: TttBoard, turn: int)
    requires WellFormed(b.cells)
    modifies b
    ensures WellFormed(b.cells)
    ensures var g := old(b.cells);
      turn == 0 && PieceCount(g) == 0 ==> b.cells == Place(g, 1, 1, Some(X))
    ensures var g := old(b.cells); var m := PieceOf(turn);
      !(turn == 0 && PieceCount(g) == 0) && PieceCount(g) <= 4 && StrategicCandidates(g, m) != [] ==>
        exists p :: p in StrategicCandidates(g, m) && InBounds(p.0, p.1) && b.cells == Place(g, p.0, p.1, Some(m))
    ensures var g := old(b.cells); var m := PieceOf(turn); var best := BestMove(g, m);
      PieceCount(g) > 4 ==>
        (best.Some? ==> InBounds(best.value.0, best.value.1) && b.cells == Place(g, best.value.0, best.value.1, Some(m)))
        && (best.None? ==> b.cells == g)
    ensures var g := old(b.cells);
      !Full(g) ==> exists c, k :: InBounds(c, k) && g[c][k] == None && b.cells == Place(g, c, k, Some(PieceOf(turn)))
    ensures Full(old(b.cells)) ==> b.cells == old(b.cells)
  {
    ghost var g := b.cells;
    var count := GetPieceCount(b);
    if turn == 0 && count == 0 {
      CountBounds(g);
      b.cells := Place(b.cells, 1, 1, Some(X));
      assert InBounds(1, 1) && g[1][1] == None && b.cells == Place(g, 1, 1, Some(PieceOf(turn)));
      return;
    }
    var pieceCount := GetPieceCount(b);
    if pieceCount <= 4 {
      var move := GetStrategicMove(b, turn);
      if move.Some? {
        var (col, row) := move.value;
        StrategicMoveIsEmpty(g, PieceOf(turn));
        CountBounds(g);
        b.cells := Place(b.cells, col, row, Some(PieceOf(turn)));
        assert InBounds(col, row) && g[col][row] == None && b.cells == Place(g, col, row, Some(PieceOf(turn)));
        return;
      }
    }
    PlayBestMove(b, turn);
  }

  /** The end of Get_Next_Move: the turn's mark on the square
      find_best_move picks, nothing when it picks none. */
  method PlayBestMove(b: TttBoard, turn: int)
    requires WellFormed(b.cells)
    modifies b
    ensures WellFormed(b.cells)
    ensures var best := BestMove(old(b.cells), PieceOf(turn));
      && (best.Some? ==>
            && InBounds(best.value.0, best.value.1) && old(b.cells)[best.value.0][best.value.1] == None
            && b.cells == Place(old(b.cells), best.value.0, best.value.1, Some(PieceOf(turn))))
      && (best.None? ==> Full(old(b.cells)) && b.cells == old(b.cells))
  {
    ghost var g := b.cells;
    var bestMove := FindBestMove(b, turn);
    BestMoveIsOpen(g, PieceOf(turn));
    if bestMove.Some? {
      var (col, row) := bestMove.value;
      if turn == 0 {
        b.cells := Place(b.cells, col, row, Some(X));
      } else {
        b.cells := Place(b.cells, col, row, Some(O));
      }
    }
  }
}
