/** What the two Connect-4 AI players (tests/Claude/c4_claude.py and
    tests/ChatGPT/c4_chatgpt.py) share: the cell assignment
    board[col][row] = p, list.count on a window, the four window
    directions, and the loop that collects the best-scoring moves. */
module C4Shared {
  import opened Wrappers
  import opened C4Common

  /** board[col][row] = p on a copy. */
  function Place(board: Board, col: int, row: int, p: Cell): (r: Board)
    requires WellFormed(board) && InBounds(col, row)
    ensures WellFormed(r) && r[col][row] == p
    ensures forall c, k :: InBounds(c, k) && (c, k) != (col, row) ==> r[c][k] == board[c][k]
  {
    board[col := board[col][row := p]]
  }

  /** Placing a chip on an empty cell and setting it back to None restores
      the board. */
  lemma PlaceUndo(board: Board, col: int, row: int, p: Cell)
    requires WellFormed(board) && InBounds(col, row) && board[col][row] == None
    ensures Place(Place(board, col, row, p), col, row, None) == board
  {
    assert Place(Place(board, col, row, p), col, row, None)[col] == board[col];
  }

  /** The player to move after `player`: 1 - player. */
  function Opponent(player: int): (r: int)
    ensures r + player == 1
  {
    1 - player
  }

  /** The board after `player` drops a chip into the open column col. */
  function Child(board: Board, col: int, player: int): (r: Board)
    requires WellFormed(board) && 0 <= col < NUMCOLS && !ColumnFull(board, col)
    ensures WellFormed(r)
  {
    Place(board, col, OpenRow(board, col), Some(player))
  }

  // ---------------------------------------------------------------------
  // Windows

  /** window.count(v) */
  function Count(w: seq<Cell>, v: Cell): (n: nat)
    ensures n <= |w|
  {
    if w == [] then 0 else (if w[0] == v then 1 else 0) + Count(w[1..], v)
  }

  /** Three distinct values occur at most |w| times between them. */
  lemma {:induction false} CountsFit(w: seq<Cell>, a: Cell, b: Cell, c: Cell)
    requires a != b && b != c && a != c
    ensures Count(w, a) + Count(w, b) + Count(w, c) <= |w|
  {
    if w != [] {
      CountsFit(w[1..], a, b, c);
    }
  }

  lemma {:induction false} CountAbsent(w: seq<Cell>, v: Cell)
    requires forall i :: 0 <= i < |w| ==> w[i] != v
    ensures Count(w, v) == 0
  {
    if w != [] {
      CountAbsent(w[1..], v);
    }
  }

  /** The four window families both evaluators scan, in their order. */
  datatype Family = Horizontal | Vertical | Rising | Falling

  /** Step from one window cell to the next. */
  function Dir(f: Family): (int, int)
  {
    match f
    case Horizontal => (1, 0)
    case Vertical => (0, 1)
    case Rising => (1, 1)
    case Falling => (1, -1)
  }

  // ---------------------------------------------------------------------
  // The best-moves loop both GetAIMove functions end with

  /** One iteration of the `for col` loop of GetAIMove on the candidate of
      column col (None for a full column, else its row and score): a higher
      score replaces best_moves, an equal one joins it. */
  function RankStep(cand: Option<(int, ExtInt)>, col: int, best: ExtInt, moves: seq<(int, int)>)
    : (ExtInt, seq<(int, int)>)
  {
    match cand
    case None => (best, moves)
    case Some((row, score)) =>
      if Lt(best, score) then (score, [(col, row)])
      else if score == best then (best, moves + [(col, row)])
      else (best, moves)
  }

  /** The `for col` loop of GetAIMove from col on, with the running
      best_score and best_moves. */
  function Ranking(cands: seq<Option<(int, ExtInt)>>, col: int, best: ExtInt, moves: seq<(int, int)>)
    : (ExtInt, seq<(int, int)>)
    requires 0 <= col <= |cands|
    decreases |cands| - col
  {
    if col == |cands| then (best, moves)
    else
      var next := RankStep(cands[col], col, best, moves);
      Ranking(cands, col + 1, next.0, next.1)
  }

  /** What the loop knows after the columns before col: moves lists exactly
      the candidates, with their rows, whose score equals best, no
      candidate scores more, and best is still -inf while moves is empty. */
  ghost predicate RankedBefore(cands: seq<Option<(int, ExtInt)>>, col: int, best: ExtInt, moves: seq<(int, int)>)
    requires 0 <= col <= |cands|
  {
    && (forall i :: 0 <= i < |moves| ==> 0 <= moves[i].0 < col && cands[moves[i].0] == Some((moves[i].1, best)))
    && (forall c :: 0 <= c < col && cands[c].Some? ==>
          Le(cands[c].value.1, best) && (cands[c].value.1 == best ==> (c, cands[c].value.0) in moves))
    && (moves == [] <==> forall c :: 0 <= c < col ==> cands[c].None?)
    && (moves == [] ==> best == NegInf)
  }

  lemma LeTrans(a: ExtInt, b: ExtInt, c: ExtInt)
    requires Le(a, b) && Le(b, c)
    ensures Le(a, c)
  {
  }

  /** One iteration of the loop keeps RankedBefore. */
  lemma RankingStep(cands: seq<Option<(int, ExtInt)>>, col: int, best: ExtInt, moves: seq<(int, int)>)
    requires 0 <= col < |cands| && RankedBefore(cands, col, best, moves)
    ensures var next := RankStep(cands[col], col, best, moves);
      RankedBefore(cands, col + 1, next.0, next.1)
  {
    if cands[col].Some? {
      var (row, score) := cands[col].value;
      if Lt(best, score) {
        forall c | 0 <= c < col && cands[c].Some?
          ensures Le(cands[c].value.1, score) && cands[c].value.1 != score
        {
          LeTrans(cands[c].value.1, best, score);
        }
      } else if score == best {
        var moves' := moves + [(col, row)];
        forall i | 0 <= i < |moves'|
          ensures 0 <= moves'[i].0 < col + 1 && cands[moves'[i].0] == Some((moves'[i].1, best))
        {
          if i < |moves| {
            assert moves'[i] == moves[i];
          }
        }
      } else {
        assert Le(score, best);
      }
    }
  }

  /** The loop ends with RankedBefore over every column. */
  lemma {:induction false} RankingCorrect(cands: seq<Option<(int, ExtInt)>>, col: int, best: ExtInt,
                                          moves: seq<(int, int)>)
    requires 0 <= col <= |cands| && RankedBefore(cands, col, best, moves)
    decreases |cands| - col
    ensures var r := Ranking(cands, col, best, moves);
      RankedBefore(cands, |cands|, r.0, r.1)
  {
    if col < |cands| {
      RankingStep(cands, col, best, moves);
      var next := RankStep(cands[col], col, best, moves);
      RankingCorrect(cands, col + 1, next.0, next.1);
    }
  }

}
