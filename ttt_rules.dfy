/** The tic-tac-toe board of app/ttt_game.py and its rules: the module-level
    `game_board`, indexed game_board[col][row], is a field of a TttBoard
    object that the operations read and change in place. */
module TicTacToe {
  import opened Wrappers

  datatype Mark = X | O

  /** None is an empty square. */
  type Cell = Option<Mark>

  type Grid = seq<seq<Cell>>

  predicate WellFormed(g: Grid)
  {
    |g| == 3 && forall c :: 0 <= c < 3 ==> |g[c]| == 3
  }

  predicate InBounds(c: int, r: int)
  {
    0 <= c < 3 && 0 <= r < 3
  }

  /** The other side's mark: 'O' if player == 'X' else 'X'. */
  function Other(m: Mark): (r: Mark)
    ensures r != m
  {
    if m == X then O else X
  }

  /** 'X' if turn == 0 else 'O' */
  function PieceOf(turn: int): (m: Mark)
    ensures m == X <==> turn == 0
  {
    if turn == 0 then X else O
  }

  /** The board with no piece on it. */
  function EmptyGrid(): (g: Grid)
    ensures WellFormed(g) && forall c, r :: InBounds(c, r) ==> g[c][r] == None
  {
    [[None, None, None], [None, None, None], [None, None, None]]
  }

  /** The module-level game_board. */
  class TttBoard {
    var cells: Grid

    constructor()
      ensures cells == EmptyGrid()
    {
      cells := EmptyGrid();
    }
  }

  /** game_board[col][row] = x */
  function Place(g: Grid, col: int, row: int, x: Cell): (r: Grid)
    requires WellFormed(g) && InBounds(col, row)
    ensures WellFormed(r) && r[col][row] == x
    ensures forall c, k :: InBounds(c, k) && (c, k) != (col, row) ==> r[c][k] == g[c][k]
  {
    g[col := g[col][row := x]]
  }

  /** A trial piece set back to None leaves the board as it was. */
  lemma PlaceUndo(g: Grid, col: int, row: int, x: Cell)
    requires WellFormed(g) && InBounds(col, row) && g[col][row] == None
    ensures Place(Place(g, col, row, x), col, row, None) == g
  {
    assert Place(Place(g, col, row, x), col, row, None)[col] == g[col];
  }

  // ---------------------------------------------------------------------
  // Check_For_Winner

  /** The three squares of line i, in the order Check_For_Winner tries
      the lines: i = 0..2 is row i, i = 3..5 is column i - 3, 6 is the
      diagonal from (0,0) and 7 the diagonal from (2,0). */
  function Line(g: Grid, i: int): (cells: seq<Cell>)
    requires WellFormed(g) && 0 <= i < 8
    ensures |cells| == 3
  {
    if i < 3 then [g[0][i], g[1][i], g[2][i]]
    else if i < 6 then [g[i - 3][0], g[i - 3][1], g[i - 3][2]]
    else if i == 6 then [g[0][0], g[1][1], g[2][2]]
    else [g[2][0], g[1][1], g[0][2]]
  }

  /** Line i holds three of m's pieces. */
  predicate Complete(g: Grid, i: int, m: Mark)
    requires WellFormed(g) && 0 <= i < 8
  {
    Line(g, i) == [Some(m), Some(m), Some(m)]
  }

  /** a == b == c and a is not None: the mark on the line, if it owns it. */
  function Owner(cells: seq<Cell>): Cell
    requires |cells| == 3
  {
    if cells[0] == cells[1] && cells[1] == cells[2] && cells[0] != None then cells[0] else None
  }

  /** The owner of the first complete line from line i on. */
  function FirstWinner(g: Grid, i: int): Cell
    requires WellFormed(g) && 0 <= i <= 8
    decreases 8 - i
  {
    if i == 8 then None
    else if Owner(Line(g, i)).Some? then Owner(Line(g, i))
    else FirstWinner(g, i + 1)
  }

  /** FirstWinner finds the first complete line from line i on, and finds
      none exactly when there is none. */
  lemma {:induction false} FirstWinnerIff(g: Grid, i: int)
    requires WellFormed(g) && 0 <= i <= 8
    decreases 8 - i
    ensures var w := FirstWinner(g, i);
      w.Some? ==> exists j :: i <= j < 8 && Complete(g, j, w.value) && forall k, m :: i <= k < j ==> !Complete(g, k, m)
    ensures FirstWinner(g, i).None? <==> forall j, m :: i <= j < 8 ==> !Complete(g, j, m)
  {
    if i < 8 {
      var o := Owner(Line(g, i));
      if o.Some? {
        assert Complete(g, i, o.value);
      } else {
        assert forall m :: !Complete(g, i, m);
        FirstWinnerIff(g, i + 1);
        var w := FirstWinner(g, i + 1);
        if w.Some? {
          var j :| i + 1 <= j < 8 && Complete(g, j, w.value) && forall k, m :: i + 1 <= k < j ==> !Complete(g, k, m);
          assert forall k, m :: i <= k < j ==> !Complete(g, k, m);
        }
      }
    }
  }

  /** The mark Check_For_Winner returns: the owner of the first complete
      line, None when no line is complete. */
  function Winner(g: Grid): Cell
    requires WellFormed(g)
  {
    FirstWinner(g, 0)
  }

  /** Check_For_Winner */
  method CheckForWinner(b: TttBoard) returns (w: Cell)
    requires WellFormed(b.cells)
    ensures w == Winner(b.cells)
  {
    var g := b.cells;
    for row := 0 to 3
      invariant FirstWinner(g, row) == Winner(g)
    {
      if g[0][row] == g[1][row] && g[1][row] == g[2][row] && g[0][row] != None {
        return g[0][row];
      }
    }
    for col := 0 to 3
      invariant FirstWinner(g, 3 + col) == Winner(g)
    {
      if g[col][0] == g[col][1] && g[col][1] == g[col][2] && g[col][0] != None {
        return g[col][0];
      }
    }
    if g[0][0] == g[1][1] && g[1][1] == g[2][2] && g[0][0] != None {
      return g[0][0];
    }
    if g[2][0] == g[1][1] && g[1][1] == g[0][2] && g[2][0] != None {
      return g[2][0];
    }
    return None;
  }

  /** Check_For_Winner returns a mark exactly when three of that mark's
      pieces share a row, a column or a diagonal, and None exactly when no
      line is complete. */
  lemma WinnerIff(g: Grid)
    requires WellFormed(g)
    ensures forall m :: Winner(g) == Some(m) ==> exists i :: 0 <= i < 8 && Complete(g, i, m)
    ensures Winner(g) == None <==> forall i, m :: 0 <= i < 8 ==> !Complete(g, i, m)
  {
    FirstWinnerIff(g, 0);
  }

  // ---------------------------------------------------------------------
  // Check_for_Draw and Get_Piece_Count

  /** No empty square is left. */
  predicate Full(g: Grid)
    requires WellFormed(g)
  {
    forall c, r :: 0 <= c < 3 && 0 <= r < 3 ==> g[c][r] != None
  }

  /** What Check_for_Draw reports: no winner and no empty square. */
  predicate IsDraw(g: Grid)
    requires WellFormed(g)
  {
    Winner(g).None? && Full(g)
  }

  /** Check_for_Draw */
  method CheckForDraw(b: TttBoard) returns (draw: bool)
    requires WellFormed(b.cells)
    ensures draw <==> IsDraw(b.cells)
  {
    var winner := CheckForWinner(b);
    if winner.Some? {
      return false;
    }
    for col := 0 to 3
      invariant forall c, r :: 0 <= c < col && 0 <= r < 3 ==> b.cells[c][r] != None
    {
      for row := 0 to 3
        invariant forall c, r :: 0 <= c < col && 0 <= r < 3 ==> b.cells[c][r] != None
        invariant forall r :: 0 <= r < row ==> b.cells[col][r] != None
      {
        if b.cells[col][row] == None {
          return false;
        }
      }
    }
    return true;
  }

  /** The pieces in a list of squares, counted from the end. */
  function CountPieces(s: seq<Cell>): (n: nat)
    ensures n <= |s|
  {
    if s == [] then 0 else CountPieces(s[..|s| - 1]) + (if s[|s| - 1] != None then 1 else 0)
  }

  /** The pieces in the columns below n. */
  function ColumnsCount(g: Grid, n: int): nat
    requires WellFormed(g) && 0 <= n <= 3
  {
    if n == 0 then 0 else ColumnsCount(g, n - 1) + CountPieces(g[n - 1])
  }

  /** The number Get_Piece_Count returns. */
  function PieceCount(g: Grid): nat
    requires WellFormed(g)
  {
    ColumnsCount(g, 3)
  }

  /** Empty squares. */
  function Empties(g: Grid): nat
    requires WellFormed(g)
  {
    CountBounds(g);
    9 - PieceCount(g)
  }

  /** Get_Piece_Count */
  method GetPieceCount(b: TttBoard) returns (sum: int)
    requires WellFormed(b.cells)
    ensures sum == PieceCount(b.cells)
  {
    var g := b.cells;
    sum := 0;
    for col := 0 to 3
      invariant sum == ColumnsCount(g, col)
    {
      for row := 0 to 3
        invariant sum == ColumnsCount(g, col) + CountPieces(g[col][..row])
      {
        assert g[col][..row + 1][..row] == g[col][..row];
        if g[col][row] != None {
          sum := sum + 1;
        }
      }
      assert g[col][..3] == g[col];
    }
  }

  /** The count of one column, square by square. */
  lemma CountColumn(s: seq<Cell>)
    requires |s| == 3
    ensures CountPieces(s) == (if s[0] != None then 1 else 0) + (if s[1] != None then 1 else 0) + (if s[2] != None then 1 else 0)
  {
    assert s[..2][..1] == s[..1];
    assert s[..3][..2] == s[..2];
    assert s[..3] == s;
  }

  /** The piece count column by column. */
  lemma ColumnSums(g: Grid)
    requires WellFormed(g)
    ensures PieceCount(g) == CountPieces(g[0]) + CountPieces(g[1]) + CountPieces(g[2])
  {
    assert ColumnsCount(g, 1) == CountPieces(g[0]);
    assert ColumnsCount(g, 2) == CountPieces(g[0]) + CountPieces(g[1]);
  }

  /** The piece count square by square. */
  lemma CountSquares(g: Grid)
    requires WellFormed(g)
    ensures PieceCount(g) ==
      (if g[0][0] != None then 1 else 0) + (if g[0][1] != None then 1 else 0) + (if g[0][2] != None then 1 else 0)
      + (if g[1][0] != None then 1 else 0) + (if g[1][1] != None then 1 else 0) + (if g[1][2] != None then 1 else 0)
      + (if g[2][0] != None then 1 else 0) + (if g[2][1] != None then 1 else 0) + (if g[2][2] != None then 1 else 0)
  {
    ColumnSums(g);
    CountColumn(g[0]);
    CountColumn(g[1]);
    CountColumn(g[2]);
  }

  /** Get_Piece_Count is between 0 and 9; it is 9 exactly on a full board
      and 0 exactly on an empty one. */
  lemma CountBounds(g: Grid)
    requires WellFormed(g)
    ensures PieceCount(g) <= 9
    ensures PieceCount(g) == 9 <==> Full(g)
    ensures PieceCount(g) == 0 <==> forall c, r :: InBounds(c, r) ==> g[c][r] == None
  {
    CountSquares(g);
  }

  /** A piece on an empty square raises the count by one. */
  lemma PlaceAddsOne(g: Grid, col: int, row: int, x: Cell)
    requires WellFormed(g) && InBounds(col, row) && g[col][row] == None && x != None
    ensures PieceCount(Place(g, col, row, x)) == PieceCount(g) + 1
    ensures Empties(Place(g, col, row, x)) + 1 == Empties(g)
  {
    var h := Place(g, col, row, x);
    ColumnSums(g);
    ColumnSums(h);
    assert h[col] == g[col][row := x];
    CountColumn(g[col]);
    CountColumn(h[col]);
  }

  // ---------------------------------------------------------------------
  // Clear_Board

  /** Clear_Board: every square back to None. */
  method ClearBoard(b: TttBoard)
    requires WellFormed(b.cells)
    modifies b
    ensures b.cells == EmptyGrid()
  {
    for col := 0 to 3
      invariant WellFormed(b.cells)
      invariant forall c, r :: 0 <= c < col && 0 <= r < 3 ==> b.cells[c][r] == None
    {
      for row := 0 to 3
        invariant WellFormed(b.cells)
        invariant forall c, r :: 0 <= c < col && 0 <= r < 3 ==> b.cells[c][r] == None
        invariant forall r :: 0 <= r < row ==> b.cells[col][r] == None
      {
        b.cells := Place(b.cells, col, row, None);
      }
    }
    assert forall c :: 0 <= c < 3 ==> b.cells[c] == EmptyGrid()[c];
  }

  /** A cleared board has no piece and no winner and is not a draw. */
  lemma ClearedBoard()
    ensures PieceCount(EmptyGrid()) == 0 && Empties(EmptyGrid()) == 9
    ensures Winner(EmptyGrid()) == None && !IsDraw(EmptyGrid())
  {
    CountBounds(EmptyGrid());
    assert !Full(EmptyGrid()) by {
      assert EmptyGrid()[0][0] == None;
    }
  }
}
