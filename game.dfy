/** The chip operations of app/game.py on its module-level Connect-4 board
    game_board, indexed game_board[col][row] with row 0 at the bottom. The
    module-level list becomes the board field of one GameBoard object. */
module C4Game {
  import opened Wrappers
  import opened C4Common
  import opened C4Shared

  class GameBoard {
    var board: Board

    ghost predicate Valid()
      reads this
    {
      WellFormed(board)
    }

    /** game_board = [[None for _ in range(NUMROWS)] for _ in range(NUMCOLS)] */
    constructor()
      ensures Valid() && forall c, k :: InBounds(c, k) ==> board[c][k] == None
    {
      board := seq(NUMCOLS, _ => seq(NUMROWS, _ => None));
    }

    /** PlaceChip(col, row, value): writes the one cell, or raises IndexError
        and leaves the board alone. */
    method PlaceChip(col: int, row: int, value: int) returns (r: Result<()>)
      requires Valid()
      modifies this
      ensures Valid()
      ensures r.Err? <==> !InBounds(col, row)
      ensures r.Err? ==> r.error == IndexError && board == old(board)
      ensures r.Ok? ==> board == Place(old(board), col, row, Some(value))
    {
      if 0 <= row < NUMROWS && 0 <= col < NUMCOLS {
        board := board[col := board[col][row := Some(value)]];
        r := Ok(());
      } else {
        r := Err(IndexError);
      }
    }

    /** ReadChip(col, row): the cell, or IndexError. */
    method ReadChip(col: int, row: int) returns (r: Result<Cell>)
      requires Valid()
      ensures r.Err? <==> !InBounds(col, row)
      ensures r.Err? ==> r.error == IndexError
      ensures r.Ok? ==> r.value == board[col][row]
    {
      if 0 <= row < NUMROWS && 0 <= col < NUMCOLS {
        r := Ok(board[col][row]);
      } else {
        r := Err(IndexError);
      }
    }

    /** GetFirstOpenRow(col): scan the column upward and return the first
        empty row, None when the column is full, IndexError for a column
        outside [0, NUMCOLS). */
    method GetFirstOpenRow(col: int) returns (r: Result<Option<int>>)
      requires Valid()
      ensures r == C4Common.GetFirstOpenRow(board, col)
    {
      if 0 <= col < NUMCOLS {
        var row := 0;
        while row < NUMROWS
          invariant 0 <= row <= NUMROWS
          invariant forall k :: 0 <= k < row ==> board[col][k] != None
        {
          var value := board[col][row];
          if value == None {
            return Ok(Some(row));
          }
          row := row + 1;
        }
        return Ok(None);
      } else {
        return Err(IndexError);
      }
    }
  }

  /** Dropping a chip into the first open row of a column moves that
      column's first open row up, and leaves the other columns' alone. */
  lemma PlaceRaisesOpenRow(board: Board, col: int, row: int, v: int)
    requires WellFormed(board) && C4Common.GetFirstOpenRow(board, col) == Ok(Some(row))
    ensures InBounds(col, row)
    ensures var r := C4Common.GetFirstOpenRow(Place(board, col, row, Some(v)), col);
      r.Ok? && (r.value.Some? ==> r.value.value > row)
    ensures forall c :: 0 <= c < NUMCOLS && c != col ==>
      C4Common.GetFirstOpenRow(Place(board, col, row, Some(v)), c) == C4Common.GetFirstOpenRow(board, c)
  {
    var b := Place(board, col, row, Some(v));
    forall c | 0 <= c < NUMCOLS && c != col
      ensures C4Common.GetFirstOpenRow(b, c) == C4Common.GetFirstOpenRow(board, c)
    {
      assert b[c] == board[c];
    }
  }
}
