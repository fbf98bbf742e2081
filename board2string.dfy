/** tests/board2string.py: three text renderings of a Connect-4 board
    game_board[col][row] (row 0 at the bottom), drawn top row first. Each
    rendering looks every cell up in a small table, {0: 'X', 1: 'O',
    None: empty}, so a cell holding any other value raises KeyError. */
module Board2String {
  import opened Wrappers
  import opened C4Common
  import opened Text

  const HEADER := "  1 2 3 4 5 6 7"
  const BORDER := "  -------------"
  const SIMPLE_FOOTER := "1234567"
  const TITLE := "    CONNECT 4 BOARD"
  const LEGEND_X := "  X = Red Player (0)"
  const LEGEND_O := "  O = Yellow Player (1)"
  const LEGEND_EMPTY := "  · = Empty Position"
  const WIDE_HEADER := "    1   2   3   4   5   6   7"
  const TOP := "  ┌───┬───┬───┬───┬───┬───┬───┐"
  const SEPARATOR := "  ├───┼───┼───┼───┼───┼───┼───┤"
  const BOTTOM := "  └───┴───┴───┴───┴───┴───┴───┘"
  const DOT: char := '·'

  /** A cell the lookup table has an entry for. */
  predicate KnownCell(cell: Cell)
  {
    cell.None? || cell.value == 0 || cell.value == 1
  }

  /** Every cell of the board has an entry in the table. */
  predicate Known(board: Board)
    requires WellFormed(board)
  {
    forall c, r :: 0 <= c < NUMCOLS && 0 <= r < NUMROWS ==> KnownCell(board[c][r])
  }

  /** The character a known cell is drawn with. */
  function CellChar(cell: Cell, empty: char): char
  {
    match cell
    case None => empty
    case Some(v) => if v == 0 then 'X' else 'O'
  }

  /** player_chars[player]: the table lookup, KeyError for a missing key. */
  function Lookup(cell: Cell, empty: char): (r: Result<char>)
    ensures r.Ok? <==> KnownCell(cell)
    ensures r.Ok? ==> r.value == CellChar(cell, empty)
    ensures r.Err? ==> r.error == KeyError
  {
    match cell
    case None => Ok(empty)
    case Some(v) => if v == 0 then Ok('X') else if v == 1 then Ok('O') else Err(KeyError)
  }

  /** The drawing characters never include a line break. */
  lemma CellCharNoNewline(cell: Cell, empty: char)
    requires empty == '.' || empty == DOT
    ensures CellChar(cell, empty) != '\n'
  {
  }

  /** None of the fixed lines holds a line break. */
  lemma PlainLinesNoNewline()
    ensures '\n' !in HEADER && '\n' !in BORDER && '\n' !in SIMPLE_FOOTER
  {
  }

  lemma LegendNoNewline()
    ensures '\n' !in TITLE && '\n' !in LEGEND_X && '\n' !in LEGEND_O && '\n' !in LEGEND_EMPTY
  {
  }

  lemma GridNoNewline()
    ensures '\n' !in WIDE_HEADER && '\n' !in TOP
  {
  }

  lemma RulesNoNewline()
    ensures '\n' !in SEPARATOR && '\n' !in BOTTOM
  {
  }

  // ---------------------------------------------------------------------
  // GameBoard2String

  /** row_str after the first n columns: "{row+1}|" then "c " per cell. */
  function RowText(board: Board, row: int, n: nat): string
    requires WellFormed(board) && 0 <= row < NUMROWS && n <= NUMCOLS
  {
    if n == 0 then NatToString(row + 1) + "|"
    else RowText(board, row, n - 1) + [CellChar(board[n - 1][row], '.')] + " "
  }

  /** The lines of the first n rows drawn, top row first. */
  function RowLines(board: Board, n: nat): seq<string>
    requires WellFormed(board) && n <= NUMROWS
  {
    if n == 0 then [] else RowLines(board, n - 1) + [RowText(board, NUMROWS - n, NUMCOLS)]
  }

  function BoardLines(board: Board): seq<string>
    requires WellFormed(board)
  {
    [HEADER, BORDER] + RowLines(board, NUMROWS) + [BORDER, HEADER]
  }

  /** What GameBoard2String returns, or KeyError. */
  function BoardText(board: Board): Result<string>
    requires WellFormed(board)
  {
    if Known(board) then Ok(Join(BoardLines(board), "\n")) else Err(KeyError)
  }

  method GameBoard2String(board: Board) returns (r: Result<string>)
    requires WellFormed(board)
    ensures r == BoardText(board)
  {
    var result := [HEADER, BORDER];
    var row := NUMROWS - 1;
    while row >= 0
      invariant -1 <= row < NUMROWS
      invariant result == [HEADER, BORDER] + RowLines(board, NUMROWS - 1 - row)
      invariant forall c, k :: 0 <= c < NUMCOLS && row < k < NUMROWS ==> KnownCell(board[c][k])
    {
      var rowStr := NatToString(row + 1) + "|";
      var col := 0;
      while col < NUMCOLS
        invariant 0 <= col <= NUMCOLS
        invariant rowStr == RowText(board, row, col)
        invariant forall c :: 0 <= c < col ==> KnownCell(board[c][row])
      {
        var ch := Lookup(board[col][row], '.');
        if ch.Err? {
          return Err(KeyError);
        }
        rowStr := rowStr + [ch.value] + " ";
        col := col + 1;
      }
      result := result + [rowStr];
      row := row - 1;
    }
    result := result + [BORDER, HEADER];
    return Ok(Join(result, "\n"));
  }

  /** A row line is its 1-based row number, a bar, then each cell's
      character followed by a space. */
  lemma {:induction false} RowTextShape(board: Board, row: int, n: nat)
    requires WellFormed(board) && 0 <= row < NUMROWS && n <= NUMCOLS
    ensures var s := RowText(board, row, n);
      |s| == 2 + 2 * n && s[0] == DigitChar(row + 1) && s[1] == '|' &&
      (forall c :: 0 <= c < n ==> s[2 + 2 * c] == CellChar(board[c][row], '.') && s[3 + 2 * c] == ' ') &&
      '\n' !in s
    decreases n
  {
    NatToStringDigits(row + 1);
    if n > 0 {
      RowTextShape(board, row, n - 1);
      CellCharNoNewline(board[n - 1][row], '.');
    }
  }

  lemma {:induction false} RowLinesShape(board: Board, n: nat)
    requires WellFormed(board) && n <= NUMROWS
    ensures |RowLines(board, n)| == n
    ensures forall k :: 0 <= k < n ==> RowLines(board, n)[k] == RowText(board, NUMROWS - 1 - k, NUMCOLS)
    ensures forall k :: 0 <= k < n ==> '\n' !in RowLines(board, n)[k]
    decreases n
  {
    if n > 0 {
      RowLinesShape(board, n - 1);
      RowTextShape(board, NUMROWS - n, NUMCOLS);
    }
  }

  /** The text of a known board splits into NUMROWS + 4 lines: header and
      border, the rows from the top one (numbered NUMROWS) down, border and
      header again; the last line being the header, no newline ends it. */
  lemma BoardTextLines(board: Board)
    requires WellFormed(board) && Known(board)
    ensures BoardText(board).Ok?
    ensures var lines := Split(BoardText(board).value, '\n');
      |lines| == NUMROWS + 4 &&
      lines[0] == HEADER && lines[1] == BORDER &&
      lines[NUMROWS + 2] == BORDER && lines[NUMROWS + 3] == HEADER &&
      forall k :: 2 <= k < NUMROWS + 2 ==> lines[k] == RowText(board, NUMROWS + 1 - k, NUMCOLS)
  {
    var lines := BoardLines(board);
    RowLinesShape(board, NUMROWS);
    PlainLinesNoNewline();
    SplitJoin(lines, '\n');
  }

  // ---------------------------------------------------------------------
  // GameBoard2StringSimple

  /** row_str after the first n columns: one character per cell. */
  function SimpleRowText(board: Board, row: int, n: nat): string
    requires WellFormed(board) && 0 <= row < NUMROWS && n <= NUMCOLS
  {
    if n == 0 then "" else SimpleRowText(board, row, n - 1) + [CellChar(board[n - 1][row], '.')]
  }

  function SimpleRowLines(board: Board, n: nat): seq<string>
    requires WellFormed(board) && n <= NUMROWS
  {
    if n == 0 then [] else SimpleRowLines(board, n - 1) + [SimpleRowText(board, NUMROWS - n, NUMCOLS)]
  }

  /** What GameBoard2StringSimple returns, or KeyError. */
  function SimpleText(board: Board): Result<string>
    requires WellFormed(board)
  {
    if Known(board) then Ok(Join(SimpleRowLines(board, NUMROWS) + [SIMPLE_FOOTER], "\n")) else Err(KeyError)
  }

  method GameBoard2StringSimple(board: Board) returns (r: Result<string>)
    requires WellFormed(board)
    ensures r == SimpleText(board)
  {
    var result := [];
    var row := NUMROWS - 1;
    while row >= 0
      invariant -1 <= row < NUMROWS
      invariant result == SimpleRowLines(board, NUMROWS - 1 - row)
      invariant forall c, k :: 0 <= c < NUMCOLS && row < k < NUMROWS ==> KnownCell(board[c][k])
    {
      var rowStr := "";
      var col := 0;
      while col < NUMCOLS
        invariant 0 <= col <= NUMCOLS
        invariant rowStr == SimpleRowText(board, row, col)
        invariant forall c :: 0 <= c < col ==> KnownCell(board[c][row])
      {
        var ch := Lookup(board[col][row], '.');
        if ch.Err? {
          return Err(KeyError);
        }
        rowStr := rowStr + [ch.value];
        col := col + 1;
      }
      result := result + [rowStr];
      row := row - 1;
    }
    result := result + [SIMPLE_FOOTER];
    return Ok(Join(result, "\n"));
  }

  lemma {:induction false} SimpleRowShape(board: Board, row: int, n: nat)
    requires WellFormed(board) && 0 <= row < NUMROWS && n <= NUMCOLS
    ensures var s := SimpleRowText(board, row, n);
      |s| == n && (forall c :: 0 <= c < n ==> s[c] == CellChar(board[c][row], '.')) && '\n' !in s
    decreases n
  {
    if n > 0 {
      SimpleRowShape(board, row, n - 1);
      CellCharNoNewline(board[n - 1][row], '.');
    }
  }

  lemma {:induction false} SimpleRowLinesShape(board: Board, n: nat)
    requires WellFormed(board) && n <= NUMROWS
    ensures |SimpleRowLines(board, n)| == n
    ensures forall k :: 0 <= k < n ==> SimpleRowLines(board, n)[k] == SimpleRowText(board, NUMROWS - 1 - k, NUMCOLS)
    ensures forall k :: 0 <= k < n ==> '\n' !in SimpleRowLines(board, n)[k]
    decreases n
  {
    if n > 0 {
      SimpleRowLinesShape(board, n - 1);
      SimpleRowShape(board, NUMROWS - n, NUMCOLS);
    }
  }

  /** The simple text of a known board is NUMROWS lines of NUMCOLS cell
      characters, top row first, then the column digits. */
  lemma SimpleTextLines(board: Board)
    requires WellFormed(board) && Known(board)
    ensures SimpleText(board).Ok?
    ensures var lines := Split(SimpleText(board).value, '\n');
      |lines| == NUMROWS + 1 && lines[NUMROWS] == SIMPLE_FOOTER &&
      forall k, c :: 0 <= k < NUMROWS && 0 <= c < NUMCOLS ==>
        |lines[k]| == NUMCOLS && lines[k][c] == CellChar(board[c][NUMROWS - 1 - k], '.')
  {
    var lines := SimpleRowLines(board, NUMROWS) + [SIMPLE_FOOTER];
    SimpleRowLinesShape(board, NUMROWS);
    PlainLinesNoNewline();
    forall k | 0 <= k < NUMROWS
      ensures |lines[k]| == NUMCOLS && '\n' !in lines[k]
      ensures forall c :: 0 <= c < NUMCOLS ==> lines[k][c] == CellChar(board[c][NUMROWS - 1 - k], '.')
    {
      SimpleRowShape(board, NUMROWS - 1 - k, NUMCOLS);
    }
    SplitJoin(lines, '\n');
  }

  // ---------------------------------------------------------------------
  // GameBoard2StringDetailed

  /** row_str after the first n columns: "{row+1} │" then " c │" per cell. */
  function WideRowText(board: Board, row: int, n: nat): string
    requires WellFormed(board) && 0 <= row < NUMROWS && n <= NUMCOLS
  {
    if n == 0 then NatToString(row + 1) + " │"
    else WideRowText(board, row, n - 1) + " " + [CellChar(board[n - 1][row], DOT)] + " │"
  }

  /** The lines of the first n rows drawn, each row but the bottom one
      followed by a separator. */
  function WideRowLines(board: Board, n: nat): seq<string>
    requires WellFormed(board) && n <= NUMROWS
  {
    if n == 0 then []
    else
      var row := NUMROWS - n;
      WideRowLines(board, n - 1) + [WideRowText(board, row, NUMCOLS)] + (if row > 0 then [SEPARATOR] else [])
  }

  function DetailedLines(board: Board): seq<string>
    requires WellFormed(board)
  {
    [TITLE, LEGEND_X, LEGEND_O, LEGEND_EMPTY, "", WIDE_HEADER, TOP] +
    WideRowLines(board, NUMROWS) + [BOTTOM, WIDE_HEADER]
  }

  /** What GameBoard2StringDetailed returns, or KeyError. */
  function DetailedText(board: Board): Result<string>
    requires WellFormed(board)
  {
    if Known(board) then Ok(Join(DetailedLines(board), "\n")) else Err(KeyError)
  }

  method GameBoard2StringDetailed(board: Board) returns (r: Result<string>)
    requires WellFormed(board)
    ensures r == DetailedText(board)
  {
    var result := [TITLE, LEGEND_X, LEGEND_O, LEGEND_EMPTY, "", WIDE_HEADER, TOP];
    var row := NUMROWS - 1;
    while row >= 0
      invariant -1 <= row < NUMROWS
      invariant result == [TITLE, LEGEND_X, LEGEND_O, LEGEND_EMPTY, "", WIDE_HEADER, TOP] +
        WideRowLines(board, NUMROWS - 1 - row)
      invariant forall c, k :: 0 <= c < NUMCOLS && row < k < NUMROWS ==> KnownCell(board[c][k])
    {
      var rowStr := NatToString(row + 1) + " │";
      var col := 0;
      while col < NUMCOLS
        invariant 0 <= col <= NUMCOLS
        invariant rowStr == WideRowText(board, row, col)
        invariant forall c :: 0 <= c < col ==> KnownCell(board[c][row])
      {
        var ch := Lookup(board[col][row], DOT);
        if ch.Err? {
          return Err(KeyError);
        }
        rowStr := rowStr + " " + [ch.value] + " │";
        col := col + 1;
      }
      result := result + [rowStr];
      if row > 0 {
        result := result + [SEPARATOR];
      }
      row := row - 1;
    }
    result := result + [BOTTOM, WIDE_HEADER];
    return Ok(Join(result, "\n"));
  }

  /** A detailed row line is its row number, a space and a bar, then for
      each cell a space, its character, a space and a bar. */
  lemma {:induction false} WideRowShape(board: Board, row: int, n: nat)
    requires WellFormed(board) && 0 <= row < NUMROWS && n <= NUMCOLS
    ensures var s := WideRowText(board, row, n);
      |s| == 3 + 4 * n && s[0] == DigitChar(row + 1) &&
      (forall c :: 0 <= c < n ==> s[4 + 4 * c] == CellChar(board[c][row], DOT)) &&
      '\n' !in s
    decreases n
  {
    NatToStringDigits(row + 1);
    if n > 0 {
      WideRowShape(board, row, n - 1);
      CellCharNoNewline(board[n - 1][row], DOT);
    }
  }

  lemma {:induction false} WideRowLinesShape(board: Board, n: nat)
    requires WellFormed(board) && n <= NUMROWS
    ensures var ls := WideRowLines(board, n);
      |ls| == 2 * n - (if n == NUMROWS then 1 else 0) &&
      (forall k :: 0 <= k < n ==> ls[2 * k] == WideRowText(board, NUMROWS - 1 - k, NUMCOLS)) &&
      (forall k :: 0 <= k < n && k < NUMROWS - 1 ==> ls[2 * k + 1] == SEPARATOR) &&
      (forall k :: 0 <= k < |ls| ==> '\n' !in ls[k])
    decreases n
  {
    if n > 0 {
      WideRowLinesShape(board, n - 1);
      WideRowShape(board, NUMROWS - n, NUMCOLS);
    }
  }

  /** The detailed text of a known board is 2 * NUMROWS + 8 lines: five of
      title and legend, the column numbers and the top border, each row
      (top one first) with a separator under every row but the bottom one,
      then the bottom border and the column numbers. */
  lemma DetailedTextLines(board: Board)
    requires WellFormed(board) && Known(board)
    ensures DetailedText(board).Ok?
    ensures var lines := Split(DetailedText(board).value, '\n');
      |lines| == 2 * NUMROWS + 8 &&
      lines[..7] == [TITLE, LEGEND_X, LEGEND_O, LEGEND_EMPTY, "", WIDE_HEADER, TOP] &&
      (forall k :: 0 <= k < NUMROWS ==> lines[7 + 2 * k] == WideRowText(board, NUMROWS - 1 - k, NUMCOLS)) &&
      (forall k :: 0 <= k < NUMROWS - 1 ==> lines[8 + 2 * k] == SEPARATOR) &&
      lines[2 * NUMROWS + 6] == BOTTOM && lines[2 * NUMROWS + 7] == WIDE_HEADER
  {
    var lines := DetailedLines(board);
    var rows := WideRowLines(board, NUMROWS);
    WideRowLinesShape(board, NUMROWS);
    LegendNoNewline();
    GridNoNewline();
    RulesNoNewline();
    SplitJoin(lines, '\n');
  }
}
