/** tests/board2AI.py: GameBoard2AI, a Connect-4 board game_board[col][row]
    (row 0 at the bottom) written out for a language model: a header, the
    board drawn top row first, the same cells listed bottom row first, the
    occupied positions of each player, and each column's height and next
    free row. Cells are looked up in the table of board2string.py
    ({0: 'X', 1: 'O', None: '.'}), so any other value raises KeyError. */
module Board2AI {
  import opened Wrappers
  import opened C4Common
  import opened Text
  import opened Board2String

  function Title(): string { "CONNECT-4 BOARD STATE" }
  function Dimensions(): string { "DIMENSIONS: 6 rows x 7 columns" }
  function Coordinates(): string {
    "COORDINATE SYSTEM: " + "Column 1-7 (left to right), " + "Row 1-6 (bottom to top)"
  }
  function PiecesKey(): string { "PIECES: X=Player1, O=Player2, .=Empty" }
  /** The eight lines before the visual rows. */
  const HEAD := [Title(), Dimensions(), Coordinates(), PiecesKey(), "", "VISUAL BOARD:", COLUMNS, RULE]
  const RULE := "   =================="
  const COLUMNS := "   Col: 1 2 3 4 5 6 7"
  const DATA_TITLE := "POSITION DATA (Row,Col):"
  const OCCUPIED_TITLE := "OCCUPIED POSITIONS:"

  /** "Row {row+1}: ", the label both board sections start a row with. */
  function RowLabel(row: int): string
    requires 0 <= row < NUMROWS
  {
    "Row " + NatToString(row + 1) + ": "
  }

  // ---------------------------------------------------------------------
  // The visual board, top row first

  /** row_str after the first n columns: the label, then "c " per cell. */
  function VisualRow(board: Board, row: int, n: nat): string
    requires WellFormed(board) && 0 <= row < NUMROWS && n <= NUMCOLS
  {
    if n == 0 then RowLabel(row)
    else VisualRow(board, row, n - 1) + [CellChar(board[n - 1][row], '.')] + " "
  }

  /** The lines of the first n rows drawn, top row first. */
  function VisualLines(board: Board, n: nat): (r: seq<string>)
    requires WellFormed(board) && n <= NUMROWS
    ensures |r| == n
  {
    if n == 0 then [] else VisualLines(board, n - 1) + [VisualRow(board, NUMROWS - n, NUMCOLS)]
  }

  /** The visual rows (lines 25-33), or KeyError at the first unknown cell. */
  method VisualSection(board: Board) returns (r: Result<seq<string>>)
    requires WellFormed(board)
    ensures r.Ok? <==> Known(board)
    ensures r.Ok? ==> r.value == VisualLines(board, NUMROWS)
    ensures r.Err? ==> r.error == KeyError
  {
    var result := [];
    var row := NUMROWS - 1;
    while row >= 0
      invariant -1 <= row < NUMROWS
      invariant result == VisualLines(board, NUMROWS - 1 - row)
      invariant forall c, k :: 0 <= c < NUMCOLS && row < k < NUMROWS ==> KnownCell(board[c][k])
    {
      var rowStr := RowLabel(row);
      var col := 0;
      while col < NUMCOLS
        invariant 0 <= col <= NUMCOLS
        invariant rowStr == VisualRow(board, row, col)
        invariant forall c :: 0 <= c < col ==> KnownCell(board[c][row])
      {
        var ch := Lookup(board[col][row], '.');
        if ch.Err? {
          return Err(KeyError);
        }
        rowStr := rowStr + [ch.value] + " ";
        col := col + 1;
      }
      result := result + [rowStr];
      row := row - 1;
    }
    return Ok(result);
  }

  // ---------------------------------------------------------------------
  // The position data, bottom row first

  /** row_chars after the first n columns: each cell's character. */
  function RowChars(board: Board, row: int, n: nat): seq<string>
    requires WellFormed(board) && 0 <= row < NUMROWS && n <= NUMCOLS
  {
    if n == 0 then [] else RowChars(board, row, n - 1) + [[CellChar(board[n - 1][row], '.')]]
  }

  function DataLine(board: Board, row: int): string
    requires WellFormed(board) && 0 <= row < NUMROWS
  {
    RowLabel(row) + Join(RowChars(board, row, NUMCOLS), ",")
  }

  /** The data lines of rows 0 .. n-1, bottom row first. */
  function DataLines(board: Board, n: nat): (r: seq<string>)
    requires WellFormed(board) && n <= NUMROWS
    ensures |r| == n
  {
    if n == 0 then [] else DataLines(board, n - 1) + [DataLine(board, n - 1)]
  }

  /** The position data rows (lines 43-53); every lookup succeeds because
      the visual section has already looked up every cell. */
  method DataSection(board: Board) returns (lines: seq<string>)
    requires WellFormed(board) && Known(board)
    ensures lines == DataLines(board, NUMROWS)
  {
    lines := [];
    var row := 0;
    while row < NUMROWS
      invariant 0 <= row <= NUMROWS
      invariant lines == DataLines(board, row)
    {
      var rowStr := RowLabel(row);
      var rowChars := [];
      var col := 0;
      while col < NUMCOLS
        invariant 0 <= col <= NUMCOLS
        invariant rowChars == RowChars(board, row, col)
      {
        var ch := Lookup(board[col][row], '.');
        rowChars := rowChars + [[ch.value]];
        col := col + 1;
      }
      rowStr := rowStr + Join(rowChars, ",");
      lines := lines + [rowStr];
      row := row + 1;
    }
  }

  // ---------------------------------------------------------------------
  // Occupied positions, column by column

  /** "({row+1},{col+1})". */
  function PosText(row: int, col: int): string
    requires 0 <= row < NUMROWS && 0 <= col < NUMCOLS
  {
    "(" + NatToString(row + 1) + "," + NatToString(col + 1) + ")"
  }

  /** The positions holding v among rows 0 .. n-1 of one column. */
  function ColumnPositions(board: Board, v: int, col: int, n: nat): seq<string>
    requires WellFormed(board) && 0 <= col < NUMCOLS && n <= NUMROWS
  {
    if n == 0 then []
    else ColumnPositions(board, v, col, n - 1) + (if board[col][n - 1] == Some(v) then [PosText(n - 1, col)] else [])
  }

  /** The positions holding v in columns 0 .. n-1, column by column. */
  function Positions(board: Board, v: int, n: nat): seq<string>
    requires WellFormed(board) && n <= NUMCOLS
  {
    if n == 0 then [] else Positions(board, v, n - 1) + ColumnPositions(board, v, n - 1, NUMROWS)
  }

  /** ", ".join(positions), or "None" for an empty list. */
  function PosList(positions: seq<string>): string
  {
    if |positions| == 0 then "None" else Join(positions, ", ")
  }

  /** x_positions and o_positions (lines 61-70). */
  method CollectPositions(board: Board) returns (xs: seq<string>, os: seq<string>)
    requires WellFormed(board)
    ensures xs == Positions(board, 0, NUMCOLS) && os == Positions(board, 1, NUMCOLS)
  {
    xs, os := [], [];
    var col := 0;
    while col < NUMCOLS
      invariant 0 <= col <= NUMCOLS
      invariant xs == Positions(board, 0, col) && os == Positions(board, 1, col)
    {
      var row := 0;
      while row < NUMROWS
        invariant 0 <= row <= NUMROWS
        invariant xs == Positions(board, 0, col) + ColumnPositions(board, 0, col, row)
        invariant os == Positions(board, 1, col) + ColumnPositions(board, 1, col, row)
      {
        var player := board[col][row];
        if player == Some(0) {
          xs := xs + [PosText(row, col)];
        } else if player == Some(1) {
          os := os + [PosText(row, col)];
        }
        row := row + 1;
      }
      col := col + 1;
    }
  }

  // ---------------------------------------------------------------------
  // Column heights and next available rows

  /** height after scanning rows 0 .. n-1 of a column: one more than the
      last occupied row seen, 0 if none. */
  function HeightUpTo(board: Board, col: int, n: nat): nat
    requires WellFormed(board) && 0 <= col < NUMCOLS && n <= NUMROWS
  {
    if n == 0 then 0
    else if board[col][n - 1] != None then n
    else HeightUpTo(board, col, n - 1)
  }

  function Height(board: Board, col: int): nat
    requires WellFormed(board) && 0 <= col < NUMCOLS
  {
    HeightUpTo(board, col, NUMROWS)
  }

  /** The next available row shown for a column of height h. */
  function NextText(h: nat): string
  {
    if h >= NUMROWS then "FULL" else NatToString(h + 1)
  }

  /** column_heights after the first n columns. */
  function Heights(board: Board, n: nat): seq<string>
    requires WellFormed(board) && n <= NUMCOLS
  {
    if n == 0 then [] else Heights(board, n - 1) + [NatToString(Height(board, n - 1))]
  }

  /** next_available_rows after the first n columns. */
  function NextRows(board: Board, n: nat): seq<string>
    requires WellFormed(board) && n <= NUMCOLS
  {
    if n == 0 then [] else NextRows(board, n - 1) + [NextText(Height(board, n - 1))]
  }

  /** column_heights and next_available_rows (lines 81-97). */
  method ColumnHeights(board: Board) returns (heights: seq<string>, nexts: seq<string>)
    requires WellFormed(board)
    ensures heights == Heights(board, NUMCOLS) && nexts == NextRows(board, NUMCOLS)
  {
    heights, nexts := [], [];
    var col := 0;
    while col < NUMCOLS
      invariant 0 <= col <= NUMCOLS
      invariant heights == Heights(board, col) && nexts == NextRows(board, col)
    {
      var height := 0;
      var row := 0;
      while row < NUMROWS
        invariant 0 <= row <= NUMROWS
        invariant height == HeightUpTo(board, col, row)
      {
        if board[col][row] != None {
          height := row + 1;
        }
        row := row + 1;
      }
      heights := heights + [NatToString(height)];
      if height >= NUMROWS {
        nexts := nexts + ["FULL"];
      } else {
        nexts := nexts + [NatToString(height + 1)];
      }
      col := col + 1;
    }
  }

  // ---------------------------------------------------------------------
  // The whole text

  /** The header, the visual rows and the position data. */
  function BoardSections(board: Board): (r: seq<string>)
    requires WellFormed(board)
    ensures |r| == 2 * NUMROWS + 12
  {
    HEAD + VisualLines(board, NUMROWS) + [RULE, COLUMNS, "", DATA_TITLE] + DataLines(board, NUMROWS)
  }

  function PositionLines(board: Board): (r: seq<string>)
    requires WellFormed(board)
    ensures |r| == 5
  {
    ["", OCCUPIED_TITLE,
     "X pieces: " + PosList(Positions(board, 0, NUMCOLS)),
     "O pieces: " + PosList(Positions(board, 1, NUMCOLS)),
     ""]
  }

  function HeightLines(board: Board): (r: seq<string>)
    requires WellFormed(board)
    ensures |r| == 2
  {
    ["COLUMN HEIGHTS: [" + Join(Heights(board, NUMCOLS), ",") + "]",
     "NEXT AVAILABLE ROWS: [" + Join(NextRows(board, NUMCOLS), ",") + "]"]
  }

  function AILines(board: Board): (r: seq<string>)
    requires WellFormed(board)
    ensures |r| == 2 * NUMROWS + 19
  {
    BoardSections(board) + PositionLines(board) + HeightLines(board)
  }

  /** What GameBoard2AI returns, or KeyError. */
  function AIText(board: Board): Result<string>
    requires WellFormed(board)
  {
    if Known(board) then Ok(Join(AILines(board), "\n")) else Err(KeyError)
  }

  /** The occupied-positions lines (lines 58-78). */
  method PositionSection(board: Board) returns (lines: seq<string>)
    requires WellFormed(board)
    ensures lines == PositionLines(board)
  {
    lines := ["", OCCUPIED_TITLE];
    var xs, os := CollectPositions(board);
    var xText := if |xs| > 0 then Join(xs, ", ") else "None";
    var oText := if |os| > 0 then Join(os, ", ") else "None";
    lines := lines + ["X pieces: " + xText, "O pieces: " + oText, ""];
  }

  /** The column-height lines (lines 81-100). */
  method HeightSection(board: Board) returns (lines: seq<string>)
    requires WellFormed(board)
    ensures lines == HeightLines(board)
  {
    var heights, nexts := ColumnHeights(board);
    lines := ["COLUMN HEIGHTS: [" + Join(heights, ",") + "]"];
    lines := lines + ["NEXT AVAILABLE ROWS: [" + Join(nexts, ",") + "]"];
  }

  method GameBoard2AI(board: Board) returns (r: Result<string>)
    requires WellFormed(board)
    ensures r == AIText(board)
  {
    var visual := VisualSection(board);
    if visual.Err? {
      return Err(KeyError);
    }
    var result := HEAD + visual.value + [RULE, COLUMNS, "", DATA_TITLE];
    var data := DataSection(board);
    result := result + data;
    var positions := PositionSection(board);
    result := result + positions;
    var heights := HeightSection(board);
    result := result + heights;
    return Ok(Join(result, "\n"));
  }

  // ---------------------------------------------------------------------
  // Properties

  /** A column's height is one more than its highest occupied row: every
      row from the height up is empty, the row just below it is not, and
      the height is 0 exactly when the column is empty. */
  lemma {:induction false} HeightUpToIsTop(board: Board, col: int, n: nat)
    requires WellFormed(board) && 0 <= col < NUMCOLS && n <= NUMROWS
    ensures var h := HeightUpTo(board, col, n);
      h <= n && (h > 0 ==> board[col][h - 1] != None) &&
      (forall r :: h <= r < n ==> board[col][r] == None)
    decreases n
  {
    if n > 0 {
      HeightUpToIsTop(board, col, n - 1);
    }
  }

  lemma HeightIsTop(board: Board, col: int)
    requires WellFormed(board) && 0 <= col < NUMCOLS
    ensures var h := Height(board, col);
      h <= NUMROWS && (h > 0 ==> board[col][h - 1] != None) &&
      (forall r :: h <= r < NUMROWS ==> board[col][r] == None) &&
      (h == 0 <==> forall r :: 0 <= r < NUMROWS ==> board[col][r] == None)
  {
    HeightUpToIsTop(board, col, NUMROWS);
  }

  /** The next available row reads "FULL" exactly when the column's top
      cell is occupied, and is the height plus one otherwise. */
  lemma NextFullIff(board: Board, col: int)
    requires WellFormed(board) && 0 <= col < NUMCOLS
    ensures NextText(Height(board, col)) == "FULL" <==> board[col][NUMROWS - 1] != None
    ensures board[col][NUMROWS - 1] == None ==> NextText(Height(board, col)) == NatToString(Height(board, col) + 1)
  {
    HeightIsTop(board, col);
    var h := Height(board, col);
    if h < NUMROWS {
      NatToStringDigits(h + 1);
      assert NatToString(h + 1)[0] != 'F';
    }
  }

  /** Position texts name the position: different positions read
      differently. */
  lemma PosTextInjective(r1: int, c1: int, r2: int, c2: int)
    requires 0 <= r1 < NUMROWS && 0 <= c1 < NUMCOLS && 0 <= r2 < NUMROWS && 0 <= c2 < NUMCOLS
    requires PosText(r1, c1) == PosText(r2, c2)
    ensures r1 == r2 && c1 == c2
  {
    NatToStringDigits(r1 + 1);
    NatToStringDigits(c1 + 1);
    NatToStringDigits(r2 + 1);
    NatToStringDigits(c2 + 1);
    assert PosText(r1, c1)[1] == PosText(r2, c2)[1];
    assert PosText(r1, c1)[3] == PosText(r2, c2)[3];
  }

  lemma {:induction false} ColumnPositionsIff(board: Board, v: int, col: int, n: nat, r: int, c: int)
    requires WellFormed(board) && 0 <= col < NUMCOLS && n <= NUMROWS
    requires InBounds(c, r)
    ensures PosText(r, c) in ColumnPositions(board, v, col, n) <==> c == col && r < n && board[c][r] == Some(v)
    decreases n
  {
    if n > 0 {
      ColumnPositionsIff(board, v, col, n - 1, r, c);
      if PosText(r, c) == PosText(n - 1, col) {
        PosTextInjective(r, c, n - 1, col);
      }
    }
  }

  lemma {:induction false} PositionsUpToIff(board: Board, v: int, n: nat, r: int, c: int)
    requires WellFormed(board) && n <= NUMCOLS && InBounds(c, r)
    ensures PosText(r, c) in Positions(board, v, n) <==> c < n && board[c][r] == Some(v)
    decreases n
  {
    if n > 0 {
      PositionsUpToIff(board, v, n - 1, r, c);
      ColumnPositionsIff(board, v, n - 1, NUMROWS, r, c);
    }
  }

  /** A position is listed among a player's pieces exactly when the board
      holds that player's value there. */
  lemma PositionsIff(board: Board, v: int, r: int, c: int)
    requires WellFormed(board) && InBounds(c, r)
    ensures PosText(r, c) in Positions(board, v, NUMCOLS) <==> board[c][r] == Some(v)
  {
    PositionsUpToIff(board, v, NUMCOLS, r, c);
  }

  lemma {:induction false} ColumnPositionsEmpty(board: Board, v: int, col: int, n: nat)
    requires WellFormed(board) && 0 <= col < NUMCOLS && n <= NUMROWS
    ensures |ColumnPositions(board, v, col, n)| == 0 <==> forall r :: 0 <= r < n ==> board[col][r] != Some(v)
    decreases n
  {
    if n > 0 {
      ColumnPositionsEmpty(board, v, col, n - 1);
    }
  }

  lemma {:induction false} PositionsEmpty(board: Board, v: int, n: nat)
    requires WellFormed(board) && n <= NUMCOLS
    ensures |Positions(board, v, n)| == 0 <==>
      forall c, r :: 0 <= c < n && 0 <= r < NUMROWS ==> board[c][r] != Some(v)
    decreases n
  {
    if n > 0 {
      PositionsEmpty(board, v, n - 1);
      ColumnPositionsEmpty(board, v, n - 1, NUMROWS);
      if |Positions(board, v, n)| == 0 {
        assert |Positions(board, v, n - 1)| == 0 && |ColumnPositions(board, v, n - 1, NUMROWS)| == 0;
      }
    }
  }

  /** Every listed position starts with a parenthesis. */
  lemma {:induction false} PositionsParen(board: Board, v: int, n: nat)
    requires WellFormed(board) && n <= NUMCOLS
    ensures forall k :: 0 <= k < |Positions(board, v, n)| ==>
      |Positions(board, v, n)[k]| > 0 && Positions(board, v, n)[k][0] == '('
    decreases n
  {
    if n > 0 {
      PositionsParen(board, v, n - 1);
      ColumnPositionsParen(board, v, n - 1, NUMROWS);
    }
  }

  lemma {:induction false} ColumnPositionsParen(board: Board, v: int, col: int, n: nat)
    requires WellFormed(board) && 0 <= col < NUMCOLS && n <= NUMROWS
    ensures forall k :: 0 <= k < |ColumnPositions(board, v, col, n)| ==>
      |ColumnPositions(board, v, col, n)[k]| > 0 && ColumnPositions(board, v, col, n)[k][0] == '('
    decreases n
  {
    if n > 0 {
      ColumnPositionsParen(board, v, col, n - 1);
    }
  }

  /** "None" stands for an empty list only: a non-empty list of positions
      starts with a parenthesis. */
  lemma PosListNone(board: Board, v: int)
    requires WellFormed(board)
    ensures PosList(Positions(board, v, NUMCOLS)) == "None" <==>
      forall c, r :: InBounds(c, r) ==> board[c][r] != Some(v)
  {
    var ps := Positions(board, v, NUMCOLS);
    PositionsEmpty(board, v, NUMCOLS);
    PositionsParen(board, v, NUMCOLS);
    if |ps| > 0 {
      assert ps == [ps[0]] + ps[1..];
      if |ps| > 1 {
        JoinCons(ps[0], ps[1..], ", ");
      }
      assert PosList(ps)[0] == '(';
    }
  }

  /** A visual row is its label "Row {row+1}: " and then each cell's
      character followed by a space. */
  lemma {:induction false} VisualRowShape(board: Board, row: int, n: nat)
    requires WellFormed(board) && 0 <= row < NUMROWS && n <= NUMCOLS
    ensures var s := VisualRow(board, row, n);
      |s| == 7 + 2 * n && s[..7] == RowLabel(row) &&
      forall c :: 0 <= c < n ==> s[7 + 2 * c] == CellChar(board[c][row], '.') && s[8 + 2 * c] == ' '
    decreases n
  {
    NatToStringDigits(row + 1);
    if n > 0 {
      VisualRowShape(board, row, n - 1);
    }
  }

  lemma {:induction false} RowCharsJoin(board: Board, row: int, n: nat)
    requires WellFormed(board) && 0 <= row < NUMROWS && 0 < n <= NUMCOLS
    ensures var s := Join(RowChars(board, row, n), ",");
      |s| == 2 * n - 1 &&
      (forall c :: 0 <= c < n ==> s[2 * c] == CellChar(board[c][row], '.')) &&
      (forall c :: 0 <= c < n - 1 ==> s[2 * c + 1] == ',')
    decreases n
  {
    RowCharsLength(board, row, n);
    var parts := RowChars(board, row, n);
    var ch := CellChar(board[n - 1][row], '.');
    if n > 1 {
      RowCharsJoin(board, row, n - 1);
      RowCharsLength(board, row, n - 1);
      var t := Join(RowChars(board, row, n - 1), ",");
      assert parts[..|parts| - 1] == RowChars(board, row, n - 1);
      assert Join(parts, ",") == t + "," + [ch];
    }
  }

  lemma {:induction false} RowCharsLength(board: Board, row: int, n: nat)
    requires WellFormed(board) && 0 <= row < NUMROWS && n <= NUMCOLS
    ensures |RowChars(board, row, n)| == n
    decreases n
  {
    if n > 0 {
      RowCharsLength(board, row, n - 1);
    }
  }

  /** A data row is its label and then the NUMCOLS cell characters of that
      row, left to right, separated by commas. */
  lemma DataLineShape(board: Board, row: int)
    requires WellFormed(board) && 0 <= row < NUMROWS
    ensures var s := DataLine(board, row);
      |s| == 6 + 2 * NUMCOLS && s[..7] == RowLabel(row) &&
      (forall c :: 0 <= c < NUMCOLS ==> s[7 + 2 * c] == CellChar(board[c][row], '.')) &&
      (forall c :: 0 <= c < NUMCOLS - 1 ==> s[8 + 2 * c] == ',')
  {
    NatToStringDigits(row + 1);
    RowCharsJoin(board, row, NUMCOLS);
  }

  lemma {:induction false} VisualLinesShape(board: Board, n: nat)
    requires WellFormed(board) && n <= NUMROWS
    ensures |VisualLines(board, n)| == n
    ensures forall k :: 0 <= k < n ==> VisualLines(board, n)[k] == VisualRow(board, NUMROWS - 1 - k, NUMCOLS)
    decreases n
  {
    if n > 0 {
      VisualLinesShape(board, n - 1);
    }
  }

  lemma {:induction false} DataLinesShape(board: Board, n: nat)
    requires WellFormed(board) && n <= NUMROWS
    ensures |DataLines(board, n)| == n
    ensures forall k :: 0 <= k < n ==> DataLines(board, n)[k] == DataLine(board, k)
    decreases n
  {
    if n > 0 {
      DataLinesShape(board, n - 1);
    }
  }

  /** Where the second and fourth of six concatenated runs of lines sit. */
  lemma SectionsAt(lines: seq<string>, head: seq<string>, first: seq<string>, mid: seq<string>,
                   second: seq<string>, tail1: seq<string>, tail2: seq<string>)
    requires lines == head + first + mid + second + tail1 + tail2
    ensures |lines| == |head| + |first| + |mid| + |second| + |tail1| + |tail2|
    ensures lines[|head|..|head| + |first|] == first
    ensures lines[|head| + |first| + |mid|..|head| + |first| + |mid| + |second|] == second
  {
    assert lines == head + first + (mid + second + tail1 + tail2);
    assert lines == (head + first + mid) + second + (tail1 + tail2);
  }

  /** The board sections of the text: the visual rows, top row first, are
      lines 8 .. 8 + NUMROWS - 1, and the data rows, bottom row first, are
      lines NUMROWS + 12 .. 2 * NUMROWS + 11, of 2 * NUMROWS + 19 lines. */
  lemma AILinesSections(board: Board)
    requires WellFormed(board)
    ensures var lines := AILines(board);
      |lines| == 2 * NUMROWS + 19 &&
      lines[8..8 + NUMROWS] == VisualLines(board, NUMROWS) &&
      lines[NUMROWS + 12..2 * NUMROWS + 12] == DataLines(board, NUMROWS)
  {
    VisualLinesShape(board, NUMROWS);
    DataLinesShape(board, NUMROWS);
    SectionsAt(AILines(board), HEAD, VisualLines(board, NUMROWS), [RULE, COLUMNS, "", DATA_TITLE],
      DataLines(board, NUMROWS), PositionLines(board), HeightLines(board));
  }
  // ---------------------------------------------------------------------
  // The joined text splits back into the lines

  /** No line of a list holds a line break. */
  predicate NoBreaks(lines: seq<string>)
  {
    forall k :: 0 <= k < |lines| ==> '\n' !in lines[k]
  }

  lemma NoBreaksAppend(a: seq<string>, b: seq<string>)
    requires NoBreaks(a) && NoBreaks(b)
    ensures NoBreaks(a + b)
  {
    assert forall k :: |a| <= k < |a + b| ==> (a + b)[k] == b[k - |a|];
  }

  lemma NatToStringNoNewline(n: nat)
    ensures '\n' !in NatToString(n)
  {
    NatToStringDigits(n);
  }

  lemma RowLabelNoNewline(row: int)
    requires 0 <= row < NUMROWS
    ensures '\n' !in RowLabel(row)
  {
    NatToStringNoNewline(row + 1);
  }

  lemma {:induction false} VisualRowNoNewline(board: Board, row: int, n: nat)
    requires WellFormed(board) && 0 <= row < NUMROWS && n <= NUMCOLS
    ensures '\n' !in VisualRow(board, row, n)
    decreases n
  {
    if n == 0 {
      RowLabelNoNewline(row);
    } else {
      VisualRowNoNewline(board, row, n - 1);
      CellCharNoNewline(board[n - 1][row], '.');
    }
  }

  lemma {:induction false} VisualLinesNoBreaks(board: Board, n: nat)
    requires WellFormed(board) && n <= NUMROWS
    ensures NoBreaks(VisualLines(board, n))
    decreases n
  {
    if n > 0 {
      VisualLinesNoBreaks(board, n - 1);
      VisualRowNoNewline(board, NUMROWS - n, NUMCOLS);
      NoBreaksAppend(VisualLines(board, n - 1), [VisualRow(board, NUMROWS - n, NUMCOLS)]);
    }
  }

  lemma {:induction false} RowCharsNoBreaks(board: Board, row: int, n: nat)
    requires WellFormed(board) && 0 <= row < NUMROWS && n <= NUMCOLS
    ensures NoBreaks(RowChars(board, row, n))
    decreases n
  {
    if n > 0 {
      RowCharsNoBreaks(board, row, n - 1);
      CellCharNoNewline(board[n - 1][row], '.');
      NoBreaksAppend(RowChars(board, row, n - 1), [[CellChar(board[n - 1][row], '.')]]);
    }
  }

  lemma {:induction false} DataLinesNoBreaks(board: Board, n: nat)
    requires WellFormed(board) && n <= NUMROWS
    ensures NoBreaks(DataLines(board, n))
    decreases n
  {
    if n > 0 {
      DataLinesNoBreaks(board, n - 1);
      RowLabelNoNewline(n - 1);
      RowCharsNoBreaks(board, n - 1, NUMCOLS);
      JoinLacks(RowChars(board, n - 1, NUMCOLS), ",", '\n');
      NoBreaksAppend(DataLines(board, n - 1), [DataLine(board, n - 1)]);
    }
  }

  lemma {:induction false} ColumnPositionsNoBreaks(board: Board, v: int, col: int, n: nat)
    requires WellFormed(board) && 0 <= col < NUMCOLS && n <= NUMROWS
    ensures NoBreaks(ColumnPositions(board, v, col, n))
    decreases n
  {
    if n > 0 {
      ColumnPositionsNoBreaks(board, v, col, n - 1);
      NatToStringNoNewline(n);
      NatToStringNoNewline(col + 1);
      var here := if board[col][n - 1] == Some(v) then [PosText(n - 1, col)] else [];
      NoBreaksAppend(ColumnPositions(board, v, col, n - 1), here);
    }
  }

  lemma {:induction false} PositionsNoBreaks(board: Board, v: int, n: nat)
    requires WellFormed(board) && n <= NUMCOLS
    ensures NoBreaks(Positions(board, v, n))
    decreases n
  {
    if n > 0 {
      PositionsNoBreaks(board, v, n - 1);
      ColumnPositionsNoBreaks(board, v, n - 1, NUMROWS);
      NoBreaksAppend(Positions(board, v, n - 1), ColumnPositions(board, v, n - 1, NUMROWS));
    }
  }

  lemma PosListNoNewline(positions: seq<string>)
    requires NoBreaks(positions)
    ensures '\n' !in PosList(positions)
  {
    if |positions| > 0 {
      JoinLacks(positions, ", ", '\n');
    }
  }

  lemma {:induction false} HeightsNoBreaks(board: Board, n: nat)
    requires WellFormed(board) && n <= NUMCOLS
    ensures NoBreaks(Heights(board, n)) && NoBreaks(NextRows(board, n))
    decreases n
  {
    if n > 0 {
      HeightsNoBreaks(board, n - 1);
      var h := Height(board, n - 1);
      NatToStringNoNewline(h);
      NatToStringNoNewline(h + 1);
      NoBreaksAppend(Heights(board, n - 1), [NatToString(h)]);
      NoBreaksAppend(NextRows(board, n - 1), [NextText(h)]);
    }
  }

  /** None of the fixed lines holds a line break. */
  lemma FixedLinesNoBreaks()
    ensures NoBreaks(HEAD) && NoBreaks([RULE, COLUMNS, "", DATA_TITLE])
  {
    TitleNoNewline();
    DimensionsNoNewline();
    CoordinatesNoNewline();
    PiecesKeyNoNewline();
  }

  lemma TitleNoNewline()
    ensures '\n' !in Title()
  {
  }
  lemma DimensionsNoNewline()
    ensures '\n' !in Dimensions()
  {
  }
  lemma CoordinatesNoNewline()
    ensures '\n' !in Coordinates()
  {
    assert '\n' !in "COORDINATE SYSTEM: " && '\n' !in "Column 1-7 (left to right), ";
    assert '\n' !in "Row 1-6 (bottom to top)";
  }
  lemma PiecesKeyNoNewline()
    ensures '\n' !in PiecesKey()
  {
  }

  lemma BoardSectionsNoBreaks(board: Board)
    requires WellFormed(board)
    ensures NoBreaks(BoardSections(board))
  {
    var visual, data := VisualLines(board, NUMROWS), DataLines(board, NUMROWS);
    var mid := [RULE, COLUMNS, "", DATA_TITLE];
    VisualLinesNoBreaks(board, NUMROWS);
    DataLinesNoBreaks(board, NUMROWS);
    FixedLinesNoBreaks();
    NoBreaksAppend(HEAD, visual);
    NoBreaksAppend(HEAD + visual, mid);
    NoBreaksAppend(HEAD + visual + mid, data);
  }

  lemma PositionLinesNoBreaks(board: Board)
    requires WellFormed(board)
    ensures NoBreaks(PositionLines(board))
  {
    PositionsNoBreaks(board, 0, NUMCOLS);
    PositionsNoBreaks(board, 1, NUMCOLS);
    PosListNoNewline(Positions(board, 0, NUMCOLS));
    PosListNoNewline(Positions(board, 1, NUMCOLS));
  }

  lemma HeightLinesNoBreaks(board: Board)
    requires WellFormed(board)
    ensures NoBreaks(HeightLines(board))
  {
    HeightsNoBreaks(board, NUMCOLS);
    JoinLacks(Heights(board, NUMCOLS), ",", '\n');
    JoinLacks(NextRows(board, NUMCOLS), ",", '\n');
  }

  /** The text of a known board splits at its line breaks into exactly the
      2 * NUMROWS + 19 lines of AILines: the visual rows, top row first, are
      lines 8 .. 8 + NUMROWS - 1 of the text and the data rows, bottom row
      first, are lines NUMROWS + 12 .. 2 * NUMROWS + 11. */
  lemma AITextLines(board: Board)
    requires WellFormed(board) && Known(board)
    ensures AIText(board).Ok?
    ensures var lines := Split(AIText(board).value, '\n');
      lines == AILines(board) && |lines| == 2 * NUMROWS + 19 &&
      lines[8..8 + NUMROWS] == VisualLines(board, NUMROWS) &&
      lines[NUMROWS + 12..2 * NUMROWS + 12] == DataLines(board, NUMROWS)
  {
    var sections, positions, heights := BoardSections(board), PositionLines(board), HeightLines(board);
    BoardSectionsNoBreaks(board);
    PositionLinesNoBreaks(board);
    HeightLinesNoBreaks(board);
    NoBreaksAppend(sections, positions);
    NoBreaksAppend(sections + positions, heights);
    SplitJoin(AILines(board), '\n');
    AILinesSections(board);
  }
}
