/** app/c4_ollama.py: the text side of asking a language model for a
    Connect-4 move. parse_ai_response turns the model's reply into a
    0-based column; generate_prompt writes the board, column by column,
    into a prompt text. The prompt text read from the prompt file, the
    HTTP call and the random fallback move are not part of this model:
    the base prompt is a parameter. */
module C4Ollama {
  import opened Wrappers
  import opened C4Common
  import opened Text

  // ---------------------------------------------------------------------
  // parse_ai_response

  /** A character the regular expression \b counts as part of a word. */
  predicate IsWordChar(c: char)
  {
    ('a' <= c <= 'z') || ('A' <= c <= 'Z') || ('0' <= c <= '9') || c == '_'
  }

  /** A match of \b[1-7]\b at index i: a digit 1-7 with no word character
      directly before or after it. */
  predicate StandaloneAt(s: string, i: nat)
    requires i < |s|
  {
    '1' <= s[i] <= '7' &&
    (i == 0 || !IsWordChar(s[i - 1])) &&
    (i + 1 == |s| || !IsWordChar(s[i + 1]))
  }

  /** The index of the leftmost match at or after from: where findall's
      first match lies. */
  function FirstStandalone(s: string, from: nat): (r: Option<nat>)
    requires from <= |s|
    ensures r.Some? ==> from <= r.value < |s| && StandaloneAt(s, r.value)
    ensures r.Some? ==> forall j :: from <= j < r.value ==> !StandaloneAt(s, j)
    ensures r.None? ==> forall j :: from <= j < |s| ==> !StandaloneAt(s, j)
    decreases |s| - from
  {
    if from == |s| then None
    else if StandaloneAt(s, from) then Some(from)
    else FirstStandalone(s, from + 1)
  }

  /** The fallback: the whole (stripped) reply read by int(), accepted in
      1..7. */
  function ParseWhole(s: string): (r: Result<int>)
    ensures r.Ok? ==> 0 <= r.value <= 6
    ensures r.Err? ==> r.error == ValueError
  {
    match ParseInt(s)
    case Some(v) => if 1 <= v <= 7 then Ok(v - 1) else Err(ValueError)
    case None => Err(ValueError)
  }

  /** parse_ai_response(response): a 0-based column, or ValueError. */
  function ParseAIResponse(response: string): (r: Result<int>)
    ensures r.Ok? ==> 0 <= r.value <= 6
    ensures r.Err? ==> r.error == ValueError
  {
    var s := Strip(response);
    match FirstStandalone(s, 0)
    case Some(i) =>
      var column := DigitValue(s[i]) - 1;
      if 0 <= column <= 6 then Ok(column) else ParseWhole(s)
    case None => ParseWhole(s)
  }

  /** The leftmost standalone digit of the stripped reply decides the
      column ... */
  lemma ParseStandalone(response: string, i: nat)
    requires var s := Strip(response);
      i < |s| && StandaloneAt(s, i) && forall j :: 0 <= j < i ==> !StandaloneAt(s, j)
    ensures ParseAIResponse(response) == Ok(DigitValue(Strip(response)[i]) - 1)
  {
    var s := Strip(response);
    var first := FirstStandalone(s, 0);
    assert first.Some?;
    if first.value < i {
    } else if first.value > i {
    }
  }

  /** ... and without one, the whole stripped reply must be an integer in
      1..7. */
  lemma ParseNoStandalone(response: string)
    requires var s := Strip(response); forall j :: 0 <= j < |s| ==> !StandaloneAt(s, j)
    ensures var v := ParseInt(Strip(response));
      ParseAIResponse(response) == if v.Some? && 1 <= v.value <= 7 then Ok(v.value - 1) else Err(ValueError)
  {
  }

  /** A reply that names the column in words around its 1-based number is
      understood: the number read back is the column. */
  lemma ParseEmbedded(pre: string, column: int, post: string)
    requires 0 <= column < NUMCOLS
    requires |pre| > 0 ==> !IsSpace(pre[0]) && !IsWordChar(pre[|pre| - 1])
    requires |post| > 0 ==> !IsSpace(post[|post| - 1]) && !IsWordChar(post[0])
    requires forall j :: 0 <= j < |pre| ==> !StandaloneAt(pre, j)
    ensures ParseAIResponse(pre + NatToString(column + 1) + post) == Ok(column)
  {
    NatToStringDigits(column + 1);
    var d := NatToString(column + 1);
    var s := pre + d + post;
    EmbeddedFirst(pre, d, post);
    assert Strip(s) == s by {
      assert |s| > 0 && s[0] == (if |pre| > 0 then pre[0] else d[0]);
      assert s[|s| - 1] == (if |post| > 0 then post[|post| - 1] else d[0]);
      StripNothing(s);
    }
    assert s[|pre|] == DigitChar(column + 1);
    assert DigitValue(s[|pre|]) - 1 == column;
    ParseStandalone(s, |pre|);
  }

  /** The digit after pre is the first standalone one. */
  lemma EmbeddedFirst(pre: string, d: string, post: string)
    requires |d| == 1 && '1' <= d[0] <= '7'
    requires |pre| > 0 ==> !IsWordChar(pre[|pre| - 1])
    requires |post| > 0 ==> !IsWordChar(post[0])
    requires forall j :: 0 <= j < |pre| ==> !StandaloneAt(pre, j)
    ensures |pre| < |pre + d + post| && StandaloneAt(pre + d + post, |pre|)
    ensures forall j :: 0 <= j < |pre| ==> !StandaloneAt(pre + d + post, j)
  {
    var s := pre + d + post;
    assert s[|pre|] == d[0];
    assert |pre| > 0 ==> s[|pre| - 1] == pre[|pre| - 1];
    assert |post| > 0 ==> s[|pre| + 1] == post[0];
    forall j | 0 <= j < |pre|
      ensures !StandaloneAt(s, j)
    {
      assert s[j] == pre[j];
      if j + 1 < |pre| {
        assert s[j + 1] == pre[j + 1];
        assert !StandaloneAt(pre, j);
      }
    }
  }

  /** A bare "07" has no standalone digit (the 7 follows a word
      character) but int() reads it as 7, so it names the last column. */
  lemma ParseLeadingZero()
    ensures ParseAIResponse("07") == Ok(6)
  {
    var s := "07";
    StripNothing(s);
    assert !StandaloneAt(s, 0) && !StandaloneAt(s, 1);
    assert DigitRun(s);
    assert DigitsValue(s) == 7 by {
      assert s[..1] == "0";
    }
  }

  // ---------------------------------------------------------------------
  // generate_prompt

  const MARKER := "BOARD STATE BY COLUMN"
  const MARKER_HEADER := "\n\nBOARD STATE BY COLUMN (bottom to top):\n"
  const PLACEHOLDER := "CURRENT PLAYER: X to make a next move"

  /** The first line at or after from that holds the marker. */
  function MarkerLine(lines: seq<string>, from: nat): (r: Option<nat>)
    requires from <= |lines|
    ensures r.Some? ==> from <= r.value < |lines| && Contains(lines[r.value], MARKER)
    ensures r.Some? ==> forall j :: from <= j < r.value ==> !Contains(lines[j], MARKER)
    ensures r.None? ==> forall j :: from <= j < |lines| ==> !Contains(lines[j], MARKER)
    decreases |lines| - from
  {
    if from == |lines| then None
    else if Contains(lines[from], MARKER) then Some(from)
    else MarkerLine(lines, from + 1)
  }

  /** The prompt before the column lines: the base prompt and a marker
      header when the base has no marker line, else the base's lines up to
      and including the first marker line, and a newline. */
  function PromptHead(base: string): string
  {
    var lines := Split(base, '\n');
    match MarkerLine(lines, 0)
    case None => base + MARKER_HEADER
    case Some(k) => Join(lines[..k + 1], "\n") + "\n"
  }

  /** How a cell is named after its row number: None as "=empty", 0 as
      "=X", anything else "=O". */
  function CellState(cell: Cell): string
  {
    match cell
    case None => "=empty"
    case Some(v) => if v == 0 then "=X" else "=O"
  }

  /** "Row{row+1}=" and the cell's name. */
  function RowEntry(board: Board, col: int, row: int): string
    requires WellFormed(board) && 0 <= col < NUMCOLS && 0 <= row < NUMROWS
  {
    "Row" + NatToString(row + 1) + CellState(board[col][row])
  }

  /** row_states after the first n rows of a column. */
  function RowStates(board: Board, col: int, n: nat): (r: seq<string>)
    requires WellFormed(board) && 0 <= col < NUMCOLS && n <= NUMROWS
    ensures |r| == n
  {
    if n == 0 then [] else RowStates(board, col, n - 1) + [RowEntry(board, col, n - 1)]
  }

  function ColumnLine(board: Board, col: int): string
    requires WellFormed(board) && 0 <= col < NUMCOLS
  {
    "Column " + NatToString(col + 1) + ": " + Join(RowStates(board, col, NUMROWS), ", ")
  }

  /** The column lines of the first n columns, each ended by a newline. */
  function ColumnsText(board: Board, n: nat): string
    requires WellFormed(board) && n <= NUMCOLS
  {
    if n == 0 then "" else ColumnsText(board, n - 1) + ColumnLine(board, n - 1) + "\n"
  }

  function PlayerLine(currentPlayer: int): string
  {
    "CURRENT PLAYER: " + (if currentPlayer == 0 then "X" else "O") + " to make a next move"
  }

  /** What generate_prompt returns for a base prompt. */
  function Prompt(base: string, board: Board, currentPlayer: int): string
    requires WellFormed(board)
  {
    ReplaceAll(PromptHead(base) + ColumnsText(board, NUMCOLS), PLACEHOLDER, PlayerLine(currentPlayer))
  }

  /** The marker search (lines 54-58): one past the first marker line,
      or -1. */
  method FindMarker(promptLines: seq<string>) returns (boardStartIndex: int)
    ensures MarkerLine(promptLines, 0).None? ==> boardStartIndex == -1
    ensures MarkerLine(promptLines, 0).Some? ==> boardStartIndex == MarkerLine(promptLines, 0).value + 1
  {
    boardStartIndex := -1;
    var i := 0;
    while i < |promptLines|
      invariant 0 <= i <= |promptLines|
      invariant MarkerLine(promptLines, i) == MarkerLine(promptLines, 0)
    {
      if Contains(promptLines[i], MARKER) {
        boardStartIndex := i + 1;
        break;
      }
      i := i + 1;
    }
  }

  /** One column's line without its newline (lines 69-80). */
  method ColumnState(board: Board, col: int) returns (columnState: string)
    requires WellFormed(board) && 0 <= col < NUMCOLS
    ensures columnState == ColumnLine(board, col)
  {
    columnState := "Column " + NatToString(col + 1) + ": ";
    var rowStates := [];
    var row := 0;
    while row < NUMROWS
      invariant 0 <= row <= NUMROWS
      invariant rowStates == RowStates(board, col, row)
    {
      if board[col][row] == None {
        rowStates := rowStates + ["Row" + NatToString(row + 1) + "=empty"];
      } else if board[col][row] == Some(0) {
        rowStates := rowStates + ["Row" + NatToString(row + 1) + "=X"];
      } else {
        rowStates := rowStates + ["Row" + NatToString(row + 1) + "=O"];
      }
      row := row + 1;
    }
    columnState := columnState + Join(rowStates, ", ");
  }

  /** Concatenation regrouped, for the column loop. */
  lemma Regroup(a: string, b: string, c: string, d: string)
    ensures (a + b) + c + d == a + (b + c + d)
  {
  }

  method GeneratePrompt(basePrompt: string, board: Board, currentPlayer: int) returns (prompt: string)
    requires WellFormed(board)
    ensures prompt == Prompt(basePrompt, board, currentPlayer)
  {
    var promptLines := Split(basePrompt, '\n');
    var boardStartIndex := FindMarker(promptLines);
    if boardStartIndex == -1 {
      prompt := basePrompt + MARKER_HEADER;
    } else {
      prompt := Join(promptLines[..boardStartIndex], "\n") + "\n";
    }
    ghost var head := PromptHead(basePrompt);
    assert prompt == head;
    var col := 0;
    while col < NUMCOLS
      invariant 0 <= col <= NUMCOLS
      invariant prompt == head + ColumnsText(board, col)
    {
      var columnState := ColumnState(board, col);
      ghost var done := ColumnsText(board, col);
      assert ColumnsText(board, col + 1) == done + columnState + "\n";
      prompt := prompt + columnState + "\n";
      Regroup(head, done, columnState, "\n");
      col := col + 1;
    }
    var currentPlayerSymbol := if currentPlayer == 0 then "X" else "O";
    prompt := ReplaceAll(prompt, PLACEHOLDER, "CURRENT PLAYER: " + currentPlayerSymbol + " to make a next move");
  }

  // ---------------------------------------------------------------------
  // Properties of the prompt

  /** With a marker line, the head is the base prompt cut just after its
      first marker line: a prefix of the base, with a newline added when
      the marker is on the last line ... */
  lemma PromptHeadPrefix(base: string, k: nat)
    requires MarkerLine(Split(base, '\n'), 0) == Some(k)
    ensures PromptHead(base) <= base + "\n"
  {
    var lines := Split(base, '\n');
    assert PromptHead(base) == Join(lines[..k + 1], "\n") + "\n";
    JoinSplit(base, '\n');
    JoinPrefix(lines, k + 1, "\n");
  }

  /** Joining the first n lines and ending them with a newline gives a
      prefix of all the lines joined and ended with a newline. */
  lemma JoinPrefix(lines: seq<string>, n: nat, sep: string)
    requires 0 < n <= |lines|
    ensures Join(lines[..n], sep) + sep <= Join(lines, sep) + sep
  {
    if n < |lines| {
      var pre, rest := lines[..n], lines[n..];
      assert pre + rest == lines;
      JoinAppend(pre, rest, sep);
      PrefixOfLonger(Join(pre, sep), sep, Join(rest, sep), sep);
    } else {
      assert lines[..n] == lines;
    }
  }

  /** ... whose lines are exactly the base's lines up to that one, then an
      empty one after the final newline. */
  lemma PromptHeadLines(base: string, k: nat)
    requires MarkerLine(Split(base, '\n'), 0) == Some(k)
    ensures Split(PromptHead(base), '\n') == Split(base, '\n')[..k + 1] + [""]
  {
    var lines := Split(base, '\n');
    var pre := lines[..k + 1];
    SplitPieces(base, '\n');
    var parts := pre + [""];
    assert parts[..|parts| - 1] == pre;
    assert Join(parts, "\n") == Join(pre, "\n") + "\n";
    SplitJoin(parts, '\n');
  }

  /** Without a marker line, the base prompt is kept whole and the marker
      header follows it. */
  lemma PromptHeadNoMarker(base: string)
    requires forall j :: 0 <= j < |Split(base, '\n')| ==> !Contains(Split(base, '\n')[j], MARKER)
    ensures PromptHead(base) == base + MARKER_HEADER
  {
    if MarkerLine(Split(base, '\n'), 0).Some? {
    }
  }

  /** A column holds NUMROWS entries, bottom row first, "Row{r}=" and the
      cell's name. */
  lemma {:induction false} RowStatesShape(board: Board, col: int, n: nat)
    requires WellFormed(board) && 0 <= col < NUMCOLS && n <= NUMROWS
    ensures forall r :: 0 <= r < n ==> RowStates(board, col, n)[r] == RowEntry(board, col, r)
    ensures forall r :: 0 <= r < n ==> '\n' !in RowStates(board, col, n)[r]
    decreases n
  {
    if n > 0 {
      RowStatesShape(board, col, n - 1);
      NatToStringDigits(n);
      assert '\n' !in CellState(board[col][n - 1]);
    }
  }

  lemma ColumnLineNoNewline(board: Board, col: int)
    requires WellFormed(board) && 0 <= col < NUMCOLS
    ensures '\n' !in ColumnLine(board, col)
  {
    RowStatesShape(board, col, NUMROWS);
    JoinLacks(RowStates(board, col, NUMROWS), ", ", '\n');
    NatToStringDigits(col + 1);
  }

  /** The column lines of the first n columns, as a list. */
  function ColumnLines(board: Board, n: nat): (r: seq<string>)
    requires WellFormed(board) && n <= NUMCOLS
    ensures |r| == n
  {
    if n == 0 then [] else ColumnLines(board, n - 1) + [ColumnLine(board, n - 1)]
  }

  /** Line k of the list is column k's line. */
  lemma {:induction false} ColumnLinesAt(board: Board, n: nat, k: nat)
    requires WellFormed(board) && k < n <= NUMCOLS
    ensures ColumnLines(board, n)[k] == ColumnLine(board, k)
    decreases n
  {
    if k < n - 1 {
      ColumnLinesAt(board, n - 1, k);
    }
  }

  /** a + s starts a + s + b + t. */
  lemma PrefixOfLonger(a: string, s: string, b: string, t: string)
    ensures a + s <= a + s + b + t
  {
    assert (a + s + b + t)[..|a + s|] == a + s;
  }

  /** Join with one more part at the end. */
  lemma JoinLast(ls: seq<string>, line: string, sep: string)
    ensures Join(ls + [line], sep) == if ls == [] then line else Join(ls, sep) + sep + line
  {
    var parts := ls + [line];
    assert parts[..|parts| - 1] == ls;
  }

  /** The column text is the column lines joined by newlines, with a
      newline at the end. */
  lemma {:induction false} ColumnsTextJoin(board: Board, n: nat)
    requires WellFormed(board) && 0 < n <= NUMCOLS
    ensures ColumnsText(board, n) == Join(ColumnLines(board, n), "\n") + "\n"
    decreases n
  {
    var prev := ColumnLines(board, n - 1);
    var line := ColumnLine(board, n - 1);
    assert ColumnLines(board, n) == prev + [line];
    JoinLast(prev, line, "\n");
    if n == 1 {
      assert ColumnsText(board, n - 1) + line == line;
    } else {
      ColumnsTextJoin(board, n - 1);
    }
  }

  /** The board part of the prompt is NUMCOLS lines, one per column in
      order, each ended by a newline. */
  lemma ColumnsTextLines(board: Board)
    requires WellFormed(board)
    ensures var lines := Split(ColumnsText(board, NUMCOLS), '\n');
      |lines| == NUMCOLS + 1 && lines[NUMCOLS] == "" &&
      forall k :: 0 <= k < NUMCOLS ==> lines[k] == ColumnLine(board, k)
  {
    ColumnsTextJoin(board, NUMCOLS);
    var ls := ColumnLines(board, NUMCOLS);
    JoinLast(ls, "", "\n");
    assert Join(ls, "\n") + "\n" + "" == Join(ls, "\n") + "\n";
    forall k | 0 <= k < |ls + [""]|
      ensures '\n' !in (ls + [""])[k]
    {
      if k < NUMCOLS {
        ColumnLinesAt(board, NUMCOLS, k);
        ColumnLineNoNewline(board, k);
      }
    }
    SplitJoin(ls + [""], '\n');
    forall k | 0 <= k < NUMCOLS
      ensures (ls + [""])[k] == ColumnLine(board, k)
    {
      ColumnLinesAt(board, NUMCOLS, k);
    }
  }

  /** For player 0 the placeholder already names the right player and the
      prompt is the head and the column lines unchanged; so is any prompt
      without the placeholder. */
  lemma PromptUnreplaced(base: string, board: Board, currentPlayer: int)
    requires WellFormed(board)
    requires currentPlayer == 0 || !Contains(PromptHead(base) + ColumnsText(board, NUMCOLS), PLACEHOLDER)
    ensures Prompt(base, board, currentPlayer) == PromptHead(base) + ColumnsText(board, NUMCOLS)
  {
    if currentPlayer == 0 {
      PlaceholderNamesX();
    }
    ReplaceAllIdentity(PromptHead(base) + ColumnsText(board, NUMCOLS), PLACEHOLDER, PlayerLine(currentPlayer));
  }

  /** The placeholder is the line for player 0. */
  lemma PlaceholderNamesX()
    ensures PlayerLine(0) == PLACEHOLDER
  {
  }
}
