/** Connect-4 rules shared by the AI players: the board is indexed
    board[col][row], column 0 on the left and row 0 at the bottom; a cell is
    None when empty or holds a player number. */
module C4Common {
  import opened Wrappers

  const NUMROWS: int := 6
  const NUMCOLS: int := 7

  type Cell = Option<int>
  type Board = seq<seq<Cell>>

  /** The shape every board in the game has: NUMCOLS columns of NUMROWS cells. */
  predicate WellFormed(board: Board)
  {
    |board| == NUMCOLS && forall c :: 0 <= c < NUMCOLS ==> |board[c]| == NUMROWS
  }

  predicate InBounds(col: int, row: int)
  {
    0 <= col < NUMCOLS && 0 <= row < NUMROWS
  }

  /** Every cell of the column holds a chip. */
  predicate ColumnFull(board: Board, col: int)
    requires WellFormed(board) && 0 <= col < NUMCOLS
  {
    forall k :: 0 <= k < NUMROWS ==> board[col][k] != None
  }

  predicate BoardFull(board: Board)
    requires WellFormed(board)
  {
    forall c, k :: 0 <= c < NUMCOLS && 0 <= k < NUMROWS ==> board[c][k] != None
  }

  /** Scan of one column upward from `row`. */
  function FirstOpenFrom(column: seq<Cell>, row: nat): (r: Option<int>)
    requires row <= |column|
    decreases |column| - row
    ensures r.Some? ==> row <= r.value < |column| && column[r.value] == None
    ensures r.Some? ==> forall k :: row <= k < r.value ==> column[k] != None
    ensures r.None? ==> forall k :: row <= k < |column| ==> column[k] != None
  {
    if row == |column| then None
    else if column[row] == None then Some(row)
    else FirstOpenFrom(column, row + 1)
  }

  /** The lowest empty row of a column, None when the column is full, and
      IndexError for a column outside [0, NUMCOLS). */
  function GetFirstOpenRow(board: Board, col: int): (r: Result<Option<int>>)
    requires WellFormed(board)
    ensures r.Err? <==> !(0 <= col < NUMCOLS)
    ensures r.Err? ==> r.error == IndexError
    ensures r == Ok(None) <==> 0 <= col < NUMCOLS && ColumnFull(board, col)
    ensures r.Ok? && r.value.Some? ==>
      var row := r.value.value;
      0 <= row < NUMROWS && board[col][row] == None &&
      forall k :: 0 <= k < row ==> board[col][k] != None
  {
    if 0 <= col < NUMCOLS then Ok(FirstOpenFrom(board[col], 0)) else Err(IndexError)
  }

  /** The row a chip dropped into an open column lands on. */
  function OpenRow(board: Board, col: int): (row: int)
    requires WellFormed(board) && 0 <= col < NUMCOLS && !ColumnFull(board, col)
    ensures 0 <= row < NUMROWS && board[col][row] == None
    ensures GetFirstOpenRow(board, col) == Ok(Some(row))
  {
    GetFirstOpenRow(board, col).value.value
  }

  function DrawFrom(board: Board, col: nat): (r: bool)
    requires WellFormed(board) && col <= NUMCOLS
    decreases NUMCOLS - col
    ensures r <==> forall c :: col <= c < NUMCOLS ==> ColumnFull(board, c)
  {
    if col == NUMCOLS then true
    else if GetFirstOpenRow(board, col).value.Some? then false
    else DrawFrom(board, col + 1)
  }

  /** True exactly when no column has an open row, i.e. every cell is filled. */
  function CheckForDraw(board: Board): (r: bool)
    requires WellFormed(board)
    ensures r <==> forall c :: 0 <= c < NUMCOLS ==> GetFirstOpenRow(board, c) == Ok(None)
    ensures r <==> BoardFull(board)
  {
    DrawFrom(board, 0)
  }

  /** Python list indexing: negative indices count from the end. */
  function PyIndex<T>(s: seq<T>, i: int): (r: Result<T>)
    ensures r.Ok? <==> -|s| <= i < |s|
    ensures r.Err? ==> r.error == IndexError
    ensures 0 <= i < |s| ==> r == Ok(s[i])
    ensures -|s| <= i < 0 ==> r == Ok(s[|s| + i])
  {
    if 0 <= i < |s| then Ok(s[i])
    else if -|s| <= i < 0 then Ok(s[|s| + i])
    else Err(IndexError)
  }

  /** True when board[col][row] is empty; indices follow Python's rules. */
  function CheckForValidMove(board: Board, col: int, row: int): (r: Result<bool>)
    requires WellFormed(board)
    ensures InBounds(col, row) ==> r == Ok(board[col][row] == None)
    ensures r.Ok? <==> -NUMCOLS <= col < NUMCOLS && -NUMROWS <= row < NUMROWS
    ensures r.Err? ==> r.error == IndexError
  {
    match PyIndex(board, col)
    case Err(e) => Err(e)
    case Ok(column) =>
      match PyIndex(column, row)
      case Err(e) => Err(e)
      case Ok(cell) => Ok(cell == None)
  }

  // ---------------------------------------------------------------------
  // Winner detection

  /** The four scan directions, in the order they are tried. */
  const Directions: seq<(int, int)> := [(0, 1), (1, 0), (1, 1), (1, -1)]

  predicate UnitDirection(dc: int, dr: int)
  {
    -1 <= dc <= 1 && -1 <= dr <= 1 && (dc, dr) != (0, 0)
  }

  lemma DirectionIsUnit(k: int)
    requires 0 <= k < |Directions|
    ensures UnitDirection(Directions[k].0, Directions[k].1)
  {
    assert k == 0 || k == 1 || k == 2 || k == 3;
  }

  /** Steps left before a walk in direction (dc, dr) leaves the board. */
  function StepsLeft(c: int, r: int, dc: int, dr: int): int
  {
    if dc == 1 then NUMCOLS - c
    else if dc == -1 then c + 1
    else if dr == 1 then NUMROWS - r
    else r + 1
  }

  /** The cells from (c, r) onward in direction (dc, dr) that hold `player`,
      stopping at the first cell that is off the board or holds something else. */
  function Walk(board: Board, c: int, r: int, dc: int, dr: int, player: int): seq<(int, int)>
    requires WellFormed(board) && UnitDirection(dc, dr)
    decreases if InBounds(c, r) then StepsLeft(c, r, dc, dr) else 0
  {
    if InBounds(c, r) && board[c][r] == Some(player)
    then [(c, r)] + Walk(board, c + dc, r + dr, dc, dr, player)
    else []
  }

  /** The positions list built for one direction: the start, then the
      positive walk, then the negative walk. */
  function LineThrough(board: Board, col: int, row: int, d: (int, int), player: int): seq<(int, int)>
    requires WellFormed(board) && UnitDirection(d.0, d.1)
  {
    [(col, row)] + Walk(board, col + d.0, row + d.1, d.0, d.1, player)
      + Walk(board, col - d.0, row - d.1, -d.0, -d.1, player)
  }

  function WinnerFrom(board: Board, col: int, row: int, player: int, k: nat): Option<seq<(int, int)>>
    requires WellFormed(board) && k <= |Directions|
    decreases |Directions| - k
  {
    if k == |Directions| then None
    else
      var line := LineThrough(board, col, row, Directions[k], player);
      if |line| >= 4 then Some(line) else WinnerFrom(board, col, row, player, k + 1)
  }

  /** Functional meaning of CheckForWinner. */
  function Winner(board: Board, col: int, row: int, player: int): Result<Option<seq<(int, int)>>>
    requires WellFormed(board)
  {
    if !InBounds(col, row) then Err(IndexError)
    else if board[col][row] != Some(player) then Ok(None)
    else Ok(WinnerFrom(board, col, row, player, 0))
  }

  /** One of the two `while` loops of CheckForWinner: appends to `positions`
      the player's chips from (c, r) onward in direction (dx, dy). */
  method ExtendRun(board: Board, c0: int, r0: int, dx: int, dy: int, player: int, positions: seq<(int, int)>)
    returns (extended: seq<(int, int)>)
    requires WellFormed(board) && UnitDirection(dx, dy)
    ensures extended == positions + Walk(board, c0, r0, dx, dy, player)
  {
    extended := positions;
    var c, r := c0, r0;
    while InBounds(c, r) && board[c][r] == Some(player)
      invariant extended + Walk(board, c, r, dx, dy, player)
             == positions + Walk(board, c0, r0, dx, dy, player)
      decreases if InBounds(c, r) then StepsLeft(c, r, dx, dy) else 0
    {
      extended := extended + [(c, r)];
      c, r := c + dx, r + dy;
    }
  }

  /** One pass of the direction loop of CheckForWinner: (col, row), then
      the player's chips along (dx, dy), then those against it. */
  method CollectLine(board: Board, col: int, row: int, dx: int, dy: int, player: int)
    returns (positions: seq<(int, int)>)
    requires WellFormed(board) && UnitDirection(dx, dy)
    ensures positions == LineThrough(board, col, row, (dx, dy), player)
  {
    positions := [(col, row)];
    positions := ExtendRun(board, col + dx, row + dy, dx, dy, player, positions);
    positions := ExtendRun(board, col - dx, row - dy, -dx, -dy, player, positions);
  }

  /** The list of winning positions through (col, row), or None. */
  method CheckForWinner(board: Board, col: int, row: int, player: int)
    returns (result: Result<Option<seq<(int, int)>>>)
    requires WellFormed(board)
    ensures result == Winner(board, col, row, player)
  {
    if !InBounds(col, row) {
      return Err(IndexError);
    }
    if board[col][row] != Some(player) {
      return Ok(None);
    }
    for k := 0 to |Directions|
      invariant WinnerFrom(board, col, row, player, k) == WinnerFrom(board, col, row, player, 0)
    {
      var dx, dy := Directions[k].0, Directions[k].1;
      assert UnitDirection(dx, dy) by {
        assert k == 0 || k == 1 || k == 2 || k == 3;
      }
      var positions := CollectLine(board, col, row, dx, dy, player);
      assert Directions[k] == (dx, dy);
      if |positions| >= 4 {
        return Ok(Some(positions));
      }
    }
    return Ok(None);
  }

  // ---------------------------------------------------------------------
  // Properties of the winner check

  /** i * d for a unit step d, written without multiplication. */
  function Times(i: int, d: int): int
  {
    if d == 1 then i else if d == -1 then -i else 0
  }

  /** The cell i steps from (c, r) in direction (dc, dr). */
  function Step(c: int, r: int, dc: int, dr: int, i: int): (int, int)
  {
    (c + Times(i, dc), r + Times(i, dr))
  }

  /** A walk is the contiguous run of `player` chips starting at (c, r):
      its i-th cell is i steps along (OnRay, WalkOnRay), every cell holds
      the player (AllHold, WalkHolds), and the cell just past it does not
      (WalkIsMaximal). */

  /** The i-th cell of `w` is i steps from (c, r) in direction (dc, dr). */
  predicate OnRay(w: seq<(int, int)>, c: int, r: int, dc: int, dr: int)
  {
    forall i :: 0 <= i < |w| ==> w[i] == Step(c, r, dc, dr, i)
  }

  lemma {:induction false} WalkOnRay(board: Board, c: int, r: int, dc: int, dr: int, player: int)
    requires WellFormed(board) && UnitDirection(dc, dr)
    ensures OnRay(Walk(board, c, r, dc, dr, player), c, r, dc, dr)
    decreases if InBounds(c, r) then StepsLeft(c, r, dc, dr) else 0
  {
    if InBounds(c, r) && board[c][r] == Some(player) {
      WalkOnRay(board, c + dc, r + dr, dc, dr, player);
      var w := Walk(board, c, r, dc, dr, player);
      var w' := Walk(board, c + dc, r + dr, dc, dr, player);
      assert w == [(c, r)] + w';
      forall i | 0 < i < |w| ensures w[i] == Step(c, r, dc, dr, i) {
        assert w[i] == w'[i - 1];
        StepForward(c, r, dc, dr, i - 1);
      }
    }
  }

  lemma {:induction false} WalkHolds(board: Board, c: int, r: int, dc: int, dr: int, player: int)
    requires WellFormed(board) && UnitDirection(dc, dr)
    ensures AllHold(board, Walk(board, c, r, dc, dr, player), player)
    decreases if InBounds(c, r) then StepsLeft(c, r, dc, dr) else 0
  {
    if InBounds(c, r) && board[c][r] == Some(player) {
      WalkHolds(board, c + dc, r + dr, dc, dr, player);
      AllHoldJoin(board, [(c, r)], Walk(board, c + dc, r + dr, dc, dr, player), player);
    }
  }

  /** ... and the cell just past the walk is off the board or holds
      something else, so the run cannot be extended. */
  lemma {:induction false} WalkIsMaximal(board: Board, c: int, r: int, dc: int, dr: int, player: int)
    requires WellFormed(board) && UnitDirection(dc, dr)
    ensures var next := Step(c, r, dc, dr, |Walk(board, c, r, dc, dr, player)|);
      !(InBounds(next.0, next.1) && board[next.0][next.1] == Some(player))
    decreases if InBounds(c, r) then StepsLeft(c, r, dc, dr) else 0
  {
    var n := |Walk(board, c, r, dc, dr, player)|;
    if InBounds(c, r) && board[c][r] == Some(player) {
      assert n == 1 + |Walk(board, c + dc, r + dr, dc, dr, player)|;
      WalkIsMaximal(board, c + dc, r + dr, dc, dr, player);
      StepForward(c, r, dc, dr, n - 1);
    } else {
      assert Step(c, r, dc, dr, n) == (c, r);
    }
  }

  /** Number of contiguous `player` chips on the line through (col, row)
      in direction d, counting (col, row) itself. */
  function RunLength(board: Board, col: int, row: int, d: (int, int), player: int): nat
    requires WellFormed(board) && UnitDirection(d.0, d.1)
  {
    1 + |Walk(board, col + d.0, row + d.1, d.0, d.1, player)|
      + |Walk(board, col - d.0, row - d.1, -d.0, -d.1, player)|
  }

  lemma {:induction false} WinnerFromSome(board: Board, col: int, row: int, player: int, k: nat)
    requires WellFormed(board) && k <= |Directions|
    ensures WinnerFrom(board, col, row, player, k).Some? <==>
      exists j :: k <= j < |Directions| && RunLength(board, col, row, Directions[j], player) >= 4
    decreases |Directions| - k
  {
    if k < |Directions| {
      WinnerFromSome(board, col, row, player, k + 1);
      LineThroughLength(board, col, row, Directions[k], player);
      if RunLength(board, col, row, Directions[k], player) < 4 {
        assert WinnerFrom(board, col, row, player, k) == WinnerFrom(board, col, row, player, k + 1);
        if j :| k <= j < |Directions| && RunLength(board, col, row, Directions[j], player) >= 4 {
          assert j != k;
        }
      }
    }
  }

  lemma LineThroughLength(board: Board, col: int, row: int, d: (int, int), player: int)
    requires WellFormed(board) && UnitDirection(d.0, d.1)
    ensures |LineThrough(board, col, row, d, player)| == RunLength(board, col, row, d, player)
  {
  }

  lemma {:induction false} WinnerFromLine(board: Board, col: int, row: int, player: int, k: nat)
    requires WellFormed(board) && k <= |Directions|
    requires WinnerFrom(board, col, row, player, k).Some?
    ensures var w := WinnerFrom(board, col, row, player, k).value;
      |w| >= 4 && exists j :: k <= j < |Directions| && w == LineThrough(board, col, row, Directions[j], player)
    decreases |Directions| - k
  {
    var line := LineThrough(board, col, row, Directions[k], player);
    if |line| < 4 {
      WinnerFromLine(board, col, row, player, k + 1);
    }
  }

  /** CheckForWinner raises IndexError exactly off the board, and returns
      None when the cell does not hold `player`. */
  lemma WinnerErrors(board: Board, col: int, row: int, player: int)
    requires WellFormed(board)
    ensures Winner(board, col, row, player).Err? <==> !InBounds(col, row)
    ensures InBounds(col, row) && board[col][row] != Some(player) ==>
      Winner(board, col, row, player) == Ok(None)
  {
  }

  lemma StepForward(c: int, r: int, dc: int, dr: int, j: int)
    requires UnitDirection(dc, dr)
    ensures Step(c + dc, r + dr, dc, dr, j) == Step(c, r, dc, dr, j + 1)
  {
  }

  lemma StepBack(c: int, r: int, dc: int, dr: int, j: int)
    requires UnitDirection(dc, dr)
    ensures Step(c - dc, r - dr, -dc, -dr, j) == Step(c, r, dc, dr, -(j + 1))
  {
  }

  /** `ps` is (col, row), then `a` cells stepping along d, then the rest
      stepping against d: a contiguous run on one line through (col, row). */
  predicate TwoSidedRun(ps: seq<(int, int)>, col: int, row: int, d: (int, int), a: int)
  {
    && 0 <= a < |ps| && ps[0] == (col, row)
    && (forall i :: 1 <= i <= a ==> ps[i] == Step(col, row, d.0, d.1, i))
    && (forall i :: a < i < |ps| ==> ps[i] == Step(col, row, d.0, d.1, a - i))
  }

  /** (col, row) followed by a run along d and a run against d is a
      two-sided run. */
  lemma JoinRuns(up: seq<(int, int)>, down: seq<(int, int)>, col: int, row: int, d: (int, int))
    requires UnitDirection(d.0, d.1)
    requires OnRay(up, col + d.0, row + d.1, d.0, d.1)
    requires OnRay(down, col - d.0, row - d.1, -d.0, -d.1)
    ensures TwoSidedRun([(col, row)] + up + down, col, row, d, |up|)
  {
    var ps := [(col, row)] + up + down;
    var a := |up|;
    forall i | 1 <= i <= a ensures ps[i] == Step(col, row, d.0, d.1, i) {
      assert ps[i] == up[i - 1];
      StepForward(col, row, d.0, d.1, i - 1);
    }
    forall i | a < i < |ps| ensures ps[i] == Step(col, row, d.0, d.1, a - i) {
      assert ps[i] == down[i - 1 - a];
      StepBack(col, row, d.0, d.1, i - 1 - a);
    }
  }

  /** Every listed cell is on the board and holds `player`. */
  predicate AllHold(board: Board, ps: seq<(int, int)>, player: int)
    requires WellFormed(board)
  {
    forall i :: 0 <= i < |ps| ==> InBounds(ps[i].0, ps[i].1) && board[ps[i].0][ps[i].1] == Some(player)
  }

  lemma AllHoldJoin(board: Board, xs: seq<(int, int)>, ys: seq<(int, int)>, player: int)
    requires WellFormed(board) && AllHold(board, xs, player) && AllHold(board, ys, player)
    ensures AllHold(board, xs + ys, player)
  {
    forall i | 0 <= i < |xs + ys|
      ensures InBounds((xs + ys)[i].0, (xs + ys)[i].1) && board[(xs + ys)[i].0][(xs + ys)[i].1] == Some(player)
    {
      if i >= |xs| {
        assert (xs + ys)[i] == ys[i - |xs|];
      }
    }
  }

  /** The positions list of one direction is a two-sided run through
      (col, row) ... */
  lemma LineThroughIsRun(board: Board, col: int, row: int, d: (int, int), player: int)
    requires WellFormed(board) && UnitDirection(d.0, d.1)
    ensures TwoSidedRun(LineThrough(board, col, row, d, player), col, row, d,
                        |Walk(board, col + d.0, row + d.1, d.0, d.1, player)|)
  {
    var up := Walk(board, col + d.0, row + d.1, d.0, d.1, player);
    var down := Walk(board, col - d.0, row - d.1, -d.0, -d.1, player);
    assert LineThrough(board, col, row, d, player) == [(col, row)] + up + down;
    WalkOnRay(board, col + d.0, row + d.1, d.0, d.1, player);
    WalkOnRay(board, col - d.0, row - d.1, -d.0, -d.1, player);
    JoinRuns(up, down, col, row, d);
  }

  /** ... of the player's chips. */
  lemma LineThroughHolds(board: Board, col: int, row: int, d: (int, int), player: int)
    requires WellFormed(board) && UnitDirection(d.0, d.1)
    requires InBounds(col, row) && board[col][row] == Some(player)
    ensures AllHold(board, LineThrough(board, col, row, d, player), player)
  {
    var up := Walk(board, col + d.0, row + d.1, d.0, d.1, player);
    var down := Walk(board, col - d.0, row - d.1, -d.0, -d.1, player);
    WalkHolds(board, col + d.0, row + d.1, d.0, d.1, player);
    WalkHolds(board, col - d.0, row - d.1, -d.0, -d.1, player);
    var start := [(col, row)];
    assert AllHold(board, start, player);
    AllHoldJoin(board, start, up, player);
    AllHoldJoin(board, start + up, down, player);
    assert LineThrough(board, col, row, d, player) == start + up + down;
  }

  /** A reported win starts at (col, row), lists only the player's chips,
      lies on one line through (col, row) as two contiguous runs on either
      side of it, and has at least four cells. */
  lemma WinnerShape(board: Board, col: int, row: int, player: int)
    requires WellFormed(board)
    requires Winner(board, col, row, player).Ok? && Winner(board, col, row, player).value.Some?
    ensures var ps := Winner(board, col, row, player).value.value;
      && |ps| >= 4 && ps[0] == (col, row)
      && AllHold(board, ps, player)
      && exists j, a :: 0 <= j < |Directions| && TwoSidedRun(ps, col, row, Directions[j], a)
  {
    var ps := Winner(board, col, row, player).value.value;
    assert ps == WinnerFrom(board, col, row, player, 0).value;
    WinnerFromLine(board, col, row, player, 0);
    var j :| 0 <= j < |Directions| && ps == LineThrough(board, col, row, Directions[j], player) && |ps| >= 4;
    var d := Directions[j];
    DirectionIsUnit(j);
    LineThroughIsRun(board, col, row, d, player);
    LineThroughHolds(board, col, row, d, player);
    var a := |Walk(board, col + d.0, row + d.1, d.0, d.1, player)|;
    assert TwoSidedRun(ps, col, row, d, a);
  }

  /** CheckForWinner finds nothing exactly when (col, row) holds another
      value or no direction has a run of four or more through it. */
  lemma WinnerNoneIff(board: Board, col: int, row: int, player: int)
    requires WellFormed(board) && InBounds(col, row)
    ensures Winner(board, col, row, player) == Ok(None) <==>
      board[col][row] != Some(player) ||
      forall j :: 0 <= j < |Directions| ==> RunLength(board, col, row, Directions[j], player) < 4
  {
    WinnerFromSome(board, col, row, player, 0);
  }
}
