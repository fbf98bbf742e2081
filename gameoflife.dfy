/** Conway's Game of Life of app/gameoflife.py: a GameOfLife object holds a
    board of booleans indexed board[y][x] (True is alive), its width and
    height, and a generation counter. One update builds a fresh board from
    the old one and then replaces it. */
module GameOfLife {

  type Board = seq<seq<bool>>

  /** The length of range(n). */
  function Dim(n: int): (r: nat)
    ensures n >= 0 ==> r == n
    ensures n < 0 ==> r == 0
  {
    if n < 0 then 0 else n
  }

  /** The board has range(height) rows of range(width) cells each. */
  predicate Shaped(b: Board, width: int, height: int)
  {
    |b| == Dim(height) && forall y :: 0 <= y < |b| ==> |b[y]| == Dim(width)
  }

  /** 1 when (x, y) is on the board and alive; cells off the board are dead. */
  function Live(b: Board, width: int, height: int, x: int, y: int): nat
    requires Shaped(b, width, height)
  {
    if 0 <= x < width && 0 <= y < height && b[y][x] then 1 else 0
  }

  /** The live cells among the eight around (x, y), the cell itself left out. */
  function Neighbors(b: Board, width: int, height: int, x: int, y: int): (n: nat)
    requires Shaped(b, width, height)
    ensures n <= 8
  {
    Live(b, width, height, x - 1, y - 1) + Live(b, width, height, x - 1, y) + Live(b, width, height, x - 1, y + 1)
    + Live(b, width, height, x, y - 1) + Live(b, width, height, x, y + 1)
    + Live(b, width, height, x + 1, y - 1) + Live(b, width, height, x + 1, y) + Live(b, width, height, x + 1, y + 1)
  }

  /** Conway's rule for one cell: a live cell survives with two or three
      live neighbours, a dead one is born with exactly three. */
  predicate NextAlive(alive: bool, neighbors: int)
  {
    if alive then neighbors == 2 || neighbors == 3 else neighbors == 3
  }

  /** Row y of the next generation, every cell judged on the old board. */
  function StepRow(b: Board, width: int, height: int, y: int): (row: seq<bool>)
    requires Shaped(b, width, height) && 0 <= y < height
    ensures |row| == Dim(width)
    ensures forall x :: 0 <= x < |row| ==> (row[x] <==> NextAlive(b[y][x], Neighbors(b, width, height, x, y)))
  {
    seq(Dim(width), x requires 0 <= x < Dim(width) => NextAlive(b[y][x], Neighbors(b, width, height, x, y)))
  }

  /** The next generation. */
  function Step(b: Board, width: int, height: int): (r: Board)
    requires Shaped(b, width, height)
    ensures Shaped(r, width, height)
  {
    seq(Dim(height), y requires 0 <= y < Dim(height) => StepRow(b, width, height, y))
  }

  /** The number of live cells in a row. */
  function RowPopulation(row: seq<bool>): (n: nat)
    ensures n <= |row|
  {
    if row == [] then 0 else RowPopulation(row[..|row| - 1]) + (if row[|row| - 1] then 1 else 0)
  }

  /** sum(sum(row) for row in board) */
  function Population(b: Board): nat
  {
    if b == [] then 0 else Population(b[..|b| - 1]) + RowPopulation(b[|b| - 1])
  }

  predicate AllDead(b: Board)
  {
    forall y, x :: 0 <= y < |b| && 0 <= x < |b[y]| ==> !b[y][x]
  }

  class Life {
    var width: int
    var height: int
    var board: Board
    var generation: int

    predicate Valid()
      reads this
    {
      Shaped(board, width, height)
    }

    /** __init__; the random initial cells are given as `cells`. */
    constructor(width: int, height: int, cells: Board)
      requires Shaped(cells, width, height)
      ensures Valid()
      ensures this.width == width && this.height == height && board == cells && generation == 0
    {
      this.width := width;
      this.height := height;
      board := cells;
      generation := 0;
    }

    /** _count_neighbors: two loops over the offsets -1, 0, 1 that skip
        (0, 0) and count the live cells on the board. */
    method CountNeighbors(x: int, y: int) returns (count: int)
      requires Valid()
      ensures count == Neighbors(board, width, height, x, y)
    {
      var b, w, h := board, width, height;
      count := 0;
      var dx := -1;
      while dx <= 1
        invariant -1 <= dx <= 2
        invariant count == Visited(b, w, h, x, y, dx)
      {
        var dy := -1;
        while dy <= 1
          invariant -1 <= dy <= 2
          invariant count == Visited(b, w, h, x, y, dx) + ColumnCount(b, w, h, x, y, dx, dy)
        {
          if !(dx == 0 && dy == 0) {
            var nx := x + dx;
            var ny := y + dy;
            if 0 <= nx < w && 0 <= ny < h {
              if b[ny][nx] {
                count := count + 1;
              }
            }
          }
          dy := dy + 1;
        }
        dx := dx + 1;
      }
      VisitedAll(board, width, height, x, y);
    }

    /** update, on the board and the generation counter. */
    method Update()
      requires Valid()
      modifies this
      ensures Valid()
      ensures width == old(width) && height == old(height)
      ensures board == Step(old(board), width, height)
      ensures generation == old(generation) + 1
    {
      var next := Blank(width, height);
      var y := 0;
      while y < height
        invariant unchanged(this)
        invariant 0 <= y <= Dim(height)
        invariant Shaped(next, width, height)
        invariant forall r :: 0 <= r < y ==> next[r] == StepRow(board, width, height, r)
      {
        var row := NextRow(y);
        next := next[y := row];
        y := y + 1;
      }
      assert next == Step(board, width, height);
      board := next;
      generation := generation + 1;
    }

    /** The inner loop of update: row y of new_board starts all False and
        each cell is set to True when the rule says it lives. */
    method NextRow(y: int) returns (row: seq<bool>)
      requires Valid() && 0 <= y < height
      ensures row == StepRow(board, width, height, y)
    {
      row := seq(Dim(width), _ => false);
      var x := 0;
      while x < width
        invariant 0 <= x <= Dim(width) && |row| == Dim(width)
        invariant forall i :: 0 <= i < x ==> (row[i] <==> NextAlive(board[y][i], Neighbors(board, width, height, i, y)))
        invariant forall i :: x <= i < |row| ==> !row[i]
      {
        var neighbors := CountNeighbors(x, y);
        var isAlive := board[y][x];
        if isAlive {
          if neighbors == 2 || neighbors == 3 {
            row := row[x := true];
          }
        } else {
          if neighbors == 3 {
            row := row[x := true];
          }
        }
        x := x + 1;
      }
    }

    /** count_population */
    method CountPopulation() returns (total: int)
      requires Valid()
      ensures total == Population(board)
    {
      total := 0;
      var y := 0;
      while y < |board|
        invariant 0 <= y <= |board|
        invariant total == Population(board[..y])
      {
        var row := board[y];
        var sum := 0;
        var x := 0;
        while x < |row|
          invariant 0 <= x <= |row|
          invariant sum == RowPopulation(row[..x])
        {
          if row[x] {
            sum := sum + 1;
          }
          assert row[..x + 1][..x] == row[..x];
          x := x + 1;
        }
        assert row[..x] == row;
        assert board[..y + 1][..y] == board[..y];
        total := total + sum;
        y := y + 1;
      }
      assert board[..y] == board;
    }
  }

  /** [[False for _ in range(width)] for _ in range(height)] */
  function Blank(width: int, height: int): (b: Board)
    ensures Shaped(b, width, height) && AllDead(b)
  {
    seq(Dim(height), _ => seq(Dim(width), _ => false))
  }

  /** The live cells the inner loop of _count_neighbors has counted in
      column x + dx once dy has reached `upto`; the centre is skipped. */
  function ColumnCount(b: Board, width: int, height: int, x: int, y: int, dx: int, upto: int): nat
    requires Shaped(b, width, height)
    decreases upto + 1
  {
    if upto <= -1 then 0
    else
      var dy := upto - 1;
      ColumnCount(b, width, height, x, y, dx, dy) + (if dx == 0 && dy == 0 then 0 else Live(b, width, height, x + dx, y + dy))
  }

  /** The count once the outer loop of _count_neighbors has reached `upto`. */
  function Visited(b: Board, width: int, height: int, x: int, y: int, upto: int): nat
    requires Shaped(b, width, height)
    decreases upto + 1
  {
    if upto <= -1 then 0
    else Visited(b, width, height, x, y, upto - 1) + ColumnCount(b, width, height, x, y, upto - 1, 2)
  }

  /** The three columns of offsets give the eight neighbours. */
  lemma VisitedAll(b: Board, width: int, height: int, x: int, y: int)
    requires Shaped(b, width, height)
    ensures Visited(b, width, height, x, y, 2) == Neighbors(b, width, height, x, y)
  {
    assert ColumnCount(b, width, height, x, y, -1, 2) ==
      Live(b, width, height, x - 1, y - 1) + Live(b, width, height, x - 1, y) + Live(b, width, height, x - 1, y + 1);
    assert ColumnCount(b, width, height, x, y, 0, 2) ==
      Live(b, width, height, x, y - 1) + Live(b, width, height, x, y + 1);
    assert ColumnCount(b, width, height, x, y, 1, 2) ==
      Live(b, width, height, x + 1, y - 1) + Live(b, width, height, x + 1, y) + Live(b, width, height, x + 1, y + 1);
  }
}

module GameOfLifeFacts {
  import opened GameOfLife

  /** An all-dead board stays all dead: no cell has a live neighbour, so
      nothing is born. */
  lemma AllDeadStaysDead(b: Board, width: int, height: int)
    requires Shaped(b, width, height) && AllDead(b)
    ensures AllDead(Step(b, width, height))
  {
    forall y, x | 0 <= y < Dim(height) && 0 <= x < Dim(width)
      ensures !Step(b, width, height)[y][x]
    {
      assert Neighbors(b, width, height, x, y) == 0;
    }
  }

  /** count_population is zero exactly on an all-dead board. */
  lemma {:induction false} PopulationZeroIff(b: Board)
    ensures Population(b) == 0 <==> AllDead(b)
  {
    if b != [] {
      var init, last := b[..|b| - 1], b[|b| - 1];
      PopulationZeroIff(init);
      RowPopulationZeroIff(last);
      assert forall y :: 0 <= y < |init| ==> init[y] == b[y];
    }
  }

  lemma {:induction false} RowPopulationZeroIff(row: seq<bool>)
    ensures RowPopulation(row) == 0 <==> forall x :: 0 <= x < |row| ==> !row[x]
  {
    if row != [] {
      var init := row[..|row| - 1];
      RowPopulationZeroIff(init);
      assert forall x :: 0 <= x < |init| ==> init[x] == row[x];
    }
  }

  /** count_population never exceeds width * height. */
  lemma {:induction false} PopulationBound(b: Board, width: int, height: int)
    requires Shaped(b, width, height)
    ensures Population(b) <= Dim(width) * Dim(height)
  {
    if b != [] {
      var init := b[..|b| - 1];
      assert Shaped(init, width, height - 1);
      PopulationBound(init, width, height - 1);
    }
  }

  /** The cell itself is not one of its neighbours: changing it leaves the
      count unchanged. */
  lemma NeighborsIgnoreSelf(b: Board, width: int, height: int, x: int, y: int, v: bool)
    requires Shaped(b, width, height) && 0 <= x < width && 0 <= y < height
    ensures Shaped(b[y := b[y][x := v]], width, height)
    ensures Neighbors(b[y := b[y][x := v]], width, height, x, y) == Neighbors(b, width, height, x, y)
  {
    LiveElsewhere(b, width, height, x, y, v);
  }

  /** Only the 3 x 3 window around (x, y) counts: changing a cell outside
      it leaves the count unchanged. */
  lemma NeighborsLocal(b: Board, width: int, height: int, x: int, y: int, cx: int, cy: int, v: bool)
    requires Shaped(b, width, height) && 0 <= cx < width && 0 <= cy < height
    requires cx < x - 1 || cx > x + 1 || cy < y - 1 || cy > y + 1
    ensures Shaped(b[cy := b[cy][cx := v]], width, height)
    ensures Neighbors(b[cy := b[cy][cx := v]], width, height, x, y) == Neighbors(b, width, height, x, y)
  {
    LiveElsewhere(b, width, height, cx, cy, v);
  }

  /** Changing cell (cx, cy) changes no other cell's liveness. */
  lemma LiveElsewhere(b: Board, width: int, height: int, cx: int, cy: int, v: bool)
    requires Shaped(b, width, height) && 0 <= cx < width && 0 <= cy < height
    ensures Shaped(b[cy := b[cy][cx := v]], width, height)
    ensures forall px, py :: (px, py) != (cx, cy) ==>
      Live(b[cy := b[cy][cx := v]], width, height, px, py) == Live(b, width, height, px, py)
  {
    var b' := b[cy := b[cy][cx := v]];
    assert Shaped(b', width, height);
  }
}
