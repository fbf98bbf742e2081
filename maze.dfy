/** Maze generation of app/maze.py: recursive backtracking over a grid of
    walls indexed maze[y][x] (True is a wall), carving two cells at a time
    from (1, 1). The grid is a field of a MazeGrid object that the carving
    changes in place; ghost fields record the carving tree (the cell each
    cell was carved from and the order of carving) and the cells whose four
    directions have all been tried. */
module Maze {
  import opened Wrappers

  type Grid = seq<seq<bool>>

  type Pos = (int, int)

  /** The cell the carving starts from, (x, y) = (1, 1). */
  const Start: Pos := (1, 1)

  /** The four carving steps of carve_passages, before shuffling. */
  const Steps: seq<Pos> := [(0, -2), (0, 2), (-2, 0), (2, 0)]

  /** Some order of the four carving steps (random.shuffle). */
  predicate Shuffled(d: seq<Pos>)
  {
    multiset(d) == multiset(Steps)
  }

  predicate Shaped(m: Grid, width: int, height: int)
  {
    |m| == height && forall y :: 0 <= y < height ==> |m[y]| == width
  }

  predicate InGrid(m: Grid, x: int, y: int)
  {
    0 <= y < |m| && 0 <= x < |m[y]|
  }

  /** A path cell: on the grid and not a wall. */
  predicate IsOpen(m: Grid, x: int, y: int)
  {
    InGrid(m, x, y) && !m[y][x]
  }

  predicate Adjacent(a: Pos, b: Pos)
  {
    || (a.0 == b.0 && (a.1 - b.1 == 1 || b.1 - a.1 == 1))
    || (a.1 == b.1 && (a.0 - b.0 == 1 || b.0 - a.0 == 1))
  }

  /** A walk from `from` to `to` through open cells, one unit step at a time. */
  predicate IsPath(m: Grid, path: seq<Pos>, from: Pos, to: Pos)
  {
    && |path| >= 1 && path[0] == from && path[|path| - 1] == to
    && (forall i :: 0 <= i < |path| ==> IsOpen(m, path[i].0, path[i].1))
    && (forall i :: 0 <= i < |path| - 1 ==> Adjacent(path[i], path[i + 1]))
  }

  /** Every cell ever cleared is open and still open later: cells are only
      carved, never walled up again. */
  ghost predicate Opens(before: Grid, after: Grid)
  {
    && |after| == |before|
    && (forall y :: 0 <= y < |before| ==> |after[y]| == |before[y]|)
    && (forall x, y :: IsOpen(before, x, y) ==> IsOpen(after, x, y))
  }

  /** The step (d.0, d.1) from (x, y) leads off the grid or to an open cell. */
  predicate StepDone(m: Grid, x: int, y: int, d: Pos)
  {
    !InGrid(m, x + d.0, y + d.1) || IsOpen(m, x + d.0, y + d.1)
  }

  /** All four carving steps from (x, y) lead off the grid or to open cells. */
  predicate Settled(m: Grid, x: int, y: int)
  {
    forall d :: d in Steps ==> StepDone(m, x, y, d)
  }

  predicate Odd(x: int)
  {
    x % 2 == 1
  }

  /** Where open cells can be: never in row or column 0, at least one odd
      coordinate, and an even coordinate is followed by one more on the grid. */
  ghost predicate Interior(m: Grid, width: int, height: int)
  {
    forall x, y :: IsOpen(m, x, y) ==>
      && 1 <= x && 1 <= y && (Odd(x) || Odd(y))
      && (!Odd(x) ==> x + 1 < width) && (!Odd(y) ==> y + 1 < height)
  }

  /** The carving tree: the ranked cells are exactly the open cells, and
      every one of them but the start was carved from an adjacent open cell
      of smaller rank. A link is only followed where a proof names it. */
  ghost predicate Tree(m: Grid, rank: map<Pos, nat>, parent: map<Pos, Pos>)
  {
    && (forall p {:trigger p in rank} :: p in rank <==> IsOpen(m, p.0, p.1))
    && (forall p {:trigger Linked(m, rank, parent, p)} :: p in rank && p != Start ==> Linked(m, rank, parent, p))
  }

  /** p was carved from its parent: an adjacent open cell of smaller rank. */
  ghost predicate Linked(m: Grid, rank: map<Pos, nat>, parent: map<Pos, Pos>, p: Pos)
  {
    && p in rank && p in parent
    && var q := parent[p];
    && q in rank && IsOpen(m, q.0, q.1) && Adjacent(q, p) && rank[q] < rank[p]
  }

  /** Every finished cell is open and settled. */
  ghost predicate DoneSettled(m: Grid, done: set<Pos>)
  {
    forall p :: p in done ==> IsOpen(m, p.0, p.1) && Settled(m, p.0, p.1)
  }

  /** The number of walls in a row. */
  function RowWalls(row: seq<bool>): (n: nat)
    ensures n <= |row|
  {
    if row == [] then 0 else RowWalls(row[..|row| - 1]) + (if row[|row| - 1] then 1 else 0)
  }

  /** The number of walls on the grid: the measure carving decreases. */
  function WallCount(m: Grid): nat
  {
    if m == [] then 0 else WallCount(m[..|m| - 1]) + RowWalls(m[|m| - 1])
  }

  /** maze[y][x] = False */
  function Clear(m: Grid, x: int, y: int): (r: Grid)
    requires InGrid(m, x, y)
    ensures |r| == |m| && forall k :: 0 <= k < |m| ==> |r[k]| == |m[k]|
  {
    m[y := m[y][x := false]]
  }

  /** Clearing (x, y) keeps the grid and opens exactly (x, y) besides the
      cells open before. */
  lemma ClearOpen(m: Grid, x: int, y: int)
    requires InGrid(m, x, y)
    ensures forall a, b {:trigger InGrid(Clear(m, x, y), a, b)} :: InGrid(Clear(m, x, y), a, b) <==> InGrid(m, a, b)
    ensures forall a, b {:trigger IsOpen(Clear(m, x, y), a, b)} :: IsOpen(Clear(m, x, y), a, b) <==> IsOpen(m, a, b) || (a, b) == (x, y)
  {
  }

  /** Clearing a wall removes exactly one wall; clearing a path cell none. */
  lemma ClearCount(m: Grid, x: int, y: int)
    requires InGrid(m, x, y)
    ensures WallCount(Clear(m, x, y)) == WallCount(m) - (if m[y][x] then 1 else 0)
  {
    RowWallsClear(m[y], x);
    WallCountRow(m, y, m[y][x := false]);
  }

  lemma {:induction false} RowWallsClear(row: seq<bool>, x: int)
    requires 0 <= x < |row|
    ensures RowWalls(row[x := false]) == RowWalls(row) - (if row[x] then 1 else 0)
  {
    var n := |row| - 1;
    if x < n {
      RowWallsClear(row[..n], x);
      assert row[x := false][..n] == row[..n][x := false];
    } else {
      assert row[x := false][..n] == row[..n];
    }
  }

  lemma {:induction false} WallCountRow(m: Grid, y: int, r: seq<bool>)
    requires 0 <= y < |m|
    ensures WallCount(m[y := r]) == WallCount(m) - RowWalls(m[y]) + RowWalls(r)
  {
    var n := |m| - 1;
    if y < n {
      WallCountRow(m[..n], y, r);
      assert m[y := r][..n] == m[..n][y := r];
    } else {
      assert m[y := r][..n] == m[..n];
    }
  }

  /** The path to the start that follows the carving tree. */
  lemma {:induction false} PathToStart(m: Grid, rank: map<Pos, nat>, parent: map<Pos, Pos>, p: Pos) returns (path: seq<Pos>)
    requires Tree(m, rank, parent) && IsOpen(m, p.0, p.1) && IsOpen(m, 1, 1)
    ensures IsPath(m, path, Start, p)
    decreases if p in rank then rank[p] else 0
  {
    if p == Start {
      path := [Start];
    } else {
      assert Linked(m, rank, parent, p);
      var q := parent[p];
      var init := PathToStart(m, rank, parent, q);
      path := init + [p];
      assert forall i :: 0 <= i < |init| ==> path[i] == init[i];
    }
  }

  /** Every odd cell opened between `before` and `after` is finished. */
  ghost predicate NewOddDone(before: Grid, after: Grid, done: set<Pos>)
  {
    forall a, b :: IsOpen(after, a, b) && Odd(a) && Odd(b) && !IsOpen(before, a, b) ==> (a, b) in done
  }

  /** The whole invariant of a MazeGrid, on its values. */
  ghost predicate Inv(width: int, height: int, m: Grid, rank: map<Pos, nat>, parent: map<Pos, Pos>, next: nat, done: set<Pos>)
  {
    && width >= 2 && height >= 2
    && Shaped(m, width, height) && IsOpen(m, 1, 1)
    && Interior(m, width, height)
    && Tree(m, rank, parent) && (forall p :: p in rank ==> rank[p] < next)
    && DoneSettled(m, done)
  }

  lemma ClearShaped(m: Grid, width: int, height: int, x: int, y: int)
    requires Shaped(m, width, height) && InGrid(m, x, y)
    ensures Shaped(Clear(m, x, y), width, height)
  {
  }

  lemma ClearOpens(m: Grid, x: int, y: int)
    requires InGrid(m, x, y)
    ensures Opens(m, Clear(m, x, y))
  {
  }

  lemma OpensTrans(a: Grid, b: Grid, c: Grid)
    requires Opens(a, b) && Opens(b, c)
    ensures Opens(a, c)
  {
  }

  /** Opening cells never unsettles a settled cell. */
  lemma DoneKept(m: Grid, m': Grid, done: set<Pos>)
    requires Opens(m, m') && DoneSettled(m, done)
    ensures DoneSettled(m', done)
  {
    forall p | p in done
      ensures IsOpen(m', p.0, p.1) && Settled(m', p.0, p.1)
    {
      forall d | d in Steps
        ensures StepDone(m', p.0, p.1, d)
      {
        assert StepDone(m, p.0, p.1, d);
      }
    }
  }

  /** Opening a wall p next to an open cell q, with a rank above all others,
      grows the carving tree by one edge. */
  lemma TreeGrow(m: Grid, rank: map<Pos, nat>, parent: map<Pos, Pos>, px: int, py: int, q: Pos, r: nat)
    requires Tree(m, rank, parent) && InGrid(m, px, py) && m[py][px]
    requires IsOpen(m, q.0, q.1) && Adjacent(q, (px, py))
    requires forall k :: k in rank ==> rank[k] < r
    ensures Tree(Clear(m, px, py), rank[(px, py) := r], parent[(px, py) := q])
  {
    var m', rank', parent' := Clear(m, px, py), rank[(px, py) := r], parent[(px, py) := q];
    assert q in rank;
    forall c | c in rank' && c != Start
      ensures Linked(m', rank', parent', c)
    {
      if c != (px, py) {
        assert Linked(m, rank, parent, c);
      }
    }
  }

  /** A unit step: one of the four directions. */
  predicate Unit(hx: int, hy: int)
  {
    (hx == 0 && (hy == 1 || hy == -1)) || (hy == 0 && (hx == 1 || hx == -1))
  }

  /** Each carving step is twice a unit step, so dx // 2 is exact. */
  lemma StepsHalve(dx: int, dy: int)
    requires (dx, dy) in Steps
    ensures Unit(dx / 2, dy / 2) && dx == 2 * (dx / 2) && dy == 2 * (dy / 2)
  {
  }

  /** The two writes of a carving step (dx, dy) from (x, y): the cell it
      reaches, then the cell in between, at offset dx // 2, which is exact
      for the steps -2, 0, 2. */
  function Carved(m: Grid, x: int, y: int, dx: int, dy: int): (r: Grid)
    requires (dx, dy) in Steps && InGrid(m, x + dx, y + dy) && InGrid(m, x + dx / 2, y + dy / 2)
    ensures |r| == |m| && forall k :: 0 <= k < |m| ==> |r[k]| == |m[k]|
  {
    StepsHalve(dx, dy);
    Clear(Clear(m, x + dx, y + dy), x + dx / 2, y + dy / 2)
  }

  /** Opening an odd cell keeps the open cells where they may be. */
  lemma InteriorClear(m: Grid, width: int, height: int, x: int, y: int)
    requires Shaped(m, width, height) && Interior(m, width, height)
    requires InGrid(m, x, y) && Odd(x) && Odd(y)
    ensures Interior(Clear(m, x, y), width, height)
  {
    ClearOpen(m, x, y);
    forall a, b | IsOpen(Clear(m, x, y), a, b)
      ensures 1 <= a && 1 <= b && (Odd(a) || Odd(b))
      ensures (!Odd(a) ==> a + 1 < width) && (!Odd(b) ==> b + 1 < height)
    {
      if (a, b) != (x, y) {
        assert IsOpen(m, a, b);
      }
    }
  }

  /** The two cells a carving step clears keep the open cells where they may be. */
  lemma InteriorStep(m: Grid, width: int, height: int, x: int, y: int, hx: int, hy: int, nx: int, ny: int, mx: int, my: int)
    requires Shaped(m, width, height) && Interior(m, width, height) && Unit(hx, hy)
    requires nx == x + 2 * hx && ny == y + 2 * hy && mx == x + hx && my == y + hy
    requires InGrid(m, x, y) && Odd(x) && Odd(y) && InGrid(m, nx, ny)
    ensures InGrid(m, mx, my)
    ensures Interior(Clear(Clear(m, nx, ny), mx, my), width, height)
  {
    var m1 := Clear(m, nx, ny);
    InteriorClear(m, width, height, nx, ny);
    var m' := Clear(m1, mx, my);
    forall a, b | IsOpen(m', a, b)
      ensures 1 <= a && 1 <= b && (Odd(a) || Odd(b))
      ensures (!Odd(a) ==> a + 1 < width) && (!Odd(b) ==> b + 1 < height)
    {
      if (a, b) != (mx, my) {
        assert IsOpen(m1, a, b);
      } else if hx == 0 {
        assert a == x && Odd(a);
      } else {
        assert b == y && Odd(b);
      }
    }
  }

  /** The order of the two writes of a step does not matter. */
  lemma ClearCommutes(m: Grid, ax: int, ay: int, cx: int, cy: int)
    requires InGrid(m, ax, ay) && InGrid(m, cx, cy)
    ensures Clear(Clear(m, ax, ay), cx, cy) == Clear(Clear(m, cx, cy), ax, ay)
  {
    var l, r := Clear(Clear(m, ax, ay), cx, cy), Clear(Clear(m, cx, cy), ax, ay);
    assert forall k :: 0 <= k < |m| ==> l[k] == r[k];
  }

  lemma ClearOpenCell(m: Grid, x: int, y: int)
    requires IsOpen(m, x, y)
    ensures Clear(m, x, y) == m
  {
    assert m[y][x := false] == m[y];
  }

  /** A carving step grows the carving tree by the cell in between (if it
      was a wall) and then the cell reached; earlier ranks stay as they were. */
  lemma TreeStep(m: Grid, rank: map<Pos, nat>, parent: map<Pos, Pos>, next: nat, x: int, y: int, nx: int, ny: int, mx: int, my: int)
    returns (rank': map<Pos, nat>, parent': map<Pos, Pos>, next': nat)
    requires Tree(m, rank, parent) && (forall p :: p in rank ==> rank[p] < next)
    requires Adjacent((x, y), (mx, my)) && Adjacent((mx, my), (nx, ny)) && (mx, my) != (nx, ny)
    requires IsOpen(m, x, y) && InGrid(m, nx, ny) && m[ny][nx] && InGrid(m, mx, my)
    ensures Tree(Clear(Clear(m, nx, ny), mx, my), rank', parent')
    ensures forall p :: p in rank' ==> rank'[p] < next'
    ensures forall p :: p in rank ==> p in rank' && rank'[p] == rank[p]
  {
    if m[my][mx] {
      TreeGrow(m, rank, parent, mx, my, (x, y), next);
      var m2 := Clear(m, mx, my);
      TreeGrow(m2, rank[(mx, my) := next], parent[(mx, my) := (x, y)], nx, ny, (mx, my), next + 1);
      ClearCommutes(m, nx, ny, mx, my);
      rank', parent', next' := rank[(mx, my) := next][(nx, ny) := next + 1], parent[(mx, my) := (x, y)][(nx, ny) := (mx, my)], next + 2;
    } else {
      TreeGrow(m, rank, parent, nx, ny, (mx, my), next);
      ClearOpenCell(Clear(m, nx, ny), mx, my);
      rank', parent', next' := rank[(nx, ny) := next], parent[(nx, ny) := (mx, my)], next + 1;
    }
  }

  /** What a carving step does to the walls: the grid keeps its shape, no
      cell is walled up, and one or two walls go. */
  lemma CarvedWalls(width: int, height: int, m: Grid, x: int, y: int, dx: int, dy: int)
    requires Shaped(m, width, height) && (dx, dy) in Steps
    requires InGrid(m, x, y) && InGrid(m, x + dx, y + dy) && m[y + dy][x + dx]
    ensures InGrid(m, x + dx / 2, y + dy / 2)
    ensures var m' := Carved(m, x, y, dx, dy);
      Shaped(m', width, height) && Opens(m, m') && WallCount(m') < WallCount(m) && IsOpen(m', x + dx, y + dy)
  {
    StepsHalve(dx, dy);
    var nx, ny, mx, my := x + dx, y + dy, x + dx / 2, y + dy / 2;
    var m1 := Clear(m, nx, ny);
    var m' := Clear(m1, mx, my);
    assert m' == Carved(m, x, y, dx, dy);
    ClearCount(m, nx, ny);
    ClearCount(m1, mx, my);
    ClearShaped(m, width, height, nx, ny);
    ClearShaped(m1, width, height, mx, my);
    ClearOpens(m, nx, ny);
    ClearOpens(m1, mx, my);
    OpensTrans(m, m1, m');
  }

  /** Where a carving step opens cells: open cells keep where they may be,
      and the only new odd-odd cell is the one reached. */
  lemma CarvedPlaces(width: int, height: int, m: Grid, x: int, y: int, dx: int, dy: int)
    requires Shaped(m, width, height) && Interior(m, width, height) && (dx, dy) in Steps
    requires InGrid(m, x, y) && Odd(x) && Odd(y) && InGrid(m, x + dx, y + dy)
    ensures InGrid(m, x + dx / 2, y + dy / 2)
    ensures var m' := Carved(m, x, y, dx, dy);
      Interior(m', width, height) && NewOddDone(m, m', {(x + dx, y + dy)})
  {
    StepsHalve(dx, dy);
    var hx, hy := dx / 2, dy / 2;
    var nx, ny, mx, my := x + dx, y + dy, x + hx, y + hy;
    InteriorStep(m, width, height, x, y, hx, hy, nx, ny, mx, my);
    var m1 := Clear(m, nx, ny);
    var m' := Clear(m1, mx, my);
    assert m' == Carved(m, x, y, dx, dy);
    assert InGrid(m1, mx, my) by {
      ClearOpen(m, nx, ny);
    }
    assert !Odd(mx) || !Odd(my) by {
      if hx == 0 {
        OddNext(y, hy);
      } else {
        OddNext(x, hx);
      }
    }
    NewOddStep(m, m1, m', (nx, ny), (mx, my));
  }

  /** A carving step grows the carving tree; earlier ranks stay. */
  lemma CarvedTree(m: Grid, rank: map<Pos, nat>, parent: map<Pos, Pos>, next: nat, x: int, y: int, dx: int, dy: int)
    returns (rank': map<Pos, nat>, parent': map<Pos, Pos>, next': nat)
    requires Tree(m, rank, parent) && (forall p :: p in rank ==> rank[p] < next) && (dx, dy) in Steps
    requires IsOpen(m, x, y) && InGrid(m, x + dx, y + dy) && m[y + dy][x + dx] && InGrid(m, x + dx / 2, y + dy / 2)
    ensures Tree(Carved(m, x, y, dx, dy), rank', parent')
    ensures forall p :: p in rank' ==> rank'[p] < next'
    ensures forall p :: p in rank ==> p in rank' && rank'[p] == rank[p]
  {
    StepsHalve(dx, dy);
    var hx, hy := dx / 2, dy / 2;
    var nx, ny, mx, my := x + dx, y + dy, x + hx, y + hy;
    assert Clear(Clear(m, nx, ny), mx, my) == Carved(m, x, y, dx, dy);
    UnitAdjacent(x, y, hx, hy, nx, ny, mx, my);
    rank', parent', next' := TreeStep(m, rank, parent, next, x, y, nx, ny, mx, my);
  }

  /** A carving step keeps the invariant, and clears one or two walls. */
  lemma StepInv(width: int, height: int, m: Grid, rank: map<Pos, nat>, parent: map<Pos, Pos>, next: nat, done: set<Pos>,
                x: int, y: int, dx: int, dy: int)
    returns (rank': map<Pos, nat>, parent': map<Pos, Pos>, next': nat)
    requires Inv(width, height, m, rank, parent, next, done) && (dx, dy) in Steps
    requires IsOpen(m, x, y) && Odd(x) && Odd(y)
    requires InGrid(m, x + dx, y + dy) && m[y + dy][x + dx]
    ensures InGrid(m, x + dx / 2, y + dy / 2)
    ensures var m' := Carved(m, x, y, dx, dy);
      && Inv(width, height, m', rank', parent', next', done) && Opens(m, m') && NewOddDone(m, m', {(x + dx, y + dy)})
      && WallCount(m') < WallCount(m) && IsOpen(m', x + dx, y + dy)
    ensures forall p :: p in rank ==> p in rank' && rank'[p] == rank[p]
  {
    CarvedWalls(width, height, m, x, y, dx, dy);
    CarvedPlaces(width, height, m, x, y, dx, dy);
    var m' := Carved(m, x, y, dx, dy);
    DoneKept(m, m', done);
    rank', parent', next' := CarvedTree(m, rank, parent, next, x, y, dx, dy);
  }

  /** A unit step and a second one in the same direction pass through
      adjacent cells. */
  lemma UnitAdjacent(x: int, y: int, hx: int, hy: int, nx: int, ny: int, mx: int, my: int)
    requires Unit(hx, hy) && nx == x + 2 * hx && ny == y + 2 * hy && mx == x + hx && my == y + hy
    ensures Adjacent((x, y), (mx, my)) && Adjacent((mx, my), (nx, ny)) && (mx, my) != (nx, ny)
  {
  }

  /** The cell next to an odd one is even. */
  lemma OddNext(x: int, h: int)
    requires Odd(x) && (h == 1 || h == -1)
    ensures !Odd(x + h)
  {
  }

  /** Of the two cells a step opens only the one it reaches is odd-odd. */
  lemma NewOddStep(m: Grid, m1: Grid, m': Grid, n: Pos, mid: Pos)
    requires InGrid(m, n.0, n.1) && m1 == Clear(m, n.0, n.1)
    requires InGrid(m1, mid.0, mid.1) && m' == Clear(m1, mid.0, mid.1)
    requires !Odd(mid.0) || !Odd(mid.1)
    ensures NewOddDone(m, m', {n})
  {
  }

  class MazeGrid {
    var width: int
    var height: int
    var walls: Grid
    ghost var rank: map<Pos, nat>
    ghost var parent: map<Pos, Pos>
    ghost var next: nat
    ghost var done: set<Pos>

    ghost predicate Valid()
      reads this
    {
      Inv(width, height, walls, rank, parent, next, done)
    }

    /** The start of generate_maze: every cell a wall, then maze[1][1] = False.
        A grid narrower or lower than two cells has no maze[1][1]. */
    constructor(width: int, height: int)
      requires width >= 2 && height >= 2
      ensures Valid() && done == {}
      ensures this.width == width && this.height == height
      ensures walls == Clear(seq(height, _ => seq(width, _ => true)), 1, 1)
    {
      this.width := width;
      this.height := height;
      var all := seq(height, _ => seq(width, _ => true));
      walls := Clear(all, 1, 1);
      rank := map[Start := 0];
      parent := map[];
      next := 1;
      done := {};
    }

    /** The two writes of carve_passages for the step (dx, dy) from (x, y):
        maze[ny][nx] = False, then the cell between, whose offset dx // 2
        is exact for the steps -2, 0, 2. */
    method CarveStep(x: int, y: int, dx: int, dy: int)
      requires Valid() && IsOpen(walls, x, y) && Odd(x) && Odd(y) && (dx, dy) in Steps
      requires InGrid(walls, x + dx, y + dy) && walls[y + dy][x + dx]
      modifies this
      ensures Valid()
      ensures width == old(width) && height == old(height) && done == old(done)
      ensures walls == Carved(old(walls), x, y, dx, dy) && IsOpen(walls, x + dx, y + dy)
      ensures Opens(old(walls), walls) && NewOddDone(old(walls), walls, {(x + dx, y + dy)})
      ensures WallCount(walls) < WallCount(old(walls))
      ensures forall p :: p in old(rank) ==> p in rank && rank[p] == old(rank)[p]
    {
      rank, parent, next := StepInv(width, height, walls, rank, parent, next, done, x, y, dx, dy);
      walls := Carved(walls, x, y, dx, dy);
    }

    /** One pass of the loop of carve_passages: the step (dx, dy) from
        (x, y) is carved when it lands on a wall, and carving goes on from the
        cell it reaches. Either way the step is then done. */
    method TryStep(x: int, y: int, dx: int, dy: int)
      requires Valid() && IsOpen(walls, x, y) && Odd(x) && Odd(y) && (dx, dy) in Steps
      modifies this
      decreases WallCount(walls), 0
      ensures Valid() && width == old(width) && height == old(height)
      ensures Opens(old(walls), walls) && WallCount(walls) <= WallCount(old(walls))
      ensures old(done) <= done && NewOddDone(old(walls), walls, done)
      ensures StepDone(walls, x, y, (dx, dy))
      ensures forall p :: p in old(rank) ==> p in rank && rank[p] == old(rank)[p]
    {
      var nx, ny := x + dx, y + dy;
      if 0 <= nx < width && 0 <= ny < height && walls[ny][nx] {
        StepTargetOdd(x, y, dx, dy);
        ghost var w0 := walls;
        CarveStep(x, y, dx, dy);
        ghost var w1, d1 := walls, done;
        Carve(nx, ny);
        CarvedKeeps(w0, w1, walls, d1, done, nx, ny);
      } else {
        SkippedDone(walls, width, height, x, y, dx, dy);
        OpensRefl(walls);
      }
    }

    /** carve_passages(x, y): try the four steps in a shuffled order and carve
        each one that lands on a wall, recursing from the cell it reaches.
        Afterwards (x, y) is settled, and so is every odd cell it opened. */
    method Carve(x: int, y: int)
      requires Valid() && IsOpen(walls, x, y) && Odd(x) && Odd(y)
      modifies this
      decreases WallCount(walls), 1
      ensures Valid()
      ensures width == old(width) && height == old(height)
      ensures Opens(old(walls), walls) && WallCount(walls) <= WallCount(old(walls))
      ensures old(done) <= done && (x, y) in done
      ensures NewOddDone(old(walls), walls, done)
      ensures forall p :: p in old(rank) ==> p in rank && rank[p] == old(rank)[p]
    {
      assert Shuffled(Steps);
      var directions: seq<Pos> :| Shuffled(directions);
      OpensRefl(walls);
      var i := 0;
      while i < |directions|
        invariant 0 <= i <= |directions|
        invariant Valid() && width == old(width) && height == old(height) && IsOpen(walls, x, y)
        invariant Opens(old(walls), walls) && WallCount(walls) <= WallCount(old(walls))
        invariant old(done) <= done && NewOddDone(old(walls), walls, done)
        invariant forall p :: p in old(rank) ==> p in rank && rank[p] == old(rank)[p]
        invariant forall j :: 0 <= j < i ==> StepDone(walls, x, y, directions[j])
      {
        ShuffledStep(directions, i);
        ghost var w0, d0 := walls, done;
        TryStep(x, y, directions[i].0, directions[i].1);
        LoopKeeps(old(walls), w0, walls, old(done), d0, done, x, y, directions, i);
        i := i + 1;
      }
      SettledByLoop(walls, x, y, directions);
      done := done + {(x, y)};
    }
  }

  lemma OpensRefl(m: Grid)
    ensures Opens(m, m)
  {
  }

  /** Carving on from the cell a step reached keeps what the step did. */
  lemma CarvedKeeps(w0: Grid, w1: Grid, w2: Grid, d1: set<Pos>, d2: set<Pos>, nx: int, ny: int)
    requires Opens(w0, w1) && Opens(w1, w2) && d1 <= d2
    requires NewOddDone(w0, w1, {(nx, ny)}) && (nx, ny) in d2 && NewOddDone(w1, w2, d2)
    ensures Opens(w0, w2) && NewOddDone(w0, w2, d2)
  {
    OpensTrans(w0, w1, w2);
  }

  /** One pass of the loop keeps the loop's facts and settles one more step. */
  lemma LoopKeeps(w: Grid, w0: Grid, w1: Grid, d: set<Pos>, d0: set<Pos>, d1: set<Pos>,
                  x: int, y: int, directions: seq<Pos>, i: int)
    requires 0 <= i < |directions|
    requires Opens(w, w0) && Opens(w0, w1) && d <= d0 <= d1
    requires NewOddDone(w, w0, d0) && NewOddDone(w0, w1, d1)
    requires forall j :: 0 <= j < i ==> StepDone(w0, x, y, directions[j])
    requires StepDone(w1, x, y, (directions[i].0, directions[i].1))
    ensures Opens(w, w1) && NewOddDone(w, w1, d1)
    ensures forall j :: 0 <= j <= i ==> StepDone(w1, x, y, directions[j])
  {
    OpensTrans(w, w0, w1);
  }

  /** Every entry of a shuffled order is one of the four steps. */
  lemma ShuffledStep(d: seq<Pos>, i: int)
    requires Shuffled(d) && 0 <= i < |d|
    ensures d[i] in Steps
  {
    assert d[i] in multiset(d);
  }

  /** A carving step from an odd-odd cell reaches an odd-odd cell. */
  lemma StepTargetOdd(x: int, y: int, dx: int, dy: int)
    requires Odd(x) && Odd(y) && (dx, dy) in Steps
    ensures Odd(x + dx) && Odd(y + dy)
  {
  }

  /** A step that carve_passages skips leads off the grid or to an open cell. */
  lemma SkippedDone(m: Grid, width: int, height: int, x: int, y: int, dx: int, dy: int)
    requires Shaped(m, width, height)
    requires !(0 <= x + dx < width && 0 <= y + dy < height && m[y + dy][x + dx])
    ensures StepDone(m, x, y, (dx, dy))
  {
  }

  /** After the loop every carving step from (x, y) has been tried. */
  lemma SettledByLoop(m: Grid, x: int, y: int, directions: seq<Pos>)
    requires Shuffled(directions)
    requires forall j :: 0 <= j < |directions| ==> StepDone(m, x, y, directions[j])
    ensures Settled(m, x, y)
  {
    forall d | d in Steps
      ensures StepDone(m, x, y, d)
    {
      assert d in multiset(directions);
      var j :| 0 <= j < |directions| && directions[j] == d;
    }
  }

  /** Some walk through open cells leads from the start to (a, b). */
  ghost predicate Reachable(m: Grid, a: int, b: int)
  {
    exists path :: IsPath(m, path, Start, (a, b))
  }

  /** Every open cell can be reached from the start through open cells. */
  ghost predicate Connected(m: Grid)
  {
    forall a, b :: IsOpen(m, a, b) ==> Reachable(m, a, b)
  }

  /** Every cell with two odd coordinates is open. */
  predicate OddCellsOpen(m: Grid, width: int, height: int)
  {
    forall a, b :: 0 <= a < width && 0 <= b < height && Odd(a) && Odd(b) ==> IsOpen(m, a, b)
  }

  /** The outer rows and columns are all walls. */
  predicate WalledBorder(m: Grid, width: int, height: int)
  {
    && (forall k :: 0 <= k < height ==> !IsOpen(m, 0, k) && !IsOpen(m, width - 1, k))
    && (forall k :: 0 <= k < width ==> !IsOpen(m, k, 0) && !IsOpen(m, k, height - 1))
  }

  /** generate_maze(width, height): a height x width grid of walls, (1, 1)
      opened, then carving from (1, 1). A grid without a cell (1, 1) makes
      the write maze[1][1] raise IndexError. The result is connected, and
      with odd sides every odd-odd cell is open and the border stays walled,
      so that any odd-odd cell, such as (size - 2, size - 2), is reachable. */
  method GenerateMaze(width: int, height: int) returns (r: Result<Grid>)
    ensures r.Err? <==> width < 2 || height < 2
    ensures r.Err? ==> r.error == IndexError
    ensures r.Ok? ==> Shaped(r.value, width, height) && IsOpen(r.value, 1, 1) && Connected(r.value)
    ensures r.Ok? && Odd(width) && Odd(height) ==> OddCellsOpen(r.value, width, height) && WalledBorder(r.value, width, height)
  {
    if width < 2 || height < 2 {
      return Err(IndexError);
    }
    var g := new MazeGrid(width, height);
    ghost var m0 := g.walls;
    StartOnlyOpen(width, height);
    g.Carve(1, 1);
    var m := g.walls;
    TreeConnected(m, g.rank, g.parent);
    if Odd(width) && Odd(height) {
      OnlyStartBefore(m0, m, g.done);
      OddCellsAllOpen(m, width, height, g.done);
      BorderWalled(m, width, height);
    }
    r := Ok(m);
  }

  /** The grid before carving has (1, 1) as its only open cell. */
  lemma StartOnlyOpen(width: int, height: int)
    requires width >= 2 && height >= 2
    ensures var m := Clear(seq(height, _ => seq(width, _ => true)), 1, 1);
      forall a, b :: IsOpen(m, a, b) ==> (a, b) == Start
  {
  }

  /** If only the start was open before carving and the start is finished,
      every open odd-odd cell is finished. */
  lemma OnlyStartBefore(m0: Grid, m: Grid, done: set<Pos>)
    requires forall a, b :: IsOpen(m0, a, b) ==> (a, b) == Start
    requires NewOddDone(m0, m, done) && Start in done
    ensures forall a, b :: IsOpen(m, a, b) && Odd(a) && Odd(b) ==> (a, b) in done
  {
  }

  /** The carving tree gives every open cell a path to the start. */
  lemma TreeConnected(m: Grid, rank: map<Pos, nat>, parent: map<Pos, Pos>)
    requires Tree(m, rank, parent) && IsOpen(m, 1, 1)
    ensures Connected(m)
  {
    forall a, b | IsOpen(m, a, b)
      ensures Reachable(m, a, b)
    {
      var path := PathToStart(m, rank, parent, (a, b));
    }
  }

  /** With odd sides every odd-odd cell is open: it is two steps right of or
      below another odd-odd cell, which is open and finished, so that step
      was taken. */
  lemma OddCellsAllOpen(m: Grid, width: int, height: int, done: set<Pos>)
    requires Shaped(m, width, height) && Odd(width) && Odd(height) && DoneSettled(m, done) && Start in done
    requires forall a, b :: IsOpen(m, a, b) && Odd(a) && Odd(b) ==> (a, b) in done
    ensures OddCellsOpen(m, width, height)
  {
    forall a, b | 0 <= a < width && 0 <= b < height && Odd(a) && Odd(b)
      ensures IsOpen(m, a, b)
    {
      OddCellOpen(m, width, height, done, a, b);
    }
  }

  lemma {:induction false} OddCellOpen(m: Grid, width: int, height: int, done: set<Pos>, a: int, b: int)
    requires Shaped(m, width, height) && DoneSettled(m, done) && Start in done
    requires forall a, b :: IsOpen(m, a, b) && Odd(a) && Odd(b) ==> (a, b) in done
    requires 0 <= a < width && 0 <= b < height && Odd(a) && Odd(b)
    ensures IsOpen(m, a, b)
    decreases a + b
  {
    if a == 1 && b == 1 {
      assert Start in done;
    } else if a > 1 {
      OddCellOpen(m, width, height, done, a - 2, b);
      assert (a - 2, b) in done;
      assert StepDone(m, a - 2, b, (2, 0));
    } else {
      OddCellOpen(m, width, height, done, a, b - 2);
      assert (a, b - 2) in done;
      assert StepDone(m, a, b - 2, (0, 2));
    }
  }

  /** With odd sides the last row and column are even, and open cells never
      sit on row or column 0 nor on an even last row or column. */
  lemma BorderWalled(m: Grid, width: int, height: int)
    requires Interior(m, width, height) && Odd(width) && Odd(height)
    ensures WalledBorder(m, width, height)
  {
    assert !Odd(width - 1) && !Odd(height - 1);
  }
}
