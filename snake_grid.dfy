/** The playing field of the snake game: a width x height grid of cells
    (x, y) with a fixed set of obstacle cells, and the cell tests and
    neighbour generator every search and move rule is built from. */
module SnakeGrid {

  type Pos = (int, int)

  /** The fields width, height and obstacles of a SnakeGame; none of them
      changes after construction. */
  datatype Grid = Grid(width: int, height: int, obstacles: set<Pos>)

  function Abs(n: int): nat
  {
    if n < 0 then -n else n
  }

  function Manhattan(p: Pos, q: Pos): nat
  {
    Abs(p.0 - q.0) + Abs(p.1 - q.1)
  }

  /** p and q are one horizontal or vertical step apart. */
  predicate Adjacent(p: Pos, q: Pos)
  {
    Manhattan(p, q) == 1
  }

  predicate InGrid(grid: Grid, p: Pos)
  {
    0 <= p.0 < grid.width && 0 <= p.1 < grid.height
  }

  /** In bounds and not an obstacle. */
  predicate IsValidPosition(grid: Grid, p: Pos)
  {
    InGrid(grid, p) && p !in grid.obstacles
  }

  /** The four unit steps, in the order the neighbour generator tries them. */
  const Offsets: seq<Pos> := [(0, 1), (0, -1), (1, 0), (-1, 0)]

  function Shift(p: Pos, d: Pos): Pos
  {
    (p.0 + d.0, p.1 + d.1)
  }

  /** [q] when q is a valid cell, [] otherwise. */
  function KeepValid(grid: Grid, q: Pos): seq<Pos>
  {
    if IsValidPosition(grid, q) then [q] else []
  }

  /** The valid neighbours of p: the four shifted cells, in Offsets order,
      each kept when it is valid. */
  function GetNeighbors(grid: Grid, p: Pos): (r: seq<Pos>)
    ensures |r| <= |Offsets|
  {
    KeepValid(grid, Shift(p, Offsets[0])) + KeepValid(grid, Shift(p, Offsets[1]))
      + KeepValid(grid, Shift(p, Offsets[2])) + KeepValid(grid, Shift(p, Offsets[3]))
  }

  /** Index into Offsets of the step from p to an adjacent q. */
  function OffsetIndex(p: Pos, q: Pos): int
  {
    if q == Shift(p, Offsets[0]) then 0
    else if q == Shift(p, Offsets[1]) then 1
    else if q == Shift(p, Offsets[2]) then 2
    else 3
  }

  lemma AdjacentIsShift(p: Pos, q: Pos)
    ensures Adjacent(p, q) <==> exists j :: 0 <= j < |Offsets| && q == Shift(p, Offsets[j])
  {
    if Adjacent(p, q) {
      var j := OffsetIndex(p, q);
      assert q == Shift(p, Offsets[j]);
    } else {
      forall j | 0 <= j < |Offsets| ensures q != Shift(p, Offsets[j]) {
        assert Adjacent(p, Shift(p, Offsets[j]));
      }
    }
  }

  lemma OffsetIndexOfShift(p: Pos, j: int)
    requires 0 <= j < |Offsets|
    ensures OffsetIndex(p, Shift(p, Offsets[j])) == j
  {
  }

  /** GetNeighbors lists exactly the valid cells one step from p, each once,
      in the order (0, 1), (0, -1), (1, 0), (-1, 0). */
  lemma GetNeighborsExact(grid: Grid, p: Pos)
    ensures var r := GetNeighbors(grid, p);
      && (forall q :: q in r <==> Adjacent(p, q) && IsValidPosition(grid, q))
      && (forall i, j :: 0 <= i < j < |r| ==> OffsetIndex(p, r[i]) < OffsetIndex(p, r[j]))
  {
    var r := GetNeighbors(grid, p);
    var c := seq(4, j requires 0 <= j < 4 => Shift(p, Offsets[j]));
    forall j | 0 <= j < 4 ensures OffsetIndex(p, c[j]) == j {
      OffsetIndexOfShift(p, j);
    }
    forall q ensures q in r <==> Adjacent(p, q) && IsValidPosition(grid, q) {
      AdjacentIsShift(p, q);
    }
  }
}
