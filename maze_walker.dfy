/** The walker of RunMazeGame in app/maze.py: a player that moves one cell
    at a time through a 31 x 31 maze from (1, 1) towards (29, 29), keeps
    going straight while it can, picks among unexplored ways at crossings,
    and records every edge it walks in visited_paths. The drawing, the
    clock and the frame loop are not modelled; Step is one move. */
module MazeWalker {
  import opened Wrappers
  import opened Maze

  /** maze_size */
  const MazeSize: int := 31

  /** The four unit directions, in the order get_valid_moves tries them. */
  const Units: seq<Pos> := [(0, -1), (0, 1), (-1, 0), (1, 0)]

  /** An entry of visited_paths: (from_x, from_y, to_x, to_y). */
  type Edge = (int, int, int, int)

  /** The player may stand on (x, y): inside the maze and not a wall. */
  predicate Free(m: Grid, size: int, x: int, y: int)
  {
    0 <= x < size && 0 <= y < size && IsOpen(m, x, y)
  }

  /** The moves among `dirs` from (x, y) that land on a free cell, in order. */
  function ValidFrom(m: Grid, size: int, x: int, y: int, dirs: seq<Pos>): (r: seq<Pos>)
    ensures |r| <= |dirs|
  {
    if dirs == [] then []
    else
      var d := dirs[|dirs| - 1];
      ValidFrom(m, size, x, y, dirs[..|dirs| - 1]) + (if Free(m, size, x + d.0, y + d.1) then [d] else [])
  }

  /** The result of get_valid_moves(x, y). */
  function ValidMoves(m: Grid, size: int, x: int, y: int): seq<Pos>
  {
    ValidFrom(m, size, x, y, Units)
  }

  /** The moves among `moves` that do not reverse (ex, ey) and whose edge from
      (x, y) is not in `visited`, in order. */
  function UnvisitedFrom(visited: set<Edge>, x: int, y: int, ex: int, ey: int, moves: seq<Pos>): (r: seq<Pos>)
    ensures |r| <= |moves|
  {
    if moves == [] then []
    else
      var d := moves[|moves| - 1];
      UnvisitedFrom(visited, x, y, ex, ey, moves[..|moves| - 1])
      + (if !(d.0 == -ex && d.1 == -ey) && (x, y, x + d.0, y + d.1) !in visited then [d] else [])
  }

  /** UnvisitedFrom over one more of the moves. */
  lemma UnvisitedFromNext(visited: set<Edge>, x: int, y: int, ex: int, ey: int, moves: seq<Pos>, i: int)
    requires 0 <= i < |moves|
    ensures var d := moves[i];
      UnvisitedFrom(visited, x, y, ex, ey, moves[..i + 1])
      == UnvisitedFrom(visited, x, y, ex, ey, moves[..i])
         + (if !(d.0 == -ex && d.1 == -ey) && (x, y, x + d.0, y + d.1) !in visited then [d] else [])
  {
    assert moves[..i + 1][..i] == moves[..i];
  }

  /** The result of get_unvisited_moves(x, y, ex, ey). */
  function UnvisitedMoves(m: Grid, size: int, visited: set<Edge>, x: int, y: int, ex: int, ey: int): seq<Pos>
  {
    UnvisitedFrom(visited, x, y, ex, ey, ValidMoves(m, size, x, y))
  }

  /** available_moves: the moves that do not reverse (ex, ey), in order. */
  function Available(moves: seq<Pos>, ex: int, ey: int): (r: seq<Pos>)
    ensures |r| <= |moves|
  {
    if moves == [] then []
    else
      var d := moves[|moves| - 1];
      Available(moves[..|moves| - 1], ex, ey) + (if !(d.0 == -ex && d.1 == -ey) then [d] else [])
  }

  /** get_valid_moves keeps exactly the moves onto free cells. */
  lemma {:induction false} ValidFromMembers(m: Grid, size: int, x: int, y: int, dirs: seq<Pos>)
    ensures forall d :: d in ValidFrom(m, size, x, y, dirs) <==> d in dirs && Free(m, size, x + d.0, y + d.1)
  {
    if dirs != [] {
      var n := |dirs| - 1;
      ValidFromMembers(m, size, x, y, dirs[..n]);
      assert dirs == dirs[..n] + [dirs[n]];
    }
  }

  /** get_unvisited_moves keeps exactly the moves that neither turn back nor
      follow a recorded edge. */
  lemma {:induction false} UnvisitedFromMembers(visited: set<Edge>, x: int, y: int, ex: int, ey: int, moves: seq<Pos>)
    ensures forall d :: d in UnvisitedFrom(visited, x, y, ex, ey, moves) <==>
      d in moves && !(d.0 == -ex && d.1 == -ey) && (x, y, x + d.0, y + d.1) !in visited
  {
    if moves != [] {
      var n := |moves| - 1;
      UnvisitedFromMembers(visited, x, y, ex, ey, moves[..n]);
      assert moves == moves[..n] + [moves[n]];
    }
  }

  /** available_moves keeps exactly the moves that do not turn back. */
  lemma {:induction false} AvailableMembers(moves: seq<Pos>, ex: int, ey: int)
    ensures forall d :: d in Available(moves, ex, ey) <==> d in moves && !(d.0 == -ex && d.1 == -ey)
  {
    if moves != [] {
      var n := |moves| - 1;
      AvailableMembers(moves[..n], ex, ey);
      assert moves == moves[..n] + [moves[n]];
    }
  }

  /** One move and get_valid_moves: it is kept iff it is one of the four
      unit moves and lands on a free cell. */
  lemma ValidMoveIff(m: Grid, size: int, x: int, y: int, d: Pos)
    ensures d in ValidMoves(m, size, x, y) <==> d in Units && Free(m, size, x + d.0, y + d.1)
    ensures d in Units ==> Unit(d.0, d.1)
  {
    ValidFromMembers(m, size, x, y, Units);
  }

  /** One move and get_unvisited_moves. */
  lemma UnvisitedMoveIff(m: Grid, size: int, visited: set<Edge>, x: int, y: int, ex: int, ey: int, d: Pos)
    ensures d in UnvisitedMoves(m, size, visited, x, y, ex, ey) <==>
      d in ValidMoves(m, size, x, y) && !(d.0 == -ex && d.1 == -ey) && (x, y, x + d.0, y + d.1) !in visited
  {
    UnvisitedFromMembers(visited, x, y, ex, ey, ValidMoves(m, size, x, y));
  }

  /** One move and available_moves. */
  lemma AvailableIff(moves: seq<Pos>, ex: int, ey: int, d: Pos)
    ensures d in Available(moves, ex, ey) <==> d in moves && !(d.0 == -ex && d.1 == -ey)
  {
    AvailableMembers(moves, ex, ey);
  }

  /** The moves the player chooses from when it cannot go straight on: the
      unexplored ones, else those that do not turn back, else any. */
  function Fallback(m: Grid, size: int, visited: set<Edge>, x: int, y: int, ex: int, ey: int): seq<Pos>
  {
    var unvisited := UnvisitedMoves(m, size, visited, x, y, ex, ey);
    var valid := ValidMoves(m, size, x, y);
    if unvisited != [] then unvisited
    else if Available(valid, ex, ey) != [] then Available(valid, ex, ey)
    else valid
  }

  /** Every fallback choice is a unit move onto a free cell. */
  lemma FallbackChoice(m: Grid, size: int, visited: set<Edge>, x: int, y: int, ex: int, ey: int, d: Pos)
    requires d in Fallback(m, size, visited, x, y, ex, ey)
    ensures d in Units && Unit(d.0, d.1) && Free(m, size, x + d.0, y + d.1)
  {
    UnvisitedMoveIff(m, size, visited, x, y, ex, ey, d);
    AvailableIff(ValidMoves(m, size, x, y), ex, ey, d);
    ValidMoveIff(m, size, x, y, d);
  }

  /** There is a fallback choice exactly when some neighbour is free. */
  lemma FallbackEmpty(m: Grid, size: int, visited: set<Edge>, x: int, y: int, ex: int, ey: int)
    ensures Fallback(m, size, visited, x, y, ex, ey) == [] <==> ValidMoves(m, size, x, y) == []
  {
    var valid := ValidMoves(m, size, x, y);
    if valid == [] {
      assert UnvisitedMoves(m, size, visited, x, y, ex, ey) == [];
      assert Available(valid, ex, ey) == [];
    }
  }

  /** A unit step is one of the four moves. */
  lemma UnitInUnits(dx: int, dy: int)
    requires Unit(dx, dy)
    ensures (dx, dy) in Units
  {
  }

  class Walker {
    const maze: Grid
    var x: int
    var y: int
    var dirX: int
    var dirY: int
    var visited: set<Edge>
    var reachedGoal: bool

    /** The player stands on a free cell and heads in a unit direction; every
        recorded edge joins two adjacent free cells. */
    ghost predicate Valid()
      reads this
    {
      && Shaped(maze, MazeSize, MazeSize)
      && Free(maze, MazeSize, x, y)
      && Unit(dirX, dirY)
      && forall e :: e in visited ==>
           Free(maze, MazeSize, e.0, e.1) && Free(maze, MazeSize, e.2, e.3) && Adjacent((e.0, e.1), (e.2, e.3))
    }

    /** The player starts at (1, 1) heading right, nothing visited. */
    constructor(maze: Grid)
      requires Shaped(maze, MazeSize, MazeSize) && IsOpen(maze, 1, 1)
      ensures Valid() && this.maze == maze
      ensures x == 1 && y == 1 && dirX == 1 && dirY == 0 && visited == {} && !reachedGoal
    {
      this.maze := maze;
      x, y := 1, 1;
      dirX, dirY := 1, 0;
      visited := {};
      reachedGoal := false;
    }

    /** get_valid_moves(x, y) */
    method GetValidMoves(x: int, y: int) returns (valid: seq<Pos>)
      requires Shaped(maze, MazeSize, MazeSize)
      ensures valid == ValidMoves(maze, MazeSize, x, y)
    {
      var m := maze;
      valid := [];
      var i := 0;
      while i < |Units|
        invariant 0 <= i <= |Units|
        invariant valid == ValidFrom(m, MazeSize, x, y, Units[..i])
      {
        var (dx, dy) := Units[i];
        var nx, ny := x + dx, y + dy;
        assert Units[..i + 1][..i] == Units[..i];
        if 0 <= nx < MazeSize && 0 <= ny < MazeSize {
          if !m[ny][nx] {
            valid := valid + [(dx, dy)];
          }
        }
        i := i + 1;
      }
      assert Units[..i] == Units;
    }

    /** get_unvisited_moves(x, y, ex, ey), always called with the current
        direction as the one to exclude. */
    method GetUnvisitedMoves(x: int, y: int, ex: int, ey: int) returns (unvisited: seq<Pos>)
      requires Shaped(maze, MazeSize, MazeSize)
      ensures unvisited == UnvisitedMoves(maze, MazeSize, visited, x, y, ex, ey)
    {
      var validMoves := GetValidMoves(x, y);
      var seen := visited;
      unvisited := [];
      var i := 0;
      while i < |validMoves|
        invariant 0 <= i <= |validMoves|
        invariant unvisited == UnvisitedFrom(seen, x, y, ex, ey, validMoves[..i])
      {
        var d := validMoves[i];
        var dx, dy := d.0, d.1;
        UnvisitedFromNext(seen, x, y, ex, ey, validMoves, i);
        i := i + 1;
        if dx == -ex && dy == -ey {
          continue;
        }
        var nx, ny := x + dx, y + dy;
        if (x, y, nx, ny) !in seen {
          unvisited := unvisited + [d];
        }
      }
      assert validMoves[..i] == validMoves;
    }

    /** Step into the current direction if that cell is free, recording the
        edge; reports whether that reached the goal (size - 2, size - 2). */
    method MoveIfFree() returns (reached: bool)
      requires Valid()
      modifies this
      ensures Valid() && dirX == old(dirX) && dirY == old(dirY)
      ensures var nx, ny := old(x) + dirX, old(y) + dirY;
        if Free(maze, MazeSize, nx, ny) then
          x == nx && y == ny && visited == old(visited) + {(old(x), old(y), nx, ny)}
          && reached == (nx == MazeSize - 2 && ny == MazeSize - 2)
        else
          x == old(x) && y == old(y) && visited == old(visited) && !reached
      ensures reachedGoal == (old(reachedGoal) || reached)
    {
      var nx, ny := x + dirX, y + dirY;
      reached := false;
      if 0 <= nx < MazeSize && 0 <= ny < MazeSize && !maze[ny][nx] {
        visited := visited + {(x, y, nx, ny)};
        x, y := nx, ny;
        if x == MazeSize - 2 && y == MazeSize - 2 {
          reachedGoal := true;
          reached := true;
        }
      }
    }

    /** The cell straight ahead is free: step onto it and record the edge;
        unless that is the goal, turn to a random unexplored way at a
        crossing, or to the only one, and otherwise keep the direction. */
    method GoStraight() returns (reached: bool)
      requires Valid() && Free(maze, MazeSize, x + dirX, y + dirY)
      modifies this
      ensures Valid()
      ensures reachedGoal == (old(reachedGoal) || reached)
      ensures var fx, fy := old(x) + old(dirX), old(y) + old(dirY);
        && x == fx && y == fy && visited == old(visited) + {(old(x), old(y), fx, fy)}
        && reached == (fx == MazeSize - 2 && fy == MazeSize - 2)
        && (reached ==> dirX == old(dirX) && dirY == old(dirY))
        && (!reached ==>
              var unvisited := UnvisitedMoves(maze, MazeSize, visited, fx, fy, old(dirX), old(dirY));
              && (|unvisited| >= 2 ==> (dirX, dirY) in unvisited)
              && (|unvisited| == 1 ==> (dirX, dirY) == unvisited[0])
              && (unvisited == [] ==> dirX == old(dirX) && dirY == old(dirY)))
    {
      reached := MoveIfFree();
      if !reached {
        ChooseAtCrossing();
      }
    }

    /** After a step straight on: with two or more unexplored ways (not
        counting the way back) pick one at random, with one take it, with
        none keep going. */
    method ChooseAtCrossing()
      requires Valid()
      modifies this
      ensures Valid() && x == old(x) && y == old(y) && visited == old(visited) && reachedGoal == old(reachedGoal)
      ensures var unvisited := UnvisitedMoves(maze, MazeSize, visited, x, y, old(dirX), old(dirY));
        && (|unvisited| >= 2 ==> (dirX, dirY) in unvisited)
        && (|unvisited| == 1 ==> (dirX, dirY) == unvisited[0])
        && (unvisited == [] ==> dirX == old(dirX) && dirY == old(dirY))
    {
      var unvisited := GetUnvisitedMoves(x, y, dirX, dirY);
      if |unvisited| >= 2 {
        assert unvisited[0] in unvisited;
        var d :| d in unvisited;
        UnvisitedMoveIff(maze, MazeSize, visited, x, y, dirX, dirY, d);
        ValidMoveIff(maze, MazeSize, x, y, d);
        dirX, dirY := d.0, d.1;
      } else if |unvisited| == 1 {
        var d := unvisited[0];
        assert d in unvisited;
        UnvisitedMoveIff(maze, MazeSize, visited, x, y, dirX, dirY, d);
        ValidMoveIff(maze, MazeSize, x, y, d);
        dirX, dirY := d.0, d.1;
      }
    }

    /** Turn to the move `d` and take it; it lands on a free cell. */
    method TurnTo(d: Pos) returns (reached: bool)
      requires Valid() && Unit(d.0, d.1) && Free(maze, MazeSize, x + d.0, y + d.1)
      modifies this
      ensures Valid() && dirX == d.0 && dirY == d.1
      ensures x == old(x) + d.0 && y == old(y) + d.1 && visited == old(visited) + {(old(x), old(y), x, y)}
      ensures reached == (x == MazeSize - 2 && y == MazeSize - 2)
      ensures reachedGoal == (old(reachedGoal) || reached)
    {
      dirX, dirY := d.0, d.1;
      reached := MoveIfFree();
    }

    /** The cell straight ahead is blocked: pick a random move among the
        unexplored ones, else among those that do not turn back, else any,
        and take it at once. With no free neighbour nothing changes. */
    method TurnAside() returns (reached: bool)
      requires Valid() && !Free(maze, MazeSize, x + dirX, y + dirY)
      modifies this
      ensures Valid()
      ensures reachedGoal == (old(reachedGoal) || reached)
      ensures var fallback := Fallback(maze, MazeSize, old(visited), old(x), old(y), old(dirX), old(dirY));
        && (fallback == [] ==>
              x == old(x) && y == old(y) && dirX == old(dirX) && dirY == old(dirY)
              && visited == old(visited) && !reached)
        && (fallback != [] ==>
              && (dirX, dirY) in fallback && x == old(x) + dirX && y == old(y) + dirY
              && visited == old(visited) + {(old(x), old(y), x, y)}
              && reached == (x == MazeSize - 2 && y == MazeSize - 2))
    {
      ghost var fallback := Fallback(maze, MazeSize, visited, x, y, dirX, dirY);
      var unvisited := GetUnvisitedMoves(x, y, dirX, dirY);
      var d: Pos;
      if unvisited != [] {
        assert unvisited[0] in unvisited;
        d :| d in unvisited;
      } else {
        var validMoves := GetValidMoves(x, y);
        var available := Available(validMoves, dirX, dirY);
        if available != [] {
          assert available[0] in available;
          d :| d in available;
        } else if validMoves != [] {
          assert validMoves[0] in validMoves;
          d :| d in validMoves;
        } else {
          return false;
        }
      }
      assert d in fallback;
      FallbackChoice(maze, MazeSize, visited, x, y, dirX, dirY, d);
      reached := TurnTo(d);
    }

    /** What one move of the player leaves behind, from the position
        (x0, y0), the edges visited0 and the flag reached0 before it: the
        player stays put exactly when no neighbour was free, otherwise it
        moved to an adjacent cell and recorded that edge; `reached` says it
        moved onto the goal, and the goal flag accumulates it. */
    ghost predicate Stepped(x0: int, y0: int, visited0: set<Edge>, reached0: bool, reached: bool)
      reads this
    {
      && Valid()
      && reachedGoal == (reached0 || reached)
      && ((x, y) == (x0, y0) ==> visited == visited0)
      && ((x, y) != (x0, y0) ==> Adjacent((x0, y0), (x, y)) && visited == visited0 + {(x0, y0, x, y)})
      && ((x, y) == (x0, y0) <==> ValidMoves(maze, MazeSize, x0, y0) == [])
      && (reached <==> (x, y) != (x0, y0) && x == MazeSize - 2 && y == MazeSize - 2)
    }

    /** Step when the cell straight ahead is free. */
    method StepStraight() returns (reached: bool)
      requires Valid() && Free(maze, MazeSize, x + dirX, y + dirY)
      modifies this
      ensures Stepped(old(x), old(y), old(visited), old(reachedGoal), reached)
    {
      UnitInUnits(dirX, dirY);
      ValidMoveIff(maze, MazeSize, x, y, (dirX, dirY));
      reached := GoStraight();
    }

    /** Step when the cell straight ahead is blocked. */
    method StepAside() returns (reached: bool)
      requires Valid() && !Free(maze, MazeSize, x + dirX, y + dirY)
      modifies this
      ensures Stepped(old(x), old(y), old(visited), old(reachedGoal), reached)
    {
      FallbackEmpty(maze, MazeSize, visited, x, y, dirX, dirY);
      reached := TurnAside();
    }

    /** One move of the player in the first loop of RunMazeGame: straight on
        when that cell is free, otherwise a turn. Returns whether the goal
        was reached, which ends the game. */
    method Step() returns (reached: bool)
      requires Valid()
      modifies this
      ensures Valid()
      ensures reachedGoal == (old(reachedGoal) || reached)
      ensures (x, y) == (old(x), old(y)) ==> visited == old(visited)
      ensures (x, y) != (old(x), old(y)) ==>
        Adjacent((old(x), old(y)), (x, y)) && visited == old(visited) + {(old(x), old(y), x, y)}
      ensures (x, y) == (old(x), old(y)) <==> ValidMoves(maze, MazeSize, old(x), old(y)) == []
      ensures reached <==> (x, y) != (old(x), old(y)) && x == MazeSize - 2 && y == MazeSize - 2
    {
      if 0 <= x + dirX < MazeSize && 0 <= y + dirY < MazeSize && !maze[y + dirY][x + dirX] {
        reached := StepStraight();
      } else {
        reached := StepAside();
      }
    }
  }

  /** The set-up of RunMazeGame: a 31 x 31 maze and the player at (1, 1).
      The goal (29, 29) is open and joined to the start. */
  method StartMazeGame() returns (w: Walker)
    ensures fresh(w) && w.Valid() && w.x == 1 && w.y == 1 && w.visited == {}
    ensures IsOpen(w.maze, MazeSize - 2, MazeSize - 2) && Connected(w.maze)
    ensures Reachable(w.maze, MazeSize - 2, MazeSize - 2)
  {
    var r := GenerateMaze(MazeSize, MazeSize);
    assert Odd(MazeSize) && Odd(MazeSize - 2);
    var m := r.value;
    assert IsOpen(m, MazeSize - 2, MazeSize - 2);
    w := new Walker(m);
  }
}
