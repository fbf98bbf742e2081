/** The SnakeGame class of app/snake.py: the game state, the imperative A*
    search, the move policy as a method, and the per-tick update. Each
    method is proved equal to (or to respect) the functions of SnakeSearch
    and SnakeRules. Random choices are parameters (the obstacle corners) or
    nondeterministic picks (the fruit cell). */
module Snake {
  import opened Wrappers
  import opened SnakeGrid
  import opened SnakeSearch
  import opened SnakeRules

  /** The default parameters of the game. */
  const START_LENGTH: int := 20
  const NUM_FRUITS: int := 50
  const OBSTACLE_COVERAGE: int := 5

  /** How many copies of the old tail are appended after eating a fruit
      (the new head already adds one cell). */
  const GROWTH: int := 9

  /** A pixel (x, y, r, g, b) of get_pixels. */
  type Pixel = (int, int, int, int, int)

  function Paint(p: Pos, r: int, g: int, b: int): Pixel
  {
    (p.0, p.1, r, g, b)
  }

  /** n copies of p. */
  function Copies(p: Pos, n: nat): (r: seq<Pos>)
    ensures |r| == n && forall i :: 0 <= i < n ==> r[i] == p
  {
    seq(n, _ => p)
  }

  /** The initial body: start_length cells from the centre leftwards, the
      head at the centre. */
  function InitialSnake(width: int, height: int, startLength: int): seq<Pos>
  {
    if startLength <= 0 then []
    else seq(startLength, i => (width / 2 - i, height / 2))
  }

  /** The initial body is a horizontal line of max(0, start_length) cells
      with the head at (width // 2, height // 2), each cell one step left of
      the one before, and no cell repeated. */
  lemma InitialSnakeShape(width: int, height: int, startLength: int)
    ensures var s := InitialSnake(width, height, startLength);
      && |s| == (if startLength <= 0 then 0 else startLength)
      && (|s| > 0 ==> s[0] == (width / 2, height / 2))
      && (forall i :: 0 <= i < |s| - 1 ==> Adjacent(s[i], s[i + 1]) && s[i + 1].0 == s[i].0 - 1)
      && (forall i, j :: 0 <= i < j < |s| ==> s[i] != s[j])
  {
  }

  /** A cell the fruit may spawn on, with an all-cells search bound so the
      pick can be made by `:|`. */
  predicate Spawnable(grid: Grid, snake: seq<Pos>, x: int, y: int)
  {
    0 <= x < grid.width && 0 <= y < grid.height && FreeCell(grid, snake, (x, y))
  }

  lemma RectGrowsUp(x: int, y: int, h: nat)
    ensures Rect(x, y, 1, h + 1) == Rect(x, y, 1, h) + {(x, y + h)}
  {
  }

  lemma RectGrowsRight(x: int, y: int, w: nat, h: int)
    ensures Rect(x, y, w + 1, h) == Rect(x, y, w, h) + Rect(x + w, y, 1, h)
  {
  }

  /** The `for dx ... for dy ...` loops that add one square. */
  method AddSquare(obstacles0: set<Pos>, x: int, y: int) returns (obstacles: set<Pos>)
    ensures obstacles == obstacles0 + Square((x, y))
  {
    var size := SquareSize;
    obstacles := obstacles0;
    for dx := 0 to size
      invariant obstacles == obstacles0 + Rect(x, y, dx, size)
    {
      ghost var row := obstacles;
      for dy := 0 to size
        invariant obstacles == row + Rect(x + dx, y, 1, dy)
      {
        obstacles := obstacles + {(x + dx, y + dy)};
        RectGrowsUp(x + dx, y, dy);
      }
      RectGrowsRight(x, y, dx, size);
    }
  }

  /** _generate_obstacles with the squares' lower-left corners given in the
      order random.randint would produce them. The source raises ValueError
      from randint when the loop runs on a field narrower or lower than a
      square. */
  /** Obstacles are due but a 5 x 5 square does not fit: randint(0, width - 5)
      or randint(0, height - 5) raises ValueError. */
  predicate ObstaclesRaise(width: int, height: int, coverage: int)
  {
    TargetCells(width, height, coverage) > 0 && (width < SquareSize || height < SquareSize)
  }

  method GenerateObstacles(width: int, height: int, coverage: int, corners: seq<Pos>)
      returns (r: Result<set<Pos>>)
    requires forall j :: 0 <= j < |corners| ==> CornerInRange(width, height, corners[j])
    ensures r == if ObstaclesRaise(width, height, coverage) then Err(ValueError)
                 else Ok(Generate(corners, TargetCells(width, height, coverage), 0, {}))
  {
    var obstacles: set<Pos> := {};
    var targetCells := TargetCells(width, height, coverage);
    var size := SquareSize;
    if targetCells > 0 && (width < size || height < size) {
      return Err(ValueError);
    }
    var i := 0;
    while |obstacles| < targetCells && i < |corners|
      invariant 0 <= i <= |corners|
      invariant Generate(corners, targetCells, i, obstacles) == Generate(corners, targetCells, 0, {})
      decreases |corners| - i
    {
      var (x, y) := corners[i];
      obstacles := AddSquare(obstacles, x, y);
      i := i + 1;
    }
    r := Ok(obstacles);
  }

  // ---------------------------------------------------------------------
  // The search loops, shared by every search the game makes

  /** The inner `for neighbor in ...` loop of the search. */
  method RelaxNeighbors(q: Query, s0: SearchState, cur: Pos, cg: int, nbrs: seq<Pos>)
      returns (s: SearchState)
    ensures s == Relax(q, s0, cur, cg, nbrs)
  {
    s := s0;
    for k := 0 to |nbrs|
      invariant Relax(q, s, cur, cg, nbrs[k..]) == Relax(q, s0, cur, cg, nbrs)
    {
      var neighbor := nbrs[k];
      assert nbrs[k..][1..] == nbrs[k + 1..];
      if neighbor in s.closed || neighbor in q.avoid {
        continue;
      }
      var tentative := cg + 1;
      if neighbor !in s.g || tentative < s.g[neighbor] {
        var counter := s.counter + 1;
        s := s.(g := s.g[neighbor := tentative],
                parent := s.parent[neighbor := Some(cur)],
                counter := counter,
                open := s.open + [Entry(tentative + Heuristic(q, neighbor), counter, neighbor)]);
      }
    }
  }

  /** The reconstruction loop: follow parent pointers from node to the
      start, collecting the cells. */
  method ReconstructPath(q: Query, s: SearchState, target: Pos) returns (path: seq<Pos>)
    requires Inv(q, s) && target in s.parent
    ensures path == Chain(q, s, target)
  {
    path := [];
    var node: Option<Pos> := Some(target);
    while node.Some?
      invariant node.Some? ==> node.value in s.parent && path + Chain(q, s, node.value) == Chain(q, s, target)
      invariant node.None? ==> path == Chain(q, s, target)
      decreases if node.Some? && node.value in s.g then s.g[node.value] + 1 else 0
    {
      var n := node.value;
      assert n != q.start ==> ParentOk(q, s, n);
      assert Chain(q, s, n) == [n] + (if s.parent[n].None? then [] else Chain(q, s, s.parent[n].value));
      path := path + [n];
      node := s.parent[n];
    }
  }

  /** The main `while open_set` loop, from a state satisfying the invariant. */
  method SearchLoop(q: Query, s0: SearchState) returns (path: seq<Pos>)
    requires Inv(q, s0)
    ensures path == Run(q, s0)
  {
    var maxSearchDistance := MaxSearchDistance(q.grid);
    var s := s0;
    while |s.open| > 0
      invariant Inv(q, s) && Run(q, s) == Run(q, s0)
      decreases |Universe(q) - s.closed|, |s.open|
    {
      var i := MinIndex(s.open);
      var current := s.open[i].pos;
      PopInv(q, s, i);
      var popped := s.(open := RemoveAt(s.open, i));
      if current in s.closed {
        assert Run(q, s) == Run(q, popped);
        s := popped;
        continue;
      }
      if current == q.target {
        assert Run(q, s) == Reverse(Chain(q, s, current));
        path := ReconstructPath(q, s, current);
        return Reverse(path);
      }
      ExpandInv(q, popped, current);
      var closed := popped.(closed := s.closed + {current});
      var currentG := s.g[current];
      if currentG > maxSearchDistance {
        assert Run(q, s) == Run(q, closed);
        s := closed;
        continue;
      }
      var next := RelaxNeighbors(q, closed, current, currentG, GetNeighbors(q.grid, current));
      assert Run(q, s) == Run(q, next);
      s := next;
    }
    path := [];
  }

  // ---------------------------------------------------------------------
  // The game

  class SnakeGame {
    var width: int
    var height: int
    var startLength: int
    var numFruits: int
    var obstacleCoverage: int
    var obstacles: set<Pos>
    /** The deque of body cells, head first. */
    var snake: seq<Pos>
    var direction: Pos
    var fruitPos: Option<Pos>
    var fruitsEaten: int
    var gameOver: bool
    var win: bool
    var reason: string

    /** The field the rules are evaluated on. */
    function Field(): (g: Grid)
      reads this`width, this`height, this`obstacles
      ensures g.width == width && g.height == height && g.obstacles == obstacles
    {
      Grid(width, height, obstacles)
    }

    /** __init__ with the obstacle corners in the order randint would
        produce them, on a field where the obstacles fit; NewGame below
        adds the ValueError raised when they do not. The source loops for
        ever when no cell is free for the first fruit; that is excluded. */
    constructor(width: int, height: int, startLength: int, numFruits: int, obstacleCoverage: int,
                corners: seq<Pos>)
      requires forall j :: 0 <= j < |corners| ==> CornerInRange(width, height, corners[j])
      requires !ObstaclesRaise(width, height, ClampCoverage(obstacleCoverage))
      requires exists x, y :: Spawnable(
                 Grid(width, height,
                      Generate(corners, TargetCells(width, height, ClampCoverage(obstacleCoverage)), 0, {})),
                 InitialSnake(width, height, startLength), x, y)
      ensures this.width == width && this.height == height
      ensures this.startLength == startLength && this.numFruits == numFruits
      ensures this.obstacleCoverage == ClampCoverage(obstacleCoverage)
      ensures obstacles == Generate(corners, TargetCells(width, height, ClampCoverage(obstacleCoverage)), 0, {})
      ensures snake == InitialSnake(width, height, startLength)
      ensures direction == (1, 0) && fruitsEaten == 0 && !gameOver && !win && reason == ""
      ensures fruitPos.Some? && FreeCell(Field(), snake, fruitPos.value)
    {
      this.width := width;
      this.height := height;
      this.startLength := startLength;
      this.numFruits := numFruits;
      this.obstacleCoverage := ClampCoverage(obstacleCoverage);
      var generated := GenerateObstacles(width, height, ClampCoverage(obstacleCoverage), corners);
      this.obstacles := generated.value;
      var centerX := width / 2;
      var centerY := height / 2;
      var body: seq<Pos> := [];
      var i := 0;
      while i < startLength
        invariant 0 <= i && (startLength > 0 ==> i <= startLength)
        invariant startLength <= 0 ==> i == 0
        invariant |body| == i && forall k :: 0 <= k < i ==> body[k] == (centerX - k, centerY)
      {
        body := body + [(centerX - i, centerY)];
        i := i + 1;
      }
      assert body == InitialSnake(width, height, startLength);
      this.snake := body;
      this.direction := (1, 0);
      this.fruitPos := None;
      this.fruitsEaten := 0;
      this.gameOver := false;
      this.win := false;
      this.reason := "";
      new;
      assert Field() == Grid(width, height,
                             Generate(corners, TargetCells(width, height, ClampCoverage(obstacleCoverage)), 0, {}));
      ghost var x0, y0 :| Spawnable(Field(), InitialSnake(width, height, startLength), x0, y0);
      assert Spawnable(Field(), snake, x0, y0);
      SpawnFruit();
    }

    /** _spawn_fruit: the retry loop over random cells ends on a cell that
        is neither body nor obstacle; any such cell may be the one. */
    method SpawnFruit()
      requires exists x, y :: Spawnable(Field(), snake, x, y)
      modifies this`fruitPos
      ensures fruitPos.Some? && FreeCell(Field(), snake, fruitPos.value)
    {
      var x, y :| Spawnable(Field(), snake, x, y);
      fruitPos := Some((x, y));
    }

    /** _astar_path_to_target(start, target, avoid_positions). */
    method AStarPath(start: Pos, target: Pos, avoidPositions: set<Pos>) returns (path: seq<Pos>)
      ensures path == AStar(Query(Field(), start, target, avoidPositions))
    {
      var q := Query(Field(), start, target, avoidPositions);
      if start == target {
        return [start];
      }
      var maxSearchDistance := MaxSearchDistance(Field());
      if Heuristic(q, start) > maxSearchDistance {
        return [];
      }
      path := SearchLoop(q, Init(q));
    }

    /** _can_reach_tail_after_move(new_head_pos, will_eat_fruit). */
    method CanReachTailAfterMove(newHeadPos: Pos, willEatFruit: bool) returns (r: bool)
      requires |snake| > 0
      ensures r == CanReachTail(Field(), snake, newHeadPos, willEatFruit)
    {
      var tempBody: set<Pos>;
      if willEatFruit {
        tempBody := Cells(snake) + {newHeadPos};
      } else {
        tempBody := (Cells(snake) - {snake[|snake| - 1]}) + {newHeadPos};
      }
      var tail := snake[|snake| - 1];
      tempBody := tempBody - {tail};
      var path := AStarPath(newHeadPos, tail, tempBody);
      r := |path| > 0;
    }

    /** The clearance of a neighbour: its wall distance, lowered to the
        Manhattan distance of each body cell in turn. */
    method MeasureClearance(neighbor: Pos, snakeBody: set<Pos>) returns (minDistance: int)
      requires |snake| > 0 && snakeBody == BodyMinusTail(snake)
      ensures minDistance == Clearance(Field(), snake, neighbor)
    {
      var wallDistance := WallDistance(Field(), neighbor);
      minDistance := wallDistance;
      var rest := snakeBody;
      while rest != {}
        invariant rest <= snakeBody
        invariant minDistance <= wallDistance
        invariant forall b :: b in snakeBody - rest ==> minDistance <= Manhattan(neighbor, b)
        invariant minDistance == wallDistance || exists b :: b in snakeBody - rest && minDistance == Manhattan(neighbor, b)
        decreases |rest|
      {
        var bodyPart :| bodyPart in rest;
        var dist := Manhattan(neighbor, bodyPart);
        if dist < minDistance {
          minDistance := dist;
        }
        rest := rest - {bodyPart};
      }
      MinDistanceUnique(neighbor, snakeBody, wallDistance, minDistance);
    }

    /** _find_best_move: strategies 1 and 2 by search, strategy 3 by the
        clearance loop. */
    method FindBestMove() returns (move: Option<Pos>)
      requires |snake| > 0
      ensures move == BestMove(Field(), snake, fruitPos)
    {
      var head := snake[0];
      var snakeBody := Cells(snake) - {snake[|snake| - 1]};
      move := FruitStrategy(head, snakeBody);
      if move.Some? {
        return;
      }
      move := TailStrategy(head, snakeBody);
      if move.Some? {
        return;
      }
      move := ClearanceFallback(head, snakeBody);
    }

    /** Strategy 1 of _find_best_move: towards the fruit when the tail stays
        reachable after eating it. */
    method FruitStrategy(head: Pos, snakeBody: set<Pos>) returns (move: Option<Pos>)
      requires |snake| > 0 && head == Head(snake) && snakeBody == BodyMinusTail(snake)
      ensures move == FruitMove(Field(), snake, fruitPos)
    {
      if fruitPos.Some? {
        var pathToFruit := AStarPath(head, fruitPos.value, snakeBody);
        if |pathToFruit| >= 2 {
          var nextPos := pathToFruit[1];
          var safe := CanReachTailAfterMove(nextPos, true);
          if safe {
            return Some(nextPos);
          }
        }
      }
      return None;
    }

    /** Strategy 2 of _find_best_move: towards the tail when it stays
        reachable after the step. */
    method TailStrategy(head: Pos, snakeBody: set<Pos>) returns (move: Option<Pos>)
      requires |snake| > 0 && head == Head(snake) && snakeBody == BodyMinusTail(snake)
      ensures move == TailMove(Field(), snake)
    {
      var tail := snake[|snake| - 1];
      var pathToTail := AStarPath(head, tail, snakeBody);
      assert pathToTail == AStar(Query(Field(), Head(snake), Tail(snake), BodyMinusTail(snake)));
      if |pathToTail| >= 2 {
        var nextPos := pathToTail[1];
        var safe := CanReachTailAfterMove(nextPos, false);
        if safe {
          return Some(nextPos);
        }
      }
      return None;
    }

    /** Strategy 3 of _find_best_move. */
    method ClearanceFallback(head: Pos, snakeBody: set<Pos>) returns (bestMove: Option<Pos>)
      requires |snake| > 0 && head == Head(snake) && snakeBody == BodyMinusTail(snake)
      ensures bestMove == Fallback(Field(), snake, GetNeighbors(Field(), head))
    {
      var neighbors := GetNeighbors(Field(), head);
      ghost var ok := Qualified(Field(), snake, neighbors);
      ghost var score := Scores(Field(), snake, neighbors);
      bestMove := None;
      var bestDistance := -1;
      for k := 0 to |neighbors|
        invariant ChooseBest(neighbors, ok, score, k, bestMove, bestDistance)
               == ChooseBest(neighbors, ok, score, 0, None, -1)
      {
        var neighbor := neighbors[k];
        if neighbor !in snakeBody && IsValidPosition(Field(), neighbor) {
          var reach := CanReachTailAfterMove(neighbor, false);
          if !reach {
            continue;
          }
          var minDistance := MeasureClearance(neighbor, snakeBody);
          if minDistance > bestDistance {
            bestDistance := minDistance;
            bestMove := Some(neighbor);
          }
        }
      }
    }

    /** The part of update after the collision checks: the head advances
        to next; eating the fruit counts it and then either wins or spawns a
        new fruit and grows the body by the old tail nine times; otherwise
        the tail is popped. */
    method MoveSnake(next: Pos)
      requires |snake| > 0
      requires Some(next) == fruitPos && fruitsEaten + 1 < numFruits
               ==> exists x, y :: Spawnable(Field(), [next] + snake, x, y)
      modifies this`snake, this`fruitPos, this`fruitsEaten, this`win
      ensures Some(next) != old(fruitPos) ==>
        snake == [next] + old(snake[..|snake| - 1]) && |snake| == old(|snake|)
        && fruitPos == old(fruitPos) && fruitsEaten == old(fruitsEaten) && win == old(win)
      ensures Some(next) == old(fruitPos) && old(fruitsEaten) + 1 >= numFruits ==>
        snake == [next] + old(snake)
        && win && fruitPos == old(fruitPos) && fruitsEaten == old(fruitsEaten) + 1
      ensures Some(next) == old(fruitPos) && old(fruitsEaten) + 1 < numFruits ==>
        snake == [next] + old(snake) + Copies(old(snake[|snake| - 1]), GROWTH as nat)
        && |snake| == old(|snake|) + 10
        && win == old(win) && fruitsEaten == old(fruitsEaten) + 1
        && fruitPos.Some? && FreeCell(Field(), [next] + old(snake), fruitPos.value)
    {
      ghost var oldSnake := snake;
      ghost var oldField := Field();
      assert Some(next) == fruitPos && fruitsEaten + 1 < numFruits
             ==> exists x, y :: Spawnable(oldField, [next] + oldSnake, x, y);
      snake := [next] + snake;

      if Some(next) == fruitPos {
        fruitsEaten := fruitsEaten + 1;
        if fruitsEaten >= numFruits {
          win := true;
          return;
        }
        assert Field() == oldField && snake == [next] + oldSnake;
        ghost var x0, y0 :| Spawnable(oldField, [next] + oldSnake, x0, y0);
        assert Spawnable(Field(), snake, x0, y0);
        SpawnFruit();
        ghost var grown := snake;
        ghost var tail := oldSnake[|oldSnake| - 1];
        for k := 0 to GROWTH
          modifies this`snake
          invariant |snake| > 0 && snake == grown + Copies(tail, k)
        {
          if |snake| > 0 {
            assert snake[|snake| - 1] == tail;
            assert Copies(tail, k + 1) == Copies(tail, k) + [tail];
            snake := snake + [snake[|snake| - 1]];
          }
        }
      } else {
        snake := snake[..|snake| - 1];
      }
    }

    /** update: one tick of the game, with the IndexError that
        _find_best_move raises at snake[0] for an empty snake reported in
        raised. The source loops for ever in _spawn_fruit when the fruit is
        eaten without winning and no cell is left; that case is excluded. */
    method Update() returns (raised: Option<Error>)
      requires !gameOver && !win && |snake| > 0 && fruitPos.Some?
               && BestMove(Field(), snake, fruitPos) == fruitPos && fruitsEaten + 1 < numFruits
               ==> exists x, y :: Spawnable(Field(), [fruitPos.value] + snake, x, y)
      modifies this`snake, this`fruitPos, this`fruitsEaten, this`gameOver, this`win, this`reason
      // once the game has ended nothing changes
      ensures old(gameOver || win) ==>
        snake == old(snake) && fruitPos == old(fruitPos) && fruitsEaten == old(fruitsEaten)
        && gameOver == old(gameOver) && win == old(win) && reason == old(reason)
      // an empty snake: IndexError and nothing changes
      ensures raised.Some? <==> !old(gameOver || win) && old(|snake|) == 0
      ensures raised.Some? ==>
        raised.value == IndexError
        && snake == old(snake) && fruitPos == old(fruitPos) && fruitsEaten == old(fruitsEaten)
        && gameOver == old(gameOver) && win == old(win) && reason == old(reason)
      // no move: trapped
      ensures !old(gameOver || win) && old(|snake|) > 0 && old(BestMove(Field(), snake, fruitPos)).None? ==>
        gameOver && reason == "Trapped - no safe moves" && !win
        && snake == old(snake) && fruitPos == old(fruitPos) && fruitsEaten == old(fruitsEaten)
      // a move off the field or onto an obstacle
      ensures !old(gameOver || win) && old(|snake|) > 0 && old(BestMove(Field(), snake, fruitPos)).Some?
              && !IsValidPosition(Field(), old(BestMove(Field(), snake, fruitPos)).value) ==>
        gameOver && reason == "Hit wall" && !win
        && snake == old(snake) && fruitPos == old(fruitPos) && fruitsEaten == old(fruitsEaten)
      // a move into the body
      ensures !old(gameOver || win) && old(|snake|) > 0 && old(BestMove(Field(), snake, fruitPos)).Some?
              && IsValidPosition(Field(), old(BestMove(Field(), snake, fruitPos)).value)
              && old(BestMove(Field(), snake, fruitPos)).value in old(BodyMinusTail(snake)) ==>
        gameOver && reason == "Hit self" && !win
        && snake == old(snake) && fruitPos == old(fruitPos) && fruitsEaten == old(fruitsEaten)
      // a safe move that misses the fruit: the head advances, the tail is popped
      ensures !old(gameOver || win) && old(|snake|) > 0 && old(BestMove(Field(), snake, fruitPos)).Some?
              && old(IsSafeMove(Field(), snake, BestMove(Field(), snake, fruitPos).value))
              && old(BestMove(Field(), snake, fruitPos)) != old(fruitPos) ==>
        !gameOver && !win && reason == old(reason)
        && snake == [old(BestMove(Field(), snake, fruitPos)).value] + old(snake[..|snake| - 1])
        && |snake| == old(|snake|)
        && fruitPos == old(fruitPos) && fruitsEaten == old(fruitsEaten)
      // eating the last fruit: a win, no growth and no new fruit
      ensures !old(gameOver || win) && old(|snake|) > 0 && old(BestMove(Field(), snake, fruitPos)).Some?
              && old(IsSafeMove(Field(), snake, BestMove(Field(), snake, fruitPos).value))
              && old(BestMove(Field(), snake, fruitPos)) == old(fruitPos)
              && old(fruitsEaten) + 1 >= numFruits ==>
        win && !gameOver && reason == old(reason)
        && snake == [old(fruitPos).value] + old(snake)
        && fruitPos == old(fruitPos) && fruitsEaten == old(fruitsEaten) + 1
      // eating another fruit: a new fruit on a free cell, ten cells longer
      ensures !old(gameOver || win) && old(|snake|) > 0 && old(BestMove(Field(), snake, fruitPos)).Some?
              && old(IsSafeMove(Field(), snake, BestMove(Field(), snake, fruitPos).value))
              && old(BestMove(Field(), snake, fruitPos)) == old(fruitPos)
              && old(fruitsEaten) + 1 < numFruits ==>
        !win && !gameOver && reason == old(reason)
        && snake == [old(fruitPos).value] + old(snake) + Copies(old(snake[|snake| - 1]), GROWTH as nat)
        && |snake| == old(|snake|) + 10
        && fruitsEaten == old(fruitsEaten) + 1
        && fruitPos.Some? && FreeCell(Field(), [old(fruitPos).value] + old(snake), fruitPos.value)
    {
      raised := None;
      if gameOver || win {
        return;
      }
      if |snake| == 0 {
        return Some(IndexError);
      }

      var nextPos := FindBestMove();
      if nextPos.None? {
        gameOver := true;
        reason := "Trapped - no safe moves";
        return;
      }
      var next := nextPos.value;

      if !IsValidPosition(Field(), next) {
        gameOver := true;
        reason := "Hit wall";
        return;
      }

      var snakeBody := Cells(snake) - {snake[|snake| - 1]};
      assert snakeBody == BodyMinusTail(snake);
      if next in snakeBody {
        gameOver := true;
        reason := "Hit self";
        return;
      }

      assert IsSafeMove(Field(), snake, next);
      MoveSnake(next);
    }

    /** get_pixels: the obstacles in light blue (in the set's iteration
        order), then the body with a bright green head, then the fruit in
        red. */
    method GetPixels() returns (pixels: seq<Pixel>)
      ensures var n := |obstacles|;
        |pixels| == n + |snake| + (if fruitPos.Some? then 1 else 0)
        && (forall i :: 0 <= i < n ==>
              (pixels[i].0, pixels[i].1) in obstacles && pixels[i] == Paint((pixels[i].0, pixels[i].1), 25, 50, 64))
        && (forall o :: o in obstacles ==> exists i :: 0 <= i < n && pixels[i] == Paint(o, 25, 50, 64))
        && (forall i :: 0 <= i < |snake| ==>
              pixels[n + i] == Paint(snake[i], 0, if i == 0 then 255 else 150, 0))
        && (fruitPos.Some? ==> pixels[|pixels| - 1] == Paint(fruitPos.value, 255, 0, 0))
    {
      pixels := [];
      var rest := obstacles;
      while rest != {}
        invariant rest <= obstacles && |pixels| + |rest| == |obstacles|
        invariant forall i :: 0 <= i < |pixels| ==>
          (pixels[i].0, pixels[i].1) in obstacles && pixels[i] == Paint((pixels[i].0, pixels[i].1), 25, 50, 64)
        invariant forall o :: o in obstacles - rest ==> exists i :: 0 <= i < |pixels| && pixels[i] == Paint(o, 25, 50, 64)
        decreases |rest|
      {
        var o :| o in rest;
        ghost var before := pixels;
        pixels := pixels + [Paint(o, 25, 50, 64)];
        rest := rest - {o};
        forall o' | o' in obstacles - rest
          ensures exists i :: 0 <= i < |pixels| && pixels[i] == Paint(o', 25, 50, 64)
        {
          if o' == o {
            assert pixels[|pixels| - 1] == Paint(o', 25, 50, 64);
          } else {
            var i :| 0 <= i < |before| && before[i] == Paint(o', 25, 50, 64);
            assert pixels[i] == before[i];
          }
        }
      }
      var n := |pixels|;
      ghost var obstaclePixels := pixels;
      for i := 0 to |snake|
        invariant |pixels| == n + i && pixels[..n] == obstaclePixels
        invariant forall j :: 0 <= j < i ==> pixels[n + j] == Paint(snake[j], 0, if j == 0 then 255 else 150, 0)
      {
        if i == 0 {
          pixels := pixels + [Paint(snake[i], 0, 255, 0)];
        } else {
          pixels := pixels + [Paint(snake[i], 0, 150, 0)];
        }
      }
      if fruitPos.Some? {
        pixels := pixels + [Paint(fruitPos.value, 255, 0, 0)];
      }
      forall o | o in obstacles ensures exists i :: 0 <= i < n && pixels[i] == Paint(o, 25, 50, 64) {
        var i :| 0 <= i < n && obstaclePixels[i] == Paint(o, 25, 50, 64);
        assert pixels[i] == obstaclePixels[i];
      }
    }
  }

  /** SnakeGame(...): __init__ as a caller sees it, ValueError from
      _generate_obstacles when obstacles are due on a field narrower or
      lower than a square, else a running game as the constructor builds
      it. */
  method NewGame(width: int, height: int, startLength: int, numFruits: int, obstacleCoverage: int,
                 corners: seq<Pos>)
      returns (r: Result<SnakeGame>)
    requires forall j :: 0 <= j < |corners| ==> CornerInRange(width, height, corners[j])
    requires !ObstaclesRaise(width, height, ClampCoverage(obstacleCoverage)) ==>
      exists x, y :: Spawnable(
        Grid(width, height, Generate(corners, TargetCells(width, height, ClampCoverage(obstacleCoverage)), 0, {})),
        InitialSnake(width, height, startLength), x, y)
    ensures r.Err? <==> ObstaclesRaise(width, height, ClampCoverage(obstacleCoverage))
    ensures r.Err? ==> r.error == ValueError
    ensures r.Ok? ==>
      fresh(r.value)
      && r.value.width == width && r.value.height == height
      && r.value.obstacles == Generate(corners, TargetCells(width, height, ClampCoverage(obstacleCoverage)), 0, {})
      && r.value.snake == InitialSnake(width, height, startLength)
      && r.value.direction == (1, 0) && r.value.fruitsEaten == 0
      && !r.value.gameOver && !r.value.win
      && r.value.fruitPos.Some? && FreeCell(r.value.Field(), r.value.snake, r.value.fruitPos.value)
  {
    if ObstaclesRaise(width, height, ClampCoverage(obstacleCoverage)) {
      return Err(ValueError);
    }
    var game := new SnakeGame(width, height, startLength, numFruits, obstacleCoverage, corners);
    return Ok(game);
  }
}
