/** The decision rules of the snake engine as functions of the game state:
    obstacle placement, the body sets the rules avoid, the tail-reachability
    check and the three-level move policy of SnakeGame._find_best_move. */
module SnakeRules {
  import opened Wrappers
  import opened SnakeGrid
  import opened SnakeSearch

  // ---------------------------------------------------------------------
  // Obstacles

  /** Side of an obstacle square. */
  const SquareSize: int := 5

  /** The cells of [x, x + w) x [y, y + h). */
  function Rect(x: int, y: int, w: int, h: int): set<Pos>
  {
    set a, b | x <= a < x + w && y <= b < y + h :: (a, b)
  }

  /** The 5 x 5 square whose lower-left cell is c. */
  function Square(c: Pos): set<Pos>
  {
    Rect(c.0, c.1, SquareSize, SquareSize)
  }

  /** The coverage percentage after clamping to [0, 50]. */
  function ClampCoverage(coverage: int): (r: int)
    ensures 0 <= r <= 50
    ensures 0 <= coverage <= 50 ==> r == coverage
  {
    if coverage < 0 then 0 else if coverage > 50 then 50 else coverage
  }

  /** int(width * height * coverage / 100) for a non-negative product. */
  function TargetCells(width: int, height: int, coverage: int): int
  {
    (width * height * coverage) / 100
  }

  /** A square corner random.randint can return: 0 <= x <= width - 5 and
      0 <= y <= height - 5. */
  predicate CornerInRange(width: int, height: int, c: Pos)
  {
    0 <= c.0 <= width - SquareSize && 0 <= c.1 <= height - SquareSize
  }

  /** The obstacle loop: from `acc`, add the squares at corners[i..] one by
      one while fewer than `target` cells are covered. */
  function Generate(corners: seq<Pos>, target: int, i: nat, acc: set<Pos>): (r: set<Pos>)
    requires i <= |corners|
    decreases |corners| - i
    ensures acc <= r
    ensures |r| >= target || forall j :: i <= j < |corners| ==> Square(corners[j]) <= r
    ensures forall p :: p in r ==> p in acc || exists j :: i <= j < |corners| && p in Square(corners[j])
  {
    if |acc| >= target || i == |corners| then acc
    else Generate(corners, target, i + 1, acc + Square(corners[i]))
  }

  lemma SquareInBounds(width: int, height: int, c: Pos, p: Pos)
    requires CornerInRange(width, height, c) && p in Square(c)
    ensures InGrid(Grid(width, height, {}), p)
  {
  }

  /** Every obstacle cell lies on the grid. */
  lemma GenerateInBounds(width: int, height: int, corners: seq<Pos>, target: int)
    requires forall j :: 0 <= j < |corners| ==> CornerInRange(width, height, corners[j])
    ensures forall p :: p in Generate(corners, target, 0, {}) ==> 0 <= p.0 < width && 0 <= p.1 < height
  {
    forall p | p in Generate(corners, target, 0, {}) ensures 0 <= p.0 < width && 0 <= p.1 < height {
      var j :| 0 <= j < |corners| && p in Square(corners[j]);
      SquareInBounds(width, height, corners[j], p);
    }
  }

  // ---------------------------------------------------------------------
  // The body sets

  /** set(snake) */
  function Cells(snake: seq<Pos>): set<Pos>
  {
    set p | p in snake
  }

  function Head(snake: seq<Pos>): Pos
    requires |snake| > 0
  {
    snake[0]
  }

  function Tail(snake: seq<Pos>): Pos
    requires |snake| > 0
  {
    snake[|snake| - 1]
  }

  /** set(snake) with the tail cell discarded: the cells a move must avoid,
      since the tail moves away in the same tick. */
  function BodyMinusTail(snake: seq<Pos>): set<Pos>
    requires |snake| > 0
  {
    Cells(snake) - {Tail(snake)}
  }

  /** _is_safe_move: a valid cell outside the body minus the tail. */
  predicate IsSafeMove(grid: Grid, snake: seq<Pos>, p: Pos)
    requires |snake| > 0
  {
    IsValidPosition(grid, p) && p !in BodyMinusTail(snake)
  }

  /** A cell where a fruit may spawn. */
  predicate FreeCell(grid: Grid, snake: seq<Pos>, p: Pos)
  {
    InGrid(grid, p) && p !in snake && p !in grid.obstacles
  }

  // ---------------------------------------------------------------------
  // Tail reachability

  /** temp_body of _can_reach_tail_after_move, after its final discard of
      the tail. */
  function TempBody(snake: seq<Pos>, newHead: Pos, willEat: bool): set<Pos>
    requires |snake| > 0
  {
    var body := if willEat then Cells(snake) + {newHead}
                else (Cells(snake) - {Tail(snake)}) + {newHead};
    body - {Tail(snake)}
  }

  /** _can_reach_tail_after_move(new_head, will_eat). */
  function CanReachTail(grid: Grid, snake: seq<Pos>, newHead: Pos, willEat: bool): bool
    requires |snake| > 0
  {
    |AStar(Query(grid, newHead, Tail(snake), TempBody(snake, newHead, willEat)))| > 0
  }

  /** The will_eat_fruit flag changes nothing: both branches block the same
      cells once the tail is discarded. */
  lemma CanReachTailIgnoresFlag(grid: Grid, snake: seq<Pos>, newHead: Pos)
    requires |snake| > 0
    ensures TempBody(snake, newHead, true) == TempBody(snake, newHead, false)
    ensures CanReachTail(grid, snake, newHead, true) == CanReachTail(grid, snake, newHead, false)
  {
    var tail := Tail(snake);
    assert Cells(snake) + {newHead} - {tail} == (Cells(snake) - {tail}) + {newHead} - {tail};
  }

  /** A positive answer means there is a path from the new head to the tail
      that avoids the body after the move. */
  lemma CanReachTailHasPath(grid: Grid, snake: seq<Pos>, newHead: Pos, willEat: bool)
    requires |snake| > 0 && CanReachTail(grid, snake, newHead, willEat)
    ensures IsPath(Query(grid, newHead, Tail(snake), TempBody(snake, newHead, willEat)),
                   AStar(Query(grid, newHead, Tail(snake), TempBody(snake, newHead, willEat))))
  {
    AStarShape(Query(grid, newHead, Tail(snake), TempBody(snake, newHead, willEat)));
  }

  // ---------------------------------------------------------------------
  // The clearance fallback

  /** min(x, y, width - 1 - x, height - 1 - y) */
  function WallDistance(grid: Grid, p: Pos): (r: int)
    ensures r <= p.0 && r <= p.1 && r <= grid.width - 1 - p.0 && r <= grid.height - 1 - p.1
    ensures r == p.0 || r == p.1 || r == grid.width - 1 - p.0 || r == grid.height - 1 - p.1
  {
    var a := if p.0 <= p.1 then p.0 else p.1;
    var b := if a <= grid.width - 1 - p.0 then a else grid.width - 1 - p.0;
    if b <= grid.height - 1 - p.1 then b else grid.height - 1 - p.1
  }

  /** The least of m and the Manhattan distances from p to the cells of S;
      the order in which S is visited does not matter. */
  ghost function MinDistance(p: Pos, S: set<Pos>, m: int): (r: int)
    decreases |S|
    ensures r <= m && forall b :: b in S ==> r <= Manhattan(p, b)
    ensures r == m || exists b :: b in S && r == Manhattan(p, b)
  {
    if S == {} then m
    else
      var b :| b in S;
      var d := Manhattan(p, b);
      MinDistance(p, S - {b}, if d < m then d else m)
  }

  /** Any lower bound of m and the distances that is attained is the
      minimum, whatever order the cells are visited in. */
  lemma MinDistanceUnique(p: Pos, S: set<Pos>, m: int, r: int)
    requires r <= m && forall b :: b in S ==> r <= Manhattan(p, b)
    requires r == m || exists b :: b in S && r == Manhattan(p, b)
    ensures r == MinDistance(p, S, m)
  {
    var d := MinDistance(p, S, m);
    if r != m {
      var b :| b in S && r == Manhattan(p, b);
    }
    if d != m {
      var b :| b in S && d == Manhattan(p, b);
    }
  }

  /** The value a neighbour is scored by: its distance to the nearest wall
      or body cell, obstacles not counted. */
  ghost function Clearance(grid: Grid, snake: seq<Pos>, p: Pos): int
    requires |snake| > 0
  {
    MinDistance(p, BodyMinusTail(snake), WallDistance(grid, p))
  }

  /** A neighbour the fallback considers: outside the body, valid, and with
      the tail still reachable after moving there. */
  predicate Qualifies(grid: Grid, snake: seq<Pos>, p: Pos)
    requires |snake| > 0
  {
    p !in BodyMinusTail(snake) && IsValidPosition(grid, p) && CanReachTail(grid, snake, p, false)
  }

  /** The fallback loop over candidates from index k, given for each
      candidate whether it qualifies and its score, with the best move and
      score so far; a later candidate replaces the best only when it scores
      strictly more. */
  function ChooseBest(cands: seq<Pos>, ok: seq<bool>, score: seq<int>, k: nat,
                      best: Option<Pos>, bestDist: int): Option<Pos>
    requires |ok| == |cands| && |score| == |cands| && k <= |cands|
    decreases |cands| - k
  {
    if k == |cands| then best
    else if ok[k] && score[k] > bestDist then ChooseBest(cands, ok, score, k + 1, Some(cands[k]), score[k])
    else ChooseBest(cands, ok, score, k + 1, best, bestDist)
  }

  ghost function Qualified(grid: Grid, snake: seq<Pos>, nbrs: seq<Pos>): (ok: seq<bool>)
    requires |snake| > 0
    ensures |ok| == |nbrs| && forall i :: 0 <= i < |nbrs| ==> ok[i] == Qualifies(grid, snake, nbrs[i])
  {
    seq(|nbrs|, i requires 0 <= i < |nbrs| => Qualifies(grid, snake, nbrs[i]))
  }

  ghost function Scores(grid: Grid, snake: seq<Pos>, nbrs: seq<Pos>): (score: seq<int>)
    requires |snake| > 0
    ensures |score| == |nbrs| && forall i :: 0 <= i < |nbrs| ==> score[i] == Clearance(grid, snake, nbrs[i])
  {
    seq(|nbrs|, i requires 0 <= i < |nbrs| => Clearance(grid, snake, nbrs[i]))
  }

  /** Strategy 3 of _find_best_move over the head's neighbours, starting
      from best_move = None and best_distance = -1. */
  ghost function Fallback(grid: Grid, snake: seq<Pos>, nbrs: seq<Pos>): Option<Pos>
    requires |snake| > 0
  {
    ChooseBest(nbrs, Qualified(grid, snake, nbrs), Scores(grid, snake, nbrs), 0, None, -1)
  }

  /** Strategy 1 of _find_best_move: the second cell of a path to the
      fruit, when the tail stays reachable after stepping there. */
  function FruitMove(grid: Grid, snake: seq<Pos>, fruit: Option<Pos>): Option<Pos>
    requires |snake| > 0
  {
    if fruit.Some? then
      var path := AStar(Query(grid, Head(snake), fruit.value, BodyMinusTail(snake)));
      if |path| >= 2 && CanReachTail(grid, snake, path[1], true) then Some(path[1]) else None
    else None
  }

  /** Strategy 2: the second cell of a path to the tail, when the tail
      stays reachable after stepping there. */
  function TailMove(grid: Grid, snake: seq<Pos>): Option<Pos>
    requires |snake| > 0
  {
    var path := AStar(Query(grid, Head(snake), Tail(snake), BodyMinusTail(snake)));
    if |path| >= 2 && CanReachTail(grid, snake, path[1], false) then Some(path[1]) else None
  }

  /** _find_best_move: the path to the fruit, else the path to the tail,
      else the clearance fallback. */
  ghost function BestMove(grid: Grid, snake: seq<Pos>, fruit: Option<Pos>): Option<Pos>
    requires |snake| > 0
  {
    if FruitMove(grid, snake, fruit).Some? then FruitMove(grid, snake, fruit)
    else if TailMove(grid, snake).Some? then TailMove(grid, snake)
    else Fallback(grid, snake, GetNeighbors(grid, Head(snake)))
  }

  // ---------------------------------------------------------------------
  // Properties of the move policy

  /** ChooseBest returns nothing exactly when nothing was chosen before and
      no candidate qualifies with a score above the one so far ... */
  lemma {:induction false} ChooseBestNone(cands: seq<Pos>, ok: seq<bool>, score: seq<int>, k: nat,
                                          best: Option<Pos>, bestDist: int)
    requires |ok| == |cands| && |score| == |cands| && k <= |cands|
    decreases |cands| - k
    ensures ChooseBest(cands, ok, score, k, best, bestDist).None? <==>
      best.None? && forall j :: k <= j < |cands| ==> !(ok[j] && score[j] > bestDist)
  {
    if k < |cands| {
      if ok[k] && score[k] > bestDist {
        ChooseBestNone(cands, ok, score, k + 1, Some(cands[k]), score[k]);
      } else {
        ChooseBestNone(cands, ok, score, k + 1, best, bestDist);
      }
    }
  }

  /** Candidate i is the one the loop from k settles on when it starts
      from score lo: it qualifies, beats lo, no qualifying candidate from k
      scores more, and every qualifying candidate before it scores less. */
  predicate FirstBest(cands: seq<Pos>, ok: seq<bool>, score: seq<int>, k: nat, i: int, lo: int)
    requires |ok| == |cands| && |score| == |cands|
  {
    && k <= i < |cands| && ok[i] && score[i] > lo
    && (forall j :: k <= j < |cands| && ok[j] ==> score[j] <= score[i])
    && (forall j :: k <= j < i && ok[j] ==> score[j] < score[i])
  }

  /** ... and otherwise it returns the first qualifying candidate of highest
      score, or keeps the best so far when no candidate beats its score. */
  lemma {:induction false} ChooseBestIsBest(cands: seq<Pos>, ok: seq<bool>, score: seq<int>, k: nat,
                                            best: Option<Pos>, bestDist: int)
    requires |ok| == |cands| && |score| == |cands| && k <= |cands|
    decreases |cands| - k
    ensures var r := ChooseBest(cands, ok, score, k, best, bestDist);
      || (exists i :: FirstBest(cands, ok, score, k, i, bestDist) && r == Some(cands[i]))
      || (r == best && forall j :: k <= j < |cands| && ok[j] ==> score[j] <= bestDist)
  {
    if k < |cands| {
      var r := ChooseBest(cands, ok, score, k, best, bestDist);
      if ok[k] && score[k] > bestDist {
        ChooseBestIsBest(cands, ok, score, k + 1, Some(cands[k]), score[k]);
        if exists i :: FirstBest(cands, ok, score, k + 1, i, score[k]) && r == Some(cands[i]) {
          var i :| FirstBest(cands, ok, score, k + 1, i, score[k]) && r == Some(cands[i]);
          assert FirstBest(cands, ok, score, k, i, bestDist);
        } else {
          assert FirstBest(cands, ok, score, k, k, bestDist);
        }
      } else {
        ChooseBestIsBest(cands, ok, score, k + 1, best, bestDist);
        if exists i :: FirstBest(cands, ok, score, k + 1, i, bestDist) && r == Some(cands[i]) {
          var i :| FirstBest(cands, ok, score, k + 1, i, bestDist) && r == Some(cands[i]);
          assert FirstBest(cands, ok, score, k, i, bestDist);
        }
      }
    }
  }

  /** The clearance fallback returns nothing exactly when no neighbour
      qualifies; otherwise the first qualifying neighbour of greatest
      clearance (the comparison is strict, so earlier ties win). */
  lemma FallbackPicksFirstBest(grid: Grid, snake: seq<Pos>, nbrs: seq<Pos>)
    requires |snake| > 0
    ensures var r := Fallback(grid, snake, nbrs);
      (r.None? <==> forall j :: 0 <= j < |nbrs| ==> !Qualifies(grid, snake, nbrs[j]))
    ensures var r := Fallback(grid, snake, nbrs);
      r.Some? ==>
        exists i :: FirstBest(nbrs, Qualified(grid, snake, nbrs), Scores(grid, snake, nbrs), 0, i, -1)
                    && r.value == nbrs[i]
  {
    var ok := Qualified(grid, snake, nbrs);
    var score := Scores(grid, snake, nbrs);
    forall j | 0 <= j < |nbrs| && ok[j] ensures score[j] > -1 {
      ClearanceNonNegative(grid, snake, nbrs[j]);
    }
    ChooseBestNone(nbrs, ok, score, 0, None, -1);
    ChooseBestIsBest(nbrs, ok, score, 0, None, -1);
  }

  /** A valid cell has non-negative clearance. */
  lemma ClearanceNonNegative(grid: Grid, snake: seq<Pos>, p: Pos)
    requires |snake| > 0 && IsValidPosition(grid, p)
    ensures Clearance(grid, snake, p) >= 0
  {
  }

  /** The second cell of a search result is a safe step from the start. */
  lemma PathStepIsSafe(q: Query)
    requires |AStar(q)| >= 2
    ensures Adjacent(q.start, AStar(q)[1]) && IsValidPosition(q.grid, AStar(q)[1]) && AStar(q)[1] !in q.avoid
  {
    AStarShape(q);
  }

  /** A fallback move is a valid neighbour of the head outside the body. */
  lemma FallbackIsSafe(grid: Grid, snake: seq<Pos>)
    requires |snake| > 0
    ensures var m := Fallback(grid, snake, GetNeighbors(grid, Head(snake)));
      m.Some? ==> Adjacent(Head(snake), m.value) && IsSafeMove(grid, snake, m.value)
  {
    var nbrs := GetNeighbors(grid, Head(snake));
    GetNeighborsExact(grid, Head(snake));
    FallbackPicksFirstBest(grid, snake, nbrs);
    var m := Fallback(grid, snake, nbrs);
    if m.Some? {
      var i :| FirstBest(nbrs, Qualified(grid, snake, nbrs), Scores(grid, snake, nbrs), 0, i, -1)
               && m.value == nbrs[i];
      assert nbrs[i] in nbrs;
    }
  }

  /** Every move the policy returns is a step to a 4-neighbour of the head
      that is on the grid, not an obstacle, and not in the body minus the
      tail, so `update` never reports "Hit wall" or "Hit self" for it. */
  lemma BestMoveIsSafe(grid: Grid, snake: seq<Pos>, fruit: Option<Pos>)
    requires |snake| > 0
    ensures var m := BestMove(grid, snake, fruit);
      m.Some? ==> Adjacent(Head(snake), m.value) && IsSafeMove(grid, snake, m.value)
  {
    var head := Head(snake);
    var body := BodyMinusTail(snake);
    if fruit.Some? && |AStar(Query(grid, head, fruit.value, body))| >= 2 {
      PathStepIsSafe(Query(grid, head, fruit.value, body));
    }
    if |AStar(Query(grid, head, Tail(snake), body))| >= 2 {
      PathStepIsSafe(Query(grid, head, Tail(snake), body));
    }
    FallbackIsSafe(grid, snake);
  }
}
