/** The A* search of SnakeGame._astar_path_to_target as a function of its
    inputs. The heap is a sequence of (f_score, counter, position) entries
    from which a pop removes a least entry in Python's tuple order; the
    parent and g_score dictionaries are maps; the main `while` loop is Run
    and the inner loop over neighbours is Relax. */
module SnakeSearch {
  import opened Wrappers
  import opened SnakeGrid

  /** An open-set entry (f_score, counter, position). */
  datatype Entry = Entry(f: int, counter: int, pos: Pos)

  /** The inputs that stay fixed during one search. */
  datatype Query = Query(grid: Grid, start: Pos, target: Pos, avoid: set<Pos>)

  /** The loop variables of the search. */
  datatype SearchState = SearchState(
    open: seq<Entry>,
    closed: set<Pos>,
    parent: map<Pos, Option<Pos>>,
    g: map<Pos, int>,
    counter: int)

  /** Python's order on (f_score, counter, (x, y)) tuples. */
  predicate EntryLe(a: Entry, b: Entry)
  {
    a.f < b.f || (a.f == b.f &&
      (a.counter < b.counter || (a.counter == b.counter &&
        (a.pos.0 < b.pos.0 || (a.pos.0 == b.pos.0 && a.pos.1 <= b.pos.1)))))
  }

  /** Position of a least entry: the one heapq.heappop returns. */
  function MinIndex(open: seq<Entry>): (i: nat)
    requires |open| > 0
    ensures i < |open|
    ensures forall j :: 0 <= j < |open| ==> EntryLe(open[i], open[j])
  {
    if |open| == 1 then 0
    else
      var k := MinIndex(open[1..]) + 1;
      if EntryLe(open[0], open[k]) then 0 else k
  }

  /** The open set after popping the entry at i. */
  function RemoveAt(open: seq<Entry>, i: nat): (r: seq<Entry>)
    requires i < |open|
    ensures |r| == |open| - 1
    ensures forall j :: 0 <= j < |r| ==> r[j] in open
  {
    open[..i] + open[i + 1..]
  }

  /** The heuristic: Manhattan distance to the target. */
  function Heuristic(q: Query, p: Pos): nat
  {
    Manhattan(p, q.target)
  }

  /** max(width, height) * 2: the search gives up beyond this distance. */
  function MaxSearchDistance(grid: Grid): int
  {
    (if grid.width >= grid.height then grid.width else grid.height) * 2
  }

  /** The cells the search can ever visit: the grid and the start. */
  function Universe(q: Query): set<Pos>
  {
    (set x, y | 0 <= x < q.grid.width && 0 <= y < q.grid.height :: (x, y)) + {q.start}
  }

  /** The bookkeeping the search keeps for a node n other than the start:
      its parent is a closed node one step away with g one less, n itself is
      a valid cell outside `avoid`, and its g is within the search bound. */
  predicate ParentOk(q: Query, s: SearchState, n: Pos)
    requires n in s.parent
  {
    s.parent[n].Some? &&
    var p := s.parent[n].value;
    && p in s.closed && p in s.g && n in s.g
    && s.g[n] == s.g[p] + 1
    && 1 <= s.g[n] <= MaxSearchDistance(q.grid) + 1
    && Adjacent(p, n) && IsValidPosition(q.grid, n) && n !in q.avoid
  }

  /** The invariant of the search loop. */
  predicate Inv(q: Query, s: SearchState)
  {
    && s.parent.Keys == s.g.Keys
    && q.start in s.parent && s.parent[q.start] == None && s.g[q.start] == 0
    && (forall n :: n in s.parent && n != q.start ==> ParentOk(q, s, n))
    && s.closed <= s.parent.Keys
    && (s.closed == {} || q.start in s.closed)
    && (forall i :: 0 <= i < |s.open| ==> s.open[i].pos in s.parent)
  }

  lemma UniverseHasValid(q: Query, p: Pos)
    requires InGrid(q.grid, p) || p == q.start
    ensures p in Universe(q)
  {
    if p != q.start {
      var (x, y) := p;
      assert (x, y) in (set x, y | 0 <= x < q.grid.width && 0 <= y < q.grid.height :: (x, y));
    }
  }

  /** Every node the search knows of is in the universe. */
  lemma KnownInUniverse(q: Query, s: SearchState)
    requires Inv(q, s)
    ensures s.parent.Keys <= Universe(q)
    ensures s.closed <= Universe(q)
  {
    forall n | n in s.parent ensures n in Universe(q) {
      UniverseHasValid(q, n);
    }
  }

  lemma CloseShrinks(u: set<Pos>, c: set<Pos>, x: Pos)
    requires x in u && x !in c
    ensures |u - (c + {x})| < |u - c|
  {
    assert u - c == (u - (c + {x})) + {x};
  }

  // ---------------------------------------------------------------------
  // One relaxation step and the inner loop over neighbours

  /** The body of the inner loop for one neighbour nb of cur. */
  function RelaxOne(q: Query, s: SearchState, cur: Pos, cg: int, nb: Pos): (r: SearchState)
    ensures r.closed == s.closed
  {
    if nb in s.closed || nb in q.avoid then s
    else if nb !in s.g || cg + 1 < s.g[nb] then
      s.(g := s.g[nb := cg + 1],
         parent := s.parent[nb := Some(cur)],
         counter := s.counter + 1,
         open := s.open + [Entry(cg + 1 + Heuristic(q, nb), s.counter + 1, nb)])
    else s
  }

  /** The inner `for neighbor in ...` loop. */
  function Relax(q: Query, s: SearchState, cur: Pos, cg: int, nbrs: seq<Pos>): (r: SearchState)
    decreases |nbrs|
    ensures r.closed == s.closed
  {
    if nbrs == [] then s
    else Relax(q, RelaxOne(q, s, cur, cg, nbrs[0]), cur, cg, nbrs[1..])
  }

  /** What the expansion of cur may assume. */
  predicate ExpandPre(q: Query, s: SearchState, cur: Pos, cg: int)
  {
    && Inv(q, s) && cur in s.closed && cur in s.g && s.g[cur] == cg
    && 0 <= cg <= MaxSearchDistance(q.grid)
  }

  lemma RelaxOneInv(q: Query, s: SearchState, cur: Pos, cg: int, nb: Pos)
    requires ExpandPre(q, s, cur, cg)
    requires Adjacent(cur, nb) && IsValidPosition(q.grid, nb)
    ensures ExpandPre(q, RelaxOne(q, s, cur, cg, nb), cur, cg)
  {
    var r := RelaxOne(q, s, cur, cg, nb);
    if !(nb in s.closed || nb in q.avoid) && (nb !in s.g || cg + 1 < s.g[nb]) {
      assert nb != q.start;
      assert r.parent.Keys == s.parent.Keys + {nb};
      forall n | n in r.parent && n != q.start ensures ParentOk(q, r, n) {
        if n != nb {
          assert ParentOk(q, s, n);
          assert s.parent[n].value != nb;
        }
      }
      forall i | 0 <= i < |r.open| ensures r.open[i].pos in r.parent {
        if i < |s.open| {
          assert r.open[i] == s.open[i];
        }
      }
    }
  }

  lemma {:induction false} RelaxInv(q: Query, s: SearchState, cur: Pos, cg: int, nbrs: seq<Pos>)
    requires ExpandPre(q, s, cur, cg)
    requires forall i :: 0 <= i < |nbrs| ==> Adjacent(cur, nbrs[i]) && IsValidPosition(q.grid, nbrs[i])
    ensures ExpandPre(q, Relax(q, s, cur, cg, nbrs), cur, cg)
    decreases |nbrs|
  {
    if nbrs != [] {
      RelaxOneInv(q, s, cur, cg, nbrs[0]);
      RelaxInv(q, RelaxOne(q, s, cur, cg, nbrs[0]), cur, cg, nbrs[1..]);
    }
  }

  // ---------------------------------------------------------------------
  // Path reconstruction

  /** The `path` list the reconstruction loop builds from n, before it is
      reversed: n, parent[n], parent[parent[n]], ..., the start. */
  function Chain(q: Query, s: SearchState, n: Pos): (c: seq<Pos>)
    requires Inv(q, s) && n in s.parent
    decreases s.g[n]
    ensures |c| == s.g[n] + 1
  {
    if s.parent[n].None? then
      assert n == q.start by { assert n != q.start ==> ParentOk(q, s, n); }
      [n]
    else
      assert ParentOk(q, s, n) by { if n == q.start { assert false; } }
      [n] + Chain(q, s, s.parent[n].value)
  }

  function Reverse<T>(xs: seq<T>): (r: seq<T>)
    ensures |r| == |xs|
    ensures forall i :: 0 <= i < |xs| ==> r[i] == xs[|xs| - 1 - i]
  {
    if xs == [] then [] else Reverse(xs[1..]) + [xs[0]]
  }

  // ---------------------------------------------------------------------
  // The main loop

  lemma PopInv(q: Query, s: SearchState, i: nat)
    requires Inv(q, s) && i < |s.open|
    ensures Inv(q, s.(open := RemoveAt(s.open, i)))
  {
    var r := s.(open := RemoveAt(s.open, i));
    forall j | 0 <= j < |r.open| ensures r.open[j].pos in r.parent {
      var e := r.open[j];
      assert e in s.open;
      var k :| 0 <= k < |s.open| && s.open[k] == e;
    }
  }

  lemma CloseInv(q: Query, s: SearchState, cur: Pos)
    requires Inv(q, s) && cur in s.parent
    ensures Inv(q, s.(closed := s.closed + {cur}))
  {
    var r := s.(closed := s.closed + {cur});
    assert cur != q.start ==> ParentOk(q, s, cur);
    forall n | n in r.parent && n != q.start ensures ParentOk(q, r, n) {
      assert ParentOk(q, s, n);
    }
  }

  /** Closing a popped node that was not closed yet keeps the invariant and
      shrinks the set of nodes left to close; so does expanding it when its
      g is within the bound. */
  lemma ExpandInv(q: Query, s: SearchState, cur: Pos)
    requires Inv(q, s) && cur in s.parent && cur !in s.closed
    ensures var closed := s.(closed := s.closed + {cur});
      && Inv(q, closed)
      && |Universe(q) - closed.closed| < |Universe(q) - s.closed|
      && (s.g[cur] <= MaxSearchDistance(q.grid) ==>
            Inv(q, Relax(q, closed, cur, s.g[cur], GetNeighbors(q.grid, cur))))
  {
    var closed := s.(closed := s.closed + {cur});
    CloseInv(q, s, cur);
    KnownInUniverse(q, s);
    CloseShrinks(Universe(q), s.closed, cur);
    var cg := s.g[cur];
    if cg <= MaxSearchDistance(q.grid) {
      GetNeighborsExact(q.grid, cur);
      assert cg >= 0 by { assert cur != q.start ==> ParentOk(q, s, cur); }
      RelaxInv(q, closed, cur, cg, GetNeighbors(q.grid, cur));
    }
  }

  /** The `while open_set` loop, from state s. */
  function Run(q: Query, s: SearchState): (path: seq<Pos>)
    requires Inv(q, s)
    decreases |Universe(q) - s.closed|, |s.open|
  {
    if |s.open| == 0 then []
    else
      var i := MinIndex(s.open);
      var cur := s.open[i].pos;
      var popped := s.(open := RemoveAt(s.open, i));
      PopInv(q, s, i);
      if cur in s.closed then Run(q, popped)
      else if cur == q.target then Reverse(Chain(q, s, cur))
      else
        var closed := popped.(closed := s.closed + {cur});
        ExpandInv(q, popped, cur);
        var cg := s.g[cur];
        if cg > MaxSearchDistance(q.grid) then Run(q, closed)
        else Run(q, Relax(q, closed, cur, cg, GetNeighbors(q.grid, cur)))
  }

  /** The state the loop starts from. */
  function Init(q: Query): (s: SearchState)
    ensures Inv(q, s)
  {
    SearchState([Entry(Heuristic(q, q.start), 0, q.start)], {}, map[q.start := None], map[q.start := 0], 0)
  }

  /** _astar_path_to_target(start, target, avoid_positions). */
  function AStar(q: Query): (path: seq<Pos>)
  {
    if q.start == q.target then [q.start]
    else if Heuristic(q, q.start) > MaxSearchDistance(q.grid) then []
    else Run(q, Init(q))
  }

  // ---------------------------------------------------------------------
  // Shape of the returned path

  /** A path from the start to the target through 4-adjacent cells, every
      cell after the start valid and outside `avoid`. */
  predicate IsPath(q: Query, path: seq<Pos>)
  {
    && |path| >= 1 && path[0] == q.start && path[|path| - 1] == q.target
    && (forall i :: 0 <= i < |path| - 1 ==> Adjacent(path[i], path[i + 1]))
    && (forall i :: 1 <= i < |path| ==> IsValidPosition(q.grid, path[i]) && path[i] !in q.avoid)
  }

  lemma {:induction false} ChainShape(q: Query, s: SearchState, n: Pos)
    requires Inv(q, s) && n in s.parent
    decreases s.g[n]
    ensures var c := Chain(q, s, n);
      && c[0] == n && c[|c| - 1] == q.start
      && (forall i :: 0 <= i < |c| - 1 ==> Adjacent(c[i + 1], c[i]))
      && (forall i :: 0 <= i < |c| - 1 ==> IsValidPosition(q.grid, c[i]) && c[i] !in q.avoid)
  {
    if s.parent[n].Some? {
      assert ParentOk(q, s, n) by { if n == q.start { assert false; } }
      var p := s.parent[n].value;
      ChainShape(q, s, p);
      var c := Chain(q, s, n);
      var c' := Chain(q, s, p);
      assert c == [n] + c';
      forall i | 1 <= i < |c| - 1
        ensures Adjacent(c[i + 1], c[i]) && IsValidPosition(q.grid, c[i]) && c[i] !in q.avoid
      {
        assert c[i] == c'[i - 1] && c[i + 1] == c'[i];
      }
    }
  }

  /** Reversing a chain that runs from the target back to the start gives
      a path from the start to the target. */
  lemma ReversedChainIsPath(q: Query, c: seq<Pos>)
    requires |c| >= 1 && c[0] == q.target && c[|c| - 1] == q.start
    requires forall i :: 0 <= i < |c| - 1 ==> Adjacent(c[i + 1], c[i])
    requires forall i :: 0 <= i < |c| - 1 ==> IsValidPosition(q.grid, c[i]) && c[i] !in q.avoid
    ensures IsPath(q, Reverse(c))
  {
    var path := Reverse(c);
    var n := |c|;
    assert path[0] == q.start && path[n - 1] == q.target;
    forall i | 0 <= i < n - 1 ensures Adjacent(path[i], path[i + 1]) {
      var j := n - 2 - i;
      assert path[i] == c[j + 1] && path[i + 1] == c[j];
      assert Adjacent(c[j + 1], c[j]);
    }
    forall i | 1 <= i < n ensures IsValidPosition(q.grid, path[i]) && path[i] !in q.avoid {
      var j := n - 1 - i;
      assert path[i] == c[j];
    }
  }

  /** The reconstructed path has g[target] + 1 cells. */
  lemma ReconstructShape(q: Query, s: SearchState)
    requires Inv(q, s) && q.target in s.parent && q.target != q.start
    ensures var path := Reverse(Chain(q, s, q.target));
      IsPath(q, path) && |path| <= MaxSearchDistance(q.grid) + 2
  {
    ChainShape(q, s, q.target);
    ReversedChainIsPath(q, Chain(q, s, q.target));
    assert ParentOk(q, s, q.target);
  }

  /** Whatever the loop returns from a state satisfying the invariant is
      empty or a path of at most MaxSearchDistance + 2 cells. */
  lemma {:induction false} RunShape(q: Query, s: SearchState)
    requires Inv(q, s) && q.start != q.target
    decreases |Universe(q) - s.closed|, |s.open|
    ensures var path := Run(q, s);
      path == [] || (IsPath(q, path) && |path| <= MaxSearchDistance(q.grid) + 2)
  {
    if |s.open| > 0 {
      var i := MinIndex(s.open);
      var cur := s.open[i].pos;
      var popped := s.(open := RemoveAt(s.open, i));
      PopInv(q, s, i);
      if cur in s.closed {
        assert Run(q, s) == Run(q, popped);
        RunShape(q, popped);
      } else if cur == q.target {
        assert Run(q, s) == Reverse(Chain(q, s, cur));
        ReconstructShape(q, s);
      } else {
        var closed := popped.(closed := s.closed + {cur});
        ExpandInv(q, popped, cur);
        var cg := s.g[cur];
        if cg > MaxSearchDistance(q.grid) {
          assert Run(q, s) == Run(q, closed);
          RunShape(q, closed);
        } else {
          var next := Relax(q, closed, cur, cg, GetNeighbors(q.grid, cur));
          assert Run(q, s) == Run(q, next);
          RunShape(q, next);
        }
      }
    }
  }

  /** The A* result: [start] when start == target; [] when the target is
      farther than MaxSearchDistance in Manhattan distance; otherwise [] or
      a path from start to target of 4-adjacent cells, each after the
      start valid and outside `avoid`, at most MaxSearchDistance + 2 long. */
  lemma AStarShape(q: Query)
    ensures q.start == q.target ==> AStar(q) == [q.start]
    ensures q.start != q.target && Manhattan(q.start, q.target) > MaxSearchDistance(q.grid) ==> AStar(q) == []
    ensures var path := AStar(q);
      path == [] || (IsPath(q, path) && (q.start != q.target ==> |path| <= MaxSearchDistance(q.grid) + 2))
  {
    if q.start != q.target && Heuristic(q, q.start) <= MaxSearchDistance(q.grid) {
      RunShape(q, Init(q));
    }
  }
}
