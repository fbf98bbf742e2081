/** The pixel geometry behind app/display.py: which cells each drawing
    routine covers, what it means for a canvas to have been painted over a
    set of cells, and Bresenham's line with its error term doubled so that
    it stays an integer. The canvas is the map of pixels written so far,
    keyed by (x, y) with x growing to the right and y growing downward. */
module Raster {

  type Pos = (int, int)

  /** An (r, g, b) colour as the source passes it around. */
  type Color = (int, int, int)

  type Pixels = map<Pos, Color>

  function Abs(v: int): (r: nat)
    ensures r == v || r == -v
  {
    if v < 0 then -v else v
  }

  /** One step from a toward b along one axis: +1, or -1 when b is not above a. */
  function Inc(a: int, b: int): (r: int)
    ensures r == 1 || r == -1
    ensures a < b <==> r == 1
  {
    if a < b then 1 else -1
  }

  /** a moved k steps in direction inc. */
  function Toward(a: int, inc: int, k: int): int
  {
    if inc == 1 then a + k else a - k
  }

  predicate OnScreen(width: int, height: int, p: Pos)
  {
    0 <= p.0 < width && 0 <= p.1 < height
  }

  // ---------------------------------------------------------------------
  // Filled shapes

  /** The shapes the fill routines scan: an axis-aligned rectangle (a square
      is one with equal sides), a disc, and the ring of draw_o whose stroke
      is cut out of a disc of the outer radius. */
  datatype Shape =
    | Rect(x: int, y: int, w: int, h: int)
    | Disc(cx: int, cy: int, radius: int)
    | Ring(rx: int, ry: int, outer: int, stroke: int)

  /** The range the two nested loops scan, as [x0, x1) × [y0, y1): the
      rectangle itself, or the offsets -r .. r around the centre. */
  function Box(s: Shape): (int, int, int, int)
  {
    match s
    case Rect(x, y, w, h) => (x, y, x + w, y + h)
    case Disc(cx, cy, r) => (cx - r, cy - r, cx + r + 1, cy + r + 1)
    case Ring(cx, cy, o, _) => (cx - o, cy - o, cx + o + 1, cy + o + 1)
  }

  /** The test a loop applies to a scanned cell (before clipping to the
      screen), together with the scan range itself. */
  predicate Covers(s: Shape, px: int, py: int)
  {
    match s
    case Rect(x, y, w, h) => x <= px < x + w && y <= py < y + h
    case Disc(cx, cy, r) =>
      var dx, dy := px - cx, py - cy;
      -r <= dx <= r && -r <= dy <= r && dx * dx + dy * dy < r * r
    case Ring(cx, cy, o, stroke) =>
      var dx, dy := px - cx, py - cy;
      var inner := o - stroke;
      var d2 := dx * dx + dy * dy;
      -o <= dx <= o && -o <= dy <= o && d2 < o * o && d2 >= inner * inner
  }

  /** The on-screen cells a shape covers. */
  ghost function Cells(s: Shape, width: int, height: int): set<Pos>
  {
    set px, py | 0 <= px < width && 0 <= py < height && Covers(s, px, py) :: (px, py)
  }

  lemma CellsIff(s: Shape, width: int, height: int, px: int, py: int)
    ensures (px, py) in Cells(s, width, height) <==> OnScreen(width, height, (px, py)) && Covers(s, px, py)
  {
    if (px, py) in Cells(s, width, height) {
      var qx, qy :| 0 <= qx < width && 0 <= qy < height && Covers(s, qx, qy) && (qx, qy) == (px, py);
    }
  }

  /** Every covered cell lies inside the scanned range. */
  lemma CoversInBox(s: Shape, px: int, py: int)
    requires Covers(s, px, py)
    ensures var (x0, y0, x1, y1) := Box(s); x0 <= px < x1 && y0 <= py < y1
  {
  }

  lemma SquareMono(a: int, b: int)
    requires 0 <= a <= b
    ensures a * a <= b * b
  {
    assert a * a <= a * b;
  }

  /** A square below r² has its root within [-r, r]. */
  lemma RootBound(a: int, r: int)
    requires r >= 0 && a * a < r * r
    ensures -r <= a <= r
  {
    if a > r {
      SquareMono(r, a);
    } else if a < -r {
      SquareMono(r, -a);
    }
  }

  /** For a non-negative radius the scan range adds nothing: draw_circle
      and overlay_circle cover exactly the cells with dx² + dy² < r². */
  lemma DiscCovers(cx: int, cy: int, r: int, px: int, py: int)
    requires r >= 0
    ensures Covers(Disc(cx, cy, r), px, py) <==> (px - cx) * (px - cx) + (py - cy) * (py - cy) < r * r
  {
    var dx, dy := px - cx, py - cy;
    var sx, sy := dx * dx, dy * dy;
    if sx + sy < r * r {
      assert sx >= 0 && sy >= 0;
      RootBound(dx, r);
      RootBound(dy, r);
    }
  }

  /** A negative or zero radius covers nothing: the scan range is empty or
      the distance test fails everywhere. */
  lemma DiscEmpty(cx: int, cy: int, r: int, px: int, py: int)
    requires r <= 0
    ensures !Covers(Disc(cx, cy, r), px, py)
  {
    var dx, dy := px - cx, py - cy;
    if -r <= dx <= r && -r <= dy <= r {
      assert dx == 0 && dy == 0;
    }
  }

  /** draw_o covers exactly the cells with (outer - stroke)² <= d² < outer²
      when the outer radius is non-negative, and so never more than the
      disc of the outer radius. */
  lemma RingCovers(cx: int, cy: int, outer: int, stroke: int, px: int, py: int)
    requires outer >= 0
    ensures var d2 := (px - cx) * (px - cx) + (py - cy) * (py - cy);
      Covers(Ring(cx, cy, outer, stroke), px, py) <==>
        (outer - stroke) * (outer - stroke) <= d2 < outer * outer
    ensures Covers(Ring(cx, cy, outer, stroke), px, py) ==> Covers(Disc(cx, cy, outer), px, py)
  {
    DiscCovers(cx, cy, outer, px, py);
  }

  // ---------------------------------------------------------------------
  // Painting

  /** before with every cell of cells set to color. */
  ghost function Paint(before: Pixels, cells: set<Pos>, color: Color): Pixels
  {
    map p | p in before.Keys + cells :: if p in cells then color else before[p]
  }

  /** after is before with every cell of cells set to color and nothing else changed. */
  ghost predicate Painted(before: Pixels, after: Pixels, cells: set<Pos>, color: Color)
  {
    after == Paint(before, cells, color)
  }

  /** What painting does pixel by pixel: the written pixels grow by the
      cells, the cells take the colour and every other pixel keeps its own. */
  lemma PaintedPixels(before: Pixels, after: Pixels, cells: set<Pos>, color: Color, p: Pos)
    requires Painted(before, after, cells, color)
    ensures p in after <==> p in before || p in cells
    ensures p in cells ==> after[p] == color
    ensures p !in cells && p in before ==> after[p] == before[p]
  {
  }

  /** Painting the same cells in the same colour a second time changes nothing. */
  lemma PaintedIdempotent(before: Pixels, a: Pixels, b: Pixels, cells: set<Pos>, color: Color)
    requires Painted(before, a, cells, color) && Painted(a, b, cells, color)
    ensures a == b
  {
    assert a.Keys == b.Keys;
  }

  /** Painting no cells changes nothing. */
  lemma PaintedNothing(before: Pixels, color: Color)
    ensures Painted(before, before, {}, color)
  {
  }

  /** Two paintings in one colour in a row are one painting of the union. */
  lemma PaintedCompose(a: Pixels, b: Pixels, c: Pixels, s: set<Pos>, t: set<Pos>, color: Color)
    requires Painted(a, b, s, color) && Painted(b, c, t, color)
    ensures Painted(a, c, s + t, color)
  {
    assert c.Keys == (a.Keys + (s + t));
  }

  /** The scan order of the fill loops: every row above row, then the cells
      of row left of col. */
  predicate Scanned(p: Pos, row: int, col: int)
  {
    p.1 < row || (p.1 == row && p.0 < col)
  }

  /** The canvas while a fill is in progress: the cells already scanned are painted. */
  ghost predicate PaintedUpTo(before: Pixels, after: Pixels, cells: set<Pos>, color: Color, row: int, col: int)
  {
    (forall p :: p in after <==> p in before || (p in cells && Scanned(p, row, col))) &&
    (forall p :: p in after ==> after[p] == if p in cells && Scanned(p, row, col) then color else before[p])
  }

  lemma PaintedUpToStart(before: Pixels, cells: set<Pos>, color: Color, row: int, col: int)
    requires forall p :: p in cells ==> !Scanned(p, row, col)
    ensures PaintedUpTo(before, before, cells, color, row, col)
  {
  }

  /** Moving the scan position over cells outside the set changes nothing. */
  lemma Rescan(before: Pixels, after: Pixels, cells: set<Pos>, color: Color, row: int, col: int, row': int, col': int)
    requires PaintedUpTo(before, after, cells, color, row, col)
    requires forall p :: p in cells ==> (Scanned(p, row, col) <==> Scanned(p, row', col'))
    ensures PaintedUpTo(before, after, cells, color, row', col')
  {
  }

  /** One cell of the scan: painted when it is in the set, skipped otherwise. */
  lemma ScanStep(before: Pixels, mid: Pixels, after: Pixels, cells: set<Pos>, color: Color, row: int, col: int)
    requires PaintedUpTo(before, mid, cells, color, row, col)
    requires (col, row) in cells ==> Painted(mid, after, {(col, row)}, color)
    requires (col, row) !in cells ==> after == mid
    ensures PaintedUpTo(before, after, cells, color, row, col + 1)
  {
  }

  lemma ScanDone(before: Pixels, after: Pixels, cells: set<Pos>, color: Color, row: int, col: int)
    requires PaintedUpTo(before, after, cells, color, row, col)
    requires forall p :: p in cells ==> Scanned(p, row, col)
    ensures Painted(before, after, cells, color)
  {
    assert after.Keys == before.Keys + cells;
  }

  /** Before a fill starts no covered cell has been scanned. */
  lemma FillStart(before: Pixels, s: Shape, width: int, height: int, color: Color)
    ensures PaintedUpTo(before, before, Cells(s, width, height), color, Box(s).1, Box(s).0)
  {
    forall p | p in Cells(s, width, height) ensures !Scanned(p, Box(s).1, Box(s).0) {
      CellsIff(s, width, height, p.0, p.1);
      CoversInBox(s, p.0, p.1);
    }
    PaintedUpToStart(before, Cells(s, width, height), color, Box(s).1, Box(s).0);
  }

  /** Past the right end of the range a row is finished: the scan moves to
      the start of the next row. */
  lemma FillRowDone(before: Pixels, after: Pixels, s: Shape, width: int, height: int, color: Color, row: int, col: int)
    requires PaintedUpTo(before, after, Cells(s, width, height), color, row, col)
    requires col >= Box(s).2
    ensures PaintedUpTo(before, after, Cells(s, width, height), color, row + 1, Box(s).0)
  {
    forall p | p in Cells(s, width, height) ensures Scanned(p, row, col) <==> Scanned(p, row + 1, Box(s).0) {
      CellsIff(s, width, height, p.0, p.1);
      CoversInBox(s, p.0, p.1);
    }
    Rescan(before, after, Cells(s, width, height), color, row, col, row + 1, Box(s).0);
  }

  /** Past the last row of the range the fill is complete. */
  lemma FillDone(before: Pixels, after: Pixels, s: Shape, width: int, height: int, color: Color, row: int)
    requires PaintedUpTo(before, after, Cells(s, width, height), color, row, Box(s).0)
    requires row >= Box(s).3
    ensures Painted(before, after, Cells(s, width, height), color)
  {
    forall p | p in Cells(s, width, height) ensures Scanned(p, row, Box(s).0) {
      CellsIff(s, width, height, p.0, p.1);
      CoversInBox(s, p.0, p.1);
    }
    ScanDone(before, after, Cells(s, width, height), color, row, Box(s).0);
  }

  // ---------------------------------------------------------------------
  // Bresenham's line

  /** One pass of the loop body: the error (twice the source's float error)
      drops by twice the minor extent; when it goes negative the minor axis
      steps and the error recovers by twice the major extent; the major axis
      always steps. horizontal says x is the major axis. */
  function Advance(x: int, y: int, e: int, xInc: int, yInc: int, dMaj: int, dMin: int, horizontal: bool): (int, int, int)
  {
    var e1 := e - 2 * dMin;
    var turn := e1 < 0;
    (if horizontal || turn then x + xInc else x,
     if !horizontal || turn then y + yInc else y,
     if turn then e1 + 2 * dMaj else e1)
  }

  /** The points at which n passes of the loop body start. */
  function Walk(x: int, y: int, e: int, n: nat, xInc: int, yInc: int, dMaj: int, dMin: int, horizontal: bool): (r: seq<Pos>)
    ensures |r| == n
    ensures n > 0 ==> r[0] == (x, y)
    decreases n
  {
    if n == 0 then []
    else
      var (nx, ny, ne) := Advance(x, y, e, xInc, yInc, dMaj, dMin, horizontal);
      [(x, y)] + Walk(nx, ny, ne, n - 1, xInc, yInc, dMaj, dMin, horizontal)
  }

  /** The point reached after n passes. */
  function WalkEnd(x: int, y: int, e: int, n: nat, xInc: int, yInc: int, dMaj: int, dMin: int, horizontal: bool): Pos
    decreases n
  {
    if n == 0 then (x, y)
    else
      var (nx, ny, ne) := Advance(x, y, e, xInc, yInc, dMaj, dMin, horizontal);
      WalkEnd(nx, ny, ne, n - 1, xInc, yInc, dMaj, dMin, horizontal)
  }

  /** The on-screen points among the first n passes, collected in the
      order the loop writes them. */
  ghost function WalkPixels(x: int, y: int, e: int, n: nat, xInc: int, yInc: int, dMaj: int, dMin: int,
                            horizontal: bool, width: int, height: int): set<Pos>
    decreases n
  {
    if n == 0 then {}
    else
      var (nx, ny, ne) := Advance(x, y, e, xInc, yInc, dMaj, dMin, horizontal);
      (if OnScreen(width, height, (x, y)) then {(x, y)} else {}) +
      WalkPixels(nx, ny, ne, n - 1, xInc, yInc, dMaj, dMin, horizontal, width, height)
  }

  /** One pass of a drawing loop moves the next pixel of the walk into
      the painted set. */
  lemma WalkPixelsStep(done: set<Pos>, total: set<Pos>, x: int, y: int, e: int, n: nat, xInc: int, yInc: int,
                       dMaj: int, dMin: int, horizontal: bool, width: int, height: int)
    requires n > 0
    requires done + WalkPixels(x, y, e, n, xInc, yInc, dMaj, dMin, horizontal, width, height) == total
    ensures var a := Advance(x, y, e, xInc, yInc, dMaj, dMin, horizontal);
      (done + (if OnScreen(width, height, (x, y)) then {(x, y)} else {})) +
      WalkPixels(a.0, a.1, a.2, n - 1, xInc, yInc, dMaj, dMin, horizontal, width, height) == total
  {
  }

  /** At the end of the walk the painted set is the whole of it. */
  lemma WalkPixelsDone(done: set<Pos>, total: set<Pos>, x: int, y: int, e: int, xInc: int, yInc: int,
                       dMaj: int, dMin: int, horizontal: bool, width: int, height: int)
    requires done + WalkPixels(x, y, e, 0, xInc, yInc, dMaj, dMin, horizontal, width, height) == total
    ensures done == total
  {
    assert done + {} == done;
  }

  /** The pixels of a walk are exactly its on-screen points. */
  lemma {:induction false} WalkPixelsIff(x: int, y: int, e: int, n: nat, xInc: int, yInc: int, dMaj: int, dMin: int,
                                         horizontal: bool, width: int, height: int, p: Pos)
    ensures p in WalkPixels(x, y, e, n, xInc, yInc, dMaj, dMin, horizontal, width, height) <==>
      p in Walk(x, y, e, n, xInc, yInc, dMaj, dMin, horizontal) && OnScreen(width, height, p)
    decreases n
  {
    if n > 0 {
      var (nx, ny, ne) := Advance(x, y, e, xInc, yInc, dMaj, dMin, horizontal);
      WalkPixelsIff(nx, ny, ne, n - 1, xInc, yInc, dMaj, dMin, horizontal, width, height, p);
    }
  }

  /** The points draw_line(x1, y1, x2, y2) visits, on screen or not, in order. */
  function LinePath(x1: int, y1: int, x2: int, y2: int): seq<Pos>
  {
    var dx, dy := Abs(x2 - x1), Abs(y2 - y1);
    if dx > dy then Walk(x1, y1, dx, dx, Inc(x1, x2), Inc(y1, y2), dx, dy, true)
    else Walk(x1, y1, dy, dy, Inc(x1, x2), Inc(y1, y2), dy, dx, false)
  }

  /** One step of a line: the major axis moves by its increment, the minor
      axis by its increment or not at all. */
  predicate LineStep(a: Pos, b: Pos, xInc: int, yInc: int, horizontal: bool)
  {
    if horizontal then b.0 == a.0 + xInc && (b.1 == a.1 || b.1 == a.1 + yInc)
    else b.1 == a.1 + yInc && (b.0 == a.0 || b.0 == a.0 + xInc)
  }

  function Major(p: Pos, horizontal: bool): int
  {
    if horizontal then p.0 else p.1
  }

  function Minor(p: Pos, horizontal: bool): int
  {
    if horizontal then p.1 else p.0
  }

  /** The walk moves one step at a time, and its i-th point lies i steps
      along the major axis. */
  lemma {:induction false} WalkShape(x: int, y: int, e: int, n: nat, xInc: int, yInc: int, dMaj: int, dMin: int, horizontal: bool)
    requires xInc == 1 || xInc == -1
    requires yInc == 1 || yInc == -1
    ensures var w := Walk(x, y, e, n, xInc, yInc, dMaj, dMin, horizontal);
      var inc := if horizontal then xInc else yInc;
      (forall i :: 0 <= i < n ==> Major(w[i], horizontal) == Toward(Major((x, y), horizontal), inc, i)) &&
      (forall i :: 0 <= i < n - 1 ==> LineStep(w[i], w[i + 1], xInc, yInc, horizontal)) &&
      (n > 0 ==> LineStep(w[n - 1], WalkEnd(x, y, e, n, xInc, yInc, dMaj, dMin, horizontal), xInc, yInc, horizontal)) &&
      Major(WalkEnd(x, y, e, n, xInc, yInc, dMaj, dMin, horizontal), horizontal) == Toward(Major((x, y), horizontal), inc, n)
    decreases n
  {
    if n > 0 {
      var (nx, ny, ne) := Advance(x, y, e, xInc, yInc, dMaj, dMin, horizontal);
      WalkShape(nx, ny, ne, n - 1, xInc, yInc, dMaj, dMin, horizontal);
      var w := Walk(x, y, e, n, xInc, yInc, dMaj, dMin, horizontal);
      var w' := Walk(nx, ny, ne, n - 1, xInc, yInc, dMaj, dMin, horizontal);
      assert w == [(x, y)] + w';
      assert LineStep((x, y), (nx, ny), xInc, yInc, horizontal);
      if n > 1 {
        assert w[1] == (nx, ny);
      }
    }
  }

  /** The error term after k major steps with m minor steps:
      0 <= e < 2·dMaj and e = dMaj·(1 + 2m) - 2k·dMin. */
  predicate ErrorInv(e: int, k: int, m: int, dMaj: int, dMin: int)
  {
    0 <= e < 2 * dMaj && e == dMaj * (1 + 2 * m) - 2 * k * dMin
  }

  /** One pass keeps the error invariant. */
  lemma ErrorStep(e: int, k: int, m: int, dMaj: int, dMin: int)
    requires 0 <= dMin <= dMaj && ErrorInv(e, k, m, dMaj, dMin)
    ensures var e1 := e - 2 * dMin;
      if e1 < 0 then ErrorInv(e1 + 2 * dMaj, k + 1, m + 1, dMaj, dMin)
      else ErrorInv(e1, k + 1, m, dMaj, dMin)
  {
    var a, b := dMaj * (1 + 2 * m), k * dMin;
    assert dMaj * (1 + 2 * (m + 1)) == a + 2 * dMaj;
    assert (k + 1) * dMin == b + dMin;
  }

  /** When the major axis is done the invariant pins the minor steps to dMin. */
  lemma ErrorEnd(e: int, m: int, dMaj: int, dMin: int)
    requires 0 < dMaj && ErrorInv(e, dMaj, m, dMaj, dMin)
    ensures m == dMin
  {
    var t := 1 + 2 * m - 2 * dMin;
    assert dMaj * t == dMaj * (1 + 2 * m) - 2 * dMaj * dMin;
    Pinned(dMaj, t);
  }

  lemma Pinned(d: int, t: int)
    requires d > 0 && 0 <= d * t < 2 * d
    ensures 0 <= t < 2
  {
  }

  /** Once the major axis has taken all dMaj steps, the error invariant puts
      the walk exactly dMin steps along the minor axis. */
  lemma {:induction false} WalkLands(x: int, y: int, e: int, n: nat, k: nat, m: nat, xInc: int, yInc: int, dMaj: int, dMin: int, horizontal: bool)
    requires 0 <= dMin <= dMaj && 0 < dMaj
    requires xInc == 1 || xInc == -1
    requires yInc == 1 || yInc == -1
    requires ErrorInv(e, k, m, dMaj, dMin) && k + n == dMaj
    ensures var inc := if horizontal then yInc else xInc;
      Minor(WalkEnd(x, y, e, n, xInc, yInc, dMaj, dMin, horizontal), horizontal) == Toward(Minor((x, y), horizontal), inc, dMin - m)
    decreases n
  {
    if n == 0 {
      ErrorEnd(e, m, dMaj, dMin);
    } else {
      ErrorStep(e, k, m, dMaj, dMin);
      var (nx, ny, ne) := Advance(x, y, e, xInc, yInc, dMaj, dMin, horizontal);
      if e - 2 * dMin < 0 {
        WalkLands(nx, ny, ne, n - 1, k + 1, m + 1, xInc, yInc, dMaj, dMin, horizontal);
      } else {
        WalkLands(nx, ny, ne, n - 1, k + 1, m, xInc, yInc, dMaj, dMin, horizontal);
      }
    }
  }

  /** The walk draw_line(x1, y1, x2, y2) takes, and the point it reaches:
      exactly (x2, y2). */
  lemma LineLands(x1: int, y1: int, x2: int, y2: int)
    ensures var dx, dy := Abs(x2 - x1), Abs(y2 - y1);
      var horizontal := dx > dy;
      var dMaj, dMin := if horizontal then dx else dy, if horizontal then dy else dx;
      LinePath(x1, y1, x2, y2) == Walk(x1, y1, dMaj, dMaj, Inc(x1, x2), Inc(y1, y2), dMaj, dMin, horizontal) &&
      WalkEnd(x1, y1, dMaj, dMaj, Inc(x1, x2), Inc(y1, y2), dMaj, dMin, horizontal) == (x2, y2)
  {
    var dx, dy := Abs(x2 - x1), Abs(y2 - y1);
    var xInc, yInc := Inc(x1, x2), Inc(y1, y2);
    var horizontal := dx > dy;
    var dMaj, dMin := if horizontal then dx else dy, if horizontal then dy else dx;
    WalkShape(x1, y1, dMaj, dMaj, xInc, yInc, dMaj, dMin, horizontal);
    if dMaj > 0 {
      WalkLands(x1, y1, dMaj, dMaj, 0, 0, xInc, yInc, dMaj, dMin, horizontal);
    }
  }

  /** draw_line(x1, y1, x2, y2): the walk runs max(|dx|, |dy|) passes, starts
      at (x1, y1), moves one step along the major axis and at most one
      along the minor axis per pass, and its last step lands exactly on
      (x2, y2). */
  lemma LineShape(x1: int, y1: int, x2: int, y2: int)
    ensures var path := LinePath(x1, y1, x2, y2);
      var dx, dy := Abs(x2 - x1), Abs(y2 - y1);
      var horizontal := dx > dy;
      |path| == (if horizontal then dx else dy) &&
      (|path| > 0 ==> path[0] == (x1, y1)) &&
      (forall i :: 0 <= i < |path| - 1 ==> LineStep(path[i], path[i + 1], Inc(x1, x2), Inc(y1, y2), horizontal)) &&
      (|path| > 0 ==> LineStep(path[|path| - 1], (x2, y2), Inc(x1, x2), Inc(y1, y2), horizontal))
  {
    var dx, dy := Abs(x2 - x1), Abs(y2 - y1);
    var horizontal := dx > dy;
    var dMaj, dMin := if horizontal then dx else dy, if horizontal then dy else dx;
    LineLands(x1, y1, x2, y2);
    WalkShape(x1, y1, dMaj, dMaj, Inc(x1, x2), Inc(y1, y2), dMaj, dMin, horizontal);
  }

  /** draw_line never visits its end point (x2, y2): the loop stops as soon
      as the major coordinate reaches it. */
  lemma LineAvoidsEnd(x1: int, y1: int, x2: int, y2: int)
    ensures (x2, y2) !in LinePath(x1, y1, x2, y2)
  {
    var dx, dy := Abs(x2 - x1), Abs(y2 - y1);
    var horizontal := dx > dy;
    var dMaj, dMin := if horizontal then dx else dy, if horizontal then dy else dx;
    LineLands(x1, y1, x2, y2);
    WalkShape(x1, y1, dMaj, dMaj, Inc(x1, x2), Inc(y1, y2), dMaj, dMin, horizontal);
  }

  /** Along a 45° diagonal every pass moves both axes: the error is dMaj
      before each pass and goes negative on each. */
  lemma {:induction false} WalkDiagonal(x: int, y: int, n: nat, xInc: int, yInc: int, d: int)
    requires d > 0
    requires xInc == 1 || xInc == -1
    requires yInc == 1 || yInc == -1
    ensures var w := Walk(x, y, d, n, xInc, yInc, d, d, false);
      forall i :: 0 <= i < n ==> w[i] == (Toward(x, xInc, i), Toward(y, yInc, i))
    decreases n
  {
    if n > 0 {
      assert Advance(x, y, d, xInc, yInc, d, d, false) == (x + xInc, y + yInc, d);
      WalkDiagonal(x + xInc, y + yInc, n - 1, xInc, yInc, d);
      var w := Walk(x, y, d, n, xInc, yInc, d, d, false);
      var w' := Walk(x + xInc, y + yInc, d, n - 1, xInc, yInc, d, d, false);
      assert w == [(x, y)] + w';
      forall i | 1 <= i < n ensures w[i] == (Toward(x, xInc, i), Toward(y, yInc, i)) {
        assert w[i] == w'[i - 1];
        assert w'[i - 1] == (Toward(x + xInc, xInc, i - 1), Toward(y + yInc, yInc, i - 1));
      }
    }
  }

  /** A line whose two extents are equal is drawn as the exact diagonal:
      its i-th point is i steps from (x1, y1) on both axes. */
  lemma LineDiagonal(x1: int, y1: int, x2: int, y2: int)
    requires Abs(x2 - x1) == Abs(y2 - y1)
    ensures var path := LinePath(x1, y1, x2, y2);
      |path| == Abs(x2 - x1) &&
      forall i :: 0 <= i < |path| ==> path[i] == (Toward(x1, Inc(x1, x2), i), Toward(y1, Inc(y1, y2), i))
  {
    var d := Abs(x2 - x1);
    if d > 0 {
      WalkDiagonal(x1, y1, d, Inc(x1, x2), Inc(y1, y2), d);
    }
  }

  /** The whole screen as a rectangle: background() paints every on-screen cell. */
  lemma ScreenCells(width: int, height: int, p: Pos)
    ensures p in Cells(Rect(0, 0, width, height), width, height) <==> OnScreen(width, height, p)
  {
    CellsIff(Rect(0, 0, width, height), width, height, p.0, p.1);
  }

  // ---------------------------------------------------------------------
  // The X of draw_x

  /** A line as its two end points (x1, y1, x2, y2). */
  type Segment = (int, int, int, int)

  /** Stroke k (0 to 3) of pass i of draw_x(cx, cy, size, lineWidth): the
      corners sit size // 2 up-left of the centre and size - size // 2 + 1
      down-right of it, and pass i shifts both diagonals by
      i - lineWidth // 2, once along x and once along y. */
  function XSegment(cx: int, cy: int, size: int, lineWidth: int, i: int, k: int): Segment
  {
    var halfUp := size / 2;
    var halfDown := size - halfUp + 1;
    var x1, y1 := cx - halfUp, cy - halfUp;
    var x2, y2 := cx + halfDown, cy + halfDown;
    var x3, y3 := cx + halfDown, cy - halfUp;
    var x4, y4 := cx - halfUp, cy + halfDown;
    var offset := i - lineWidth / 2;
    if k == 0 then (x1 + offset, y1, x2 + offset, y2)
    else if k == 1 then (x1, y1 + offset, x2, y2 + offset)
    else if k == 2 then (x3 - offset, y3, x4 - offset, y4)
    else (x3, y3 + offset, x4, y4 + offset)
  }

  /** The on-screen pixels of one line. */
  ghost function SegmentPixels(l: Segment, width: int, height: int): set<Pos>
  {
    var (x1, y1, x2, y2) := l;
    var dx, dy := Abs(x2 - x1), Abs(y2 - y1);
    if dx > dy then WalkPixels(x1, y1, dx, dx, Inc(x1, x2), Inc(y1, y2), dx, dy, true, width, height)
    else WalkPixels(x1, y1, dy, dy, Inc(x1, x2), Inc(y1, y2), dy, dx, false, width, height)
  }

  /** The pixels draw_line writes are the on-screen points of its path. */
  lemma SegmentPixelsIff(l: Segment, width: int, height: int, p: Pos)
    ensures p in SegmentPixels(l, width, height) <==> p in LinePath(l.0, l.1, l.2, l.3) && OnScreen(width, height, p)
  {
    var (x1, y1, x2, y2) := l;
    var dx, dy := Abs(x2 - x1), Abs(y2 - y1);
    if dx > dy {
      WalkPixelsIff(x1, y1, dx, dx, Inc(x1, x2), Inc(y1, y2), dx, dy, true, width, height, p);
    } else {
      WalkPixelsIff(x1, y1, dy, dy, Inc(x1, x2), Inc(y1, y2), dy, dx, false, width, height, p);
    }
  }

  /** The on-screen pixels of the four lines of pass i. */
  ghost function XPassPixels(cx: int, cy: int, size: int, lineWidth: int, i: int, width: int, height: int): set<Pos>
  {
    SegmentPixels(XSegment(cx, cy, size, lineWidth, i, 0), width, height) +
    SegmentPixels(XSegment(cx, cy, size, lineWidth, i, 1), width, height) +
    SegmentPixels(XSegment(cx, cy, size, lineWidth, i, 2), width, height) +
    SegmentPixels(XSegment(cx, cy, size, lineWidth, i, 3), width, height)
  }

  /** The on-screen pixels of the first n passes. */
  ghost function XPixels(cx: int, cy: int, size: int, lineWidth: int, n: int, width: int, height: int): set<Pos>
    decreases n
  {
    if n <= 0 then {}
    else XPixels(cx, cy, size, lineWidth, n - 1, width, height) + XPassPixels(cx, cy, size, lineWidth, n - 1, width, height)
  }

  /** The lines of pass i, from the corners draw_x computes once. */
  lemma XPassLines(cx: int, cy: int, size: int, lineWidth: int, i: int,
                   x1: int, y1: int, x2: int, y2: int, x3: int, y3: int, x4: int, y4: int,
                   a: Segment, b: Segment, c: Segment, d: Segment, width: int, height: int)
    requires var halfUp := size / 2; var halfDown := size - halfUp + 1;
      x1 == cx - halfUp && y1 == cy - halfUp && x2 == cx + halfDown && y2 == cy + halfDown &&
      x3 == cx + halfDown && y3 == cy - halfUp && x4 == cx - halfUp && y4 == cy + halfDown
    requires var offset := i - lineWidth / 2;
      a == (x1 + offset, y1, x2 + offset, y2) && b == (x1, y1 + offset, x2, y2 + offset) &&
      c == (x3 - offset, y3, x4 - offset, y4) && d == (x3, y3 + offset, x4, y4 + offset)
    ensures XPassPixels(cx, cy, size, lineWidth, i, width, height) ==
      SegmentPixels(a, width, height) + SegmentPixels(b, width, height) +
      SegmentPixels(c, width, height) + SegmentPixels(d, width, height)
  {
    assert XSegment(cx, cy, size, lineWidth, i, 0) == a;
    assert XSegment(cx, cy, size, lineWidth, i, 1) == b;
    assert XSegment(cx, cy, size, lineWidth, i, 2) == c;
    assert XSegment(cx, cy, size, lineWidth, i, 3) == d;
  }

  /** The number of passes of range(line_width). */
  function Passes(lineWidth: int): nat
  {
    if lineWidth < 0 then 0 else lineWidth
  }

  /** Painting pass i after the first i passes paints the first i + 1. */
  lemma XStep(cx: int, cy: int, size: int, lineWidth: int, i: int, width: int, height: int,
              before: Pixels, mid: Pixels, after: Pixels, color: Color)
    requires 0 <= i
    requires Painted(before, mid, XPixels(cx, cy, size, lineWidth, i, width, height), color)
    requires Painted(mid, after, XPassPixels(cx, cy, size, lineWidth, i, width, height), color)
    ensures Painted(before, after, XPixels(cx, cy, size, lineWidth, i + 1, width, height), color)
  {
    PaintedCompose(before, mid, after, XPixels(cx, cy, size, lineWidth, i, width, height),
      XPassPixels(cx, cy, size, lineWidth, i, width, height), color);
  }

  /** Every stroke of draw_x is an exact 45° diagonal of |size + 1| pixels:
      the first two of each pass run down and to the right, the other two
      down and to the left (for size >= 0). */
  lemma XStrokeDiagonal(cx: int, cy: int, size: int, lineWidth: int, i: int, k: int)
    requires 0 <= k < 4
    ensures var l := XSegment(cx, cy, size, lineWidth, i, k);
      var path := LinePath(l.0, l.1, l.2, l.3);
      |path| == Abs(size + 1) &&
      (forall j :: 0 <= j < |path| ==> path[j] == (Toward(l.0, Inc(l.0, l.2), j), Toward(l.1, Inc(l.1, l.3), j))) &&
      (size >= 0 ==> Inc(l.1, l.3) == 1 && Inc(l.0, l.2) == (if k < 2 then 1 else -1))
  {
    var l := XSegment(cx, cy, size, lineWidth, i, k);
    assert Abs(l.2 - l.0) == Abs(size + 1) == Abs(l.3 - l.1);
    LineDiagonal(l.0, l.1, l.2, l.3);
  }
}
