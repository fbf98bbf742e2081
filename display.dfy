/** The drawing layer of app/display.py: a Display object that paints into
    the matrix library's frame canvas, plus a one-bit overlay buffer that is
    marked by shapes and then rendered onto the canvas in one colour. */
module Display {
  import opened Raster

  /** The frame canvas of the matrix library, reduced to the pixels written
      on it so far. */
  class FrameCanvas {
    var pixels: Pixels

    constructor()
      ensures pixels == map[]
    {
      pixels := map[];
    }

    /** SetPixel(x, y, r, g, b) */
    method SetPixel(x: int, y: int, color: Color)
      modifies this
      ensures Painted(old(pixels), pixels, {(x, y)}, color)
    {
      pixels := pixels[(x, y) := color];
    }
  }

  class Display {
    const width: int
    const height: int
    const canvas: FrameCanvas
    /** overlay[y, x] is 1 where a shape has marked the cell, 0 elsewhere. */
    const overlay: array2<int>
    /** 1 is additive, 0 subtractive. */
    var overlayType: int
    var overlayColor: Color

    ghost predicate Valid()
      reads this
    {
      0 <= width && 0 <= height && overlay.Length0 == height && overlay.Length1 == width
    }

    /** The object built over a canvas of the given size, with an empty
        overlay in additive mode and black as its colour. */
    constructor(width: int, height: int)
      requires 0 <= width && 0 <= height
      ensures Valid() && this.width == width && this.height == height
      ensures fresh(canvas) && canvas.pixels == map[]
      ensures fresh(overlay) && forall y, x :: 0 <= y < height && 0 <= x < width ==> overlay[y, x] == 0
      ensures overlayType == 1 && overlayColor == (0, 0, 0)
    {
      this.width := width;
      this.height := height;
      canvas := new FrameCanvas();
      overlay := new int[height, width]((_, _) => 0);
      overlayType := 1;
      overlayColor := (0, 0, 0);
    }

    // ---- Base drawing ----

    /** The two nested scans shared by the fill routines: every cell of the
        shape's range, row by row, is painted when the shape covers it and
        it is on screen. */
    method Fill(s: Shape, color: Color)
      requires Valid()
      modifies canvas
      ensures Painted(old(canvas.pixels), canvas.pixels, Cells(s, width, height), color)
    {
      var (x0, y0, x1, y1) := Box(s);
      ghost var before := canvas.pixels;
      FillStart(before, s, width, height, color);
      var yy := y0;
      while yy < y1
        invariant y0 <= yy && (yy <= y1 || yy == y0)
        invariant PaintedUpTo(before, canvas.pixels, Cells(s, width, height), color, yy, x0)
      {
        FillRow(s, yy, color, before);
        yy := yy + 1;
      }
      FillDone(before, canvas.pixels, s, width, height, color, yy);
    }

    /** One row of the fill scan. */
    method FillRow(s: Shape, yy: int, color: Color, ghost before: Pixels)
      requires Valid()
      requires PaintedUpTo(before, canvas.pixels, Cells(s, width, height), color, yy, Box(s).0)
      modifies canvas
      ensures PaintedUpTo(before, canvas.pixels, Cells(s, width, height), color, yy + 1, Box(s).0)
    {
      var (x0, _, x1, _) := Box(s);
      ghost var cells := Cells(s, width, height);
      var xx := x0;
      while xx < x1
        invariant x0 <= xx && (xx <= x1 || xx == x0)
        invariant PaintedUpTo(before, canvas.pixels, cells, color, yy, xx)
      {
        ghost var mid := canvas.pixels;
        CellsIff(s, width, height, xx, yy);
        if Covers(s, xx, yy) && 0 <= xx < width && 0 <= yy < height {
          canvas.SetPixel(xx, yy, color);
        }
        ScanStep(before, mid, canvas.pixels, cells, color, yy, xx);
        xx := xx + 1;
      }
      FillRowDone(before, canvas.pixels, s, width, height, color, yy, xx);
    }

    /** background(color): every on-screen pixel. The source scans column
        by column; all writes carry one colour, so the order is immaterial. */
    method Background(color: Color)
      requires Valid()
      modifies canvas
      ensures Painted(old(canvas.pixels), canvas.pixels, Cells(Rect(0, 0, width, height), width, height), color)
    {
      Fill(Rect(0, 0, width, height), color);
    }

    method Clear()
      requires Valid()
      modifies canvas
      ensures Painted(old(canvas.pixels), canvas.pixels, Cells(Rect(0, 0, width, height), width, height), (0, 0, 0))
    {
      Background((0, 0, 0));
    }

    /** set_pixel passes any coordinates through to the canvas unclipped. */
    method SetPixel(x: int, y: int, color: Color)
      modifies canvas
      ensures Painted(old(canvas.pixels), canvas.pixels, {(x, y)}, color)
    {
      canvas.SetPixel(x, y, color);
    }

    method DrawSquare(x: int, y: int, size: int, color: Color)
      requires Valid()
      modifies canvas
      ensures Painted(old(canvas.pixels), canvas.pixels, Cells(Rect(x, y, size, size), width, height), color)
    {
      Fill(Rect(x, y, size, size), color);
    }

    method DrawRectangle(x: int, y: int, w: int, h: int, color: Color)
      requires Valid()
      modifies canvas
      ensures Painted(old(canvas.pixels), canvas.pixels, Cells(Rect(x, y, w, h), width, height), color)
    {
      Fill(Rect(x, y, w, h), color);
    }

    method DrawCircle(cx: int, cy: int, radius: int, color: Color)
      requires Valid()
      modifies canvas
      ensures Painted(old(canvas.pixels), canvas.pixels, Cells(Disc(cx, cy, radius), width, height), color)
    {
      Fill(Disc(cx, cy, radius), color);
    }

    /** draw_o: the ring between the outer radius and outer - stroke. */
    method DrawO(cx: int, cy: int, outer: int, stroke: int, color: Color)
      requires Valid()
      modifies canvas
      ensures Painted(old(canvas.pixels), canvas.pixels, Cells(Ring(cx, cy, outer, stroke), width, height), color)
    {
      Fill(Ring(cx, cy, outer, stroke), color);
    }

    /** draw_line: Bresenham's walk from (x1, y1) toward (x2, y2), writing
        each visited point that is on screen. The x-major and y-major loops
        of the source are the two methods below. */
    method DrawLine(x1: int, y1: int, x2: int, y2: int, color: Color)
      requires Valid()
      modifies canvas
      ensures Painted(old(canvas.pixels), canvas.pixels, SegmentPixels((x1, y1, x2, y2), width, height), color)
    {
      var dx, dy := Abs(x2 - x1), Abs(y2 - y1);
      if dx > dy {
        DrawShallow(x1, y1, x2, y2, color);
      } else {
        DrawSteep(x1, y1, x2, y2, color);
      }
    }

    /** The loop for lines more horizontal than vertical: x steps every
        pass. e holds twice the source's error, which starts at dx / 2. */
    method DrawShallow(x1: int, y1: int, x2: int, y2: int, color: Color)
      requires Valid() && Abs(x2 - x1) > Abs(y2 - y1)
      modifies canvas
      ensures Painted(old(canvas.pixels), canvas.pixels, WalkPixels(x1, y1, Abs(x2 - x1), Abs(x2 - x1),
        Inc(x1, x2), Inc(y1, y2), Abs(x2 - x1), Abs(y2 - y1), true, width, height), color)
    {
      var dx, dy := Abs(x2 - x1), Abs(y2 - y1);
      var xInc := if x1 < x2 then 1 else -1;
      var yInc := if y1 < y2 then 1 else -1;
      ghost var total := WalkPixels(x1, y1, dx, dx, xInc, yInc, dx, dy, true, width, height);
      ghost var before := canvas.pixels;
      ghost var done: set<Pos> := {};
      PaintedNothing(before, color);
      var x, y, e: int := x1, y1, dx;
      ghost var k: nat := 0;
      while x != x2
        invariant k <= dx
        invariant (xInc == 1 ==> x2 - x == dx - k) && (xInc == -1 ==> x - x2 == dx - k)
        invariant done + WalkPixels(x, y, e, dx - k, xInc, yInc, dx, dy, true, width, height) == total
        invariant Painted(before, canvas.pixels, done, color)
        decreases dx - k
      {
        WalkPixelsStep(done, total, x, y, e, dx - k, xInc, yInc, dx, dy, true, width, height);
        ghost var next := Advance(x, y, e, xInc, yInc, dx, dy, true);
        DrawPoint(x, y, color, done, before);
        done := done + (if OnScreen(width, height, (x, y)) then {(x, y)} else {});
        e := e - 2 * dy;
        if e < 0 {
          y := y + yInc;
          e := e + 2 * dx;
        }
        x := x + xInc;
        k := k + 1;
        assert x == next.0 && y == next.1 && e == next.2;
      }
      WalkPixelsDone(done, total, x, y, e, xInc, yInc, dx, dy, true, width, height);
    }

    /** The loop for the other lines: y steps every pass, from e = dy. */
    method DrawSteep(x1: int, y1: int, x2: int, y2: int, color: Color)
      requires Valid() && Abs(x2 - x1) <= Abs(y2 - y1)
      modifies canvas
      ensures Painted(old(canvas.pixels), canvas.pixels, WalkPixels(x1, y1, Abs(y2 - y1), Abs(y2 - y1),
        Inc(x1, x2), Inc(y1, y2), Abs(y2 - y1), Abs(x2 - x1), false, width, height), color)
    {
      var dx, dy := Abs(x2 - x1), Abs(y2 - y1);
      var xInc := if x1 < x2 then 1 else -1;
      var yInc := if y1 < y2 then 1 else -1;
      ghost var total := WalkPixels(x1, y1, dy, dy, xInc, yInc, dy, dx, false, width, height);
      ghost var before := canvas.pixels;
      ghost var done: set<Pos> := {};
      PaintedNothing(before, color);
      var x, y, e: int := x1, y1, dy;
      ghost var k: nat := 0;
      while y != y2
        invariant k <= dy
        invariant (yInc == 1 ==> y2 - y == dy - k) && (yInc == -1 ==> y - y2 == dy - k)
        invariant done + WalkPixels(x, y, e, dy - k, xInc, yInc, dy, dx, false, width, height) == total
        invariant Painted(before, canvas.pixels, done, color)
        decreases dy - k
      {
        WalkPixelsStep(done, total, x, y, e, dy - k, xInc, yInc, dy, dx, false, width, height);
        ghost var next := Advance(x, y, e, xInc, yInc, dy, dx, false);
        DrawPoint(x, y, color, done, before);
        done := done + (if OnScreen(width, height, (x, y)) then {(x, y)} else {});
        e := e - 2 * dx;
        if e < 0 {
          x := x + xInc;
          e := e + 2 * dy;
        }
        y := y + yInc;
        k := k + 1;
        assert x == next.0 && y == next.1 && e == next.2;
      }
      WalkPixelsDone(done, total, x, y, e, xInc, yInc, dy, dx, false, width, height);
    }

    /** The clipped write at the head of both Bresenham loops. */
    method DrawPoint(x: int, y: int, color: Color, ghost done: set<Pos>, ghost before: Pixels)
      requires Painted(before, canvas.pixels, done, color)
      modifies canvas
      ensures Painted(before, canvas.pixels, done + (if OnScreen(width, height, (x, y)) then {(x, y)} else {}), color)
    {
      ghost var mid := canvas.pixels;
      if 0 <= x < width && 0 <= y < height {
        canvas.SetPixel(x, y, color);
        PaintedCompose(before, mid, canvas.pixels, done, {(x, y)}, color);
      } else {
        assert done + {} == done;
      }
    }

    /** draw_x(center_x, center_y, height, line_width): the four corners,
        then line_width passes of four lines each. */
    method DrawX(cx: int, cy: int, size: int, lineWidth: int, color: Color)
      requires Valid()
      modifies canvas
      ensures Painted(old(canvas.pixels), canvas.pixels, XPixels(cx, cy, size, lineWidth, Passes(lineWidth), width, height), color)
    {
      var halfUp := size / 2;
      var halfDown := size - halfUp + 1;
      var x1, y1 := cx - halfUp, cy - halfUp;
      var x2, y2 := cx + halfDown, cy + halfDown;
      var x3, y3 := cx + halfDown, cy - halfUp;
      var x4, y4 := cx - halfUp, cy + halfDown;
      ghost var before := canvas.pixels;
      PaintedNothing(before, color);
      var i := 0;
      while i < lineWidth
        invariant 0 <= i <= Passes(lineWidth)
        invariant Painted(before, canvas.pixels, XPixels(cx, cy, size, lineWidth, i, width, height), color)
      {
        ghost var mid := canvas.pixels;
        DrawXPassAt(cx, cy, size, lineWidth, i, x1, y1, x2, y2, x3, y3, x4, y4, color);
        XStep(cx, cy, size, lineWidth, i, width, height, before, mid, canvas.pixels, color);
        i := i + 1;
      }
      assert i == Passes(lineWidth);
    }

    /** Pass i of draw_x: the offset and the four lines, from the corners. */
    method DrawXPassAt(cx: int, cy: int, size: int, lineWidth: int, i: int,
                       x1: int, y1: int, x2: int, y2: int, x3: int, y3: int, x4: int, y4: int, color: Color)
      requires Valid()
      requires var halfUp := size / 2; var halfDown := size - halfUp + 1;
        x1 == cx - halfUp && y1 == cy - halfUp && x2 == cx + halfDown && y2 == cy + halfDown &&
        x3 == cx + halfDown && y3 == cy - halfUp && x4 == cx - halfUp && y4 == cy + halfDown
      modifies canvas
      ensures Painted(old(canvas.pixels), canvas.pixels, XPassPixels(cx, cy, size, lineWidth, i, width, height), color)
    {
      var offset := i - lineWidth / 2;
      var a, b := (x1 + offset, y1, x2 + offset, y2), (x1, y1 + offset, x2, y2 + offset);
      var c, d := (x3 - offset, y3, x4 - offset, y4), (x3, y3 + offset, x4, y4 + offset);
      XPassLines(cx, cy, size, lineWidth, i, x1, y1, x2, y2, x3, y3, x4, y4, a, b, c, d, width, height);
      DrawXPass(a, b, c, d, color);
    }

    /** One pass of draw_x's stroke-width loop: its four lines in order. */
    method DrawXPass(a: Segment, b: Segment, c: Segment, d: Segment, color: Color)
      requires Valid()
      modifies canvas
      ensures Painted(old(canvas.pixels), canvas.pixels,
        SegmentPixels(a, width, height) + SegmentPixels(b, width, height) +
        SegmentPixels(c, width, height) + SegmentPixels(d, width, height), color)
    {
      ghost var before := canvas.pixels;
      DrawLine(a.0, a.1, a.2, a.3, color);
      DrawSegment(b, color, before, SegmentPixels(a, width, height));
      DrawSegment(c, color, before, SegmentPixels(a, width, height) + SegmentPixels(b, width, height));
      DrawSegment(d, color, before, SegmentPixels(a, width, height) + SegmentPixels(b, width, height) + SegmentPixels(c, width, height));
    }

    /** A draw_line call of draw_x after earlier ones: the painted set grows
        by the line's pixels. */
    method DrawSegment(l: Segment, color: Color, ghost before: Pixels, ghost cells: set<Pos>)
      requires Valid() && Painted(before, canvas.pixels, cells, color)
      modifies canvas
      ensures Painted(before, canvas.pixels, cells + SegmentPixels(l, width, height), color)
    {
      ghost var mid := canvas.pixels;
      DrawLine(l.0, l.1, l.2, l.3, color);
      PaintedCompose(before, mid, canvas.pixels, cells, SegmentPixels(l, width, height), color);
    }

    // ---- Overlay drawing ----

    method OverlaySetColor(color: Color)
      modifies this
      ensures overlayColor == color && overlayType == old(overlayType)
    {
      overlayColor := color;
    }

    method OverlaySetType(kind: int)
      modifies this
      ensures overlayType == kind && overlayColor == old(overlayColor)
    {
      overlayType := kind;
    }

    /** overlay_set_pixel: marks the one cell when it is on screen. */
    method OverlaySetPixel(x: int, y: int)
      requires Valid()
      modifies overlay
      ensures forall py, px :: 0 <= py < height && 0 <= px < width ==>
        overlay[py, px] == if px == x && py == y then 1 else old(overlay[py, px])
    {
      if 0 <= x < width && 0 <= y < height {
        overlay[y, x] := 1;
      }
    }

    /** The scan shared by the overlay shapes: marks every on-screen cell
        the shape covers and leaves every other cell as it was. */
    method Mark(s: Shape)
      requires Valid()
      modifies overlay
      ensures forall py, px :: 0 <= py < height && 0 <= px < width ==>
        overlay[py, px] == if Covers(s, px, py) then 1 else old(overlay[py, px])
    {
      var (x0, y0, x1, y1) := Box(s);
      forall py, px | Covers(s, px, py) ensures !Scanned((px, py), y0, x0) {
        CoversInBox(s, px, py);
      }
      var yy := y0;
      while yy < y1
        invariant y0 <= yy && (yy <= y1 || yy == y0)
        invariant forall py, px :: 0 <= py < height && 0 <= px < width ==>
          overlay[py, px] == if Covers(s, px, py) && Scanned((px, py), yy, x0) then 1 else old(overlay[py, px])
      {
        var xx := x0;
        while xx < x1
          invariant x0 <= xx && (xx <= x1 || xx == x0)
          invariant forall py, px :: 0 <= py < height && 0 <= px < width ==>
            overlay[py, px] == if Covers(s, px, py) && Scanned((px, py), yy, xx) then 1 else old(overlay[py, px])
        {
          if Covers(s, xx, yy) && 0 <= xx < width && 0 <= yy < height {
            overlay[yy, xx] := 1;
          }
          xx := xx + 1;
        }
        forall py, px | Covers(s, px, py) ensures Scanned((px, py), yy, xx) <==> Scanned((px, py), yy + 1, x0) {
          CoversInBox(s, px, py);
        }
        yy := yy + 1;
      }
      forall py, px | Covers(s, px, py) ensures Scanned((px, py), yy, x0) {
        CoversInBox(s, px, py);
      }
    }

    method OverlayCircle(cx: int, cy: int, radius: int)
      requires Valid()
      modifies overlay
      ensures forall py, px :: 0 <= py < height && 0 <= px < width ==>
        overlay[py, px] == if Covers(Disc(cx, cy, radius), px, py) then 1 else old(overlay[py, px])
    {
      Mark(Disc(cx, cy, radius));
    }

    method OverlaySquare(x: int, y: int, size: int)
      requires Valid()
      modifies overlay
      ensures forall py, px :: 0 <= py < height && 0 <= px < width ==>
        overlay[py, px] == if Covers(Rect(x, y, size, size), px, py) then 1 else old(overlay[py, px])
    {
      Mark(Rect(x, y, size, size));
    }

    method OverlayRectangle(x: int, y: int, w: int, h: int)
      requires Valid()
      modifies overlay
      ensures forall py, px :: 0 <= py < height && 0 <= px < width ==>
        overlay[py, px] == if Covers(Rect(x, y, w, h), px, py) then 1 else old(overlay[py, px])
    {
      Mark(Rect(x, y, w, h));
    }

    /** Whether overlay_render writes cell (px, py): a marked cell in
        additive mode, an unmarked one in subtractive mode. */
    ghost predicate Lit(px: int, py: int)
      reads this, overlay
    {
      0 <= py < overlay.Length0 && 0 <= px < overlay.Length1 &&
      if overlay[py, px] != 0 then overlayType == 1 else overlayType == 0
    }

    ghost function LitCells(): set<Pos>
      reads this, overlay
    {
      set px, py | 0 <= px < width && 0 <= py < height && Lit(px, py) :: (px, py)
    }

    lemma LitIff(px: int, py: int)
      ensures (px, py) in LitCells() <==> OnScreen(width, height, (px, py)) && Lit(px, py)
    {
      if (px, py) in LitCells() {
        var qx, qy :| 0 <= qx < width && 0 <= qy < height && Lit(qx, qy) && (qx, qy) == (px, py);
      }
    }

    /** overlay_render: writes the overlay colour to every cell the
        overlay lights, scanning row by row. */
    method OverlayRender()
      requires Valid()
      modifies canvas
      ensures Painted(old(canvas.pixels), canvas.pixels, LitCells(), overlayColor)
    {
      var color := overlayColor;
      ghost var cells := LitCells();
      ghost var before := canvas.pixels;
      forall p | p in cells ensures OnScreen(width, height, p) {
        LitIff(p.0, p.1);
      }
      PaintedUpToStart(before, cells, color, 0, 0);
      var y := 0;
      while y < height
        invariant 0 <= y <= height
        invariant PaintedUpTo(before, canvas.pixels, cells, color, y, 0)
      {
        RenderRow(y, color, cells, before);
        y := y + 1;
      }
      ScanDone(before, canvas.pixels, cells, color, y, 0);
    }

    /** One row of overlay_render. */
    method RenderRow(y: int, color: Color, ghost cells: set<Pos>, ghost before: Pixels)
      requires Valid() && 0 <= y < height && cells == LitCells()
      requires forall p :: p in cells ==> OnScreen(width, height, p)
      requires PaintedUpTo(before, canvas.pixels, cells, color, y, 0)
      modifies canvas
      ensures PaintedUpTo(before, canvas.pixels, cells, color, y + 1, 0)
    {
      var x := 0;
      while x < width
        invariant 0 <= x <= width
        invariant PaintedUpTo(before, canvas.pixels, cells, color, y, x)
      {
        RenderCell(x, y, color, cells, before);
        x := x + 1;
      }
      Rescan(before, canvas.pixels, cells, color, y, x, y + 1, 0);
    }

    /** One cell of overlay_render: lit in the overlay colour when the mode
        and the mark agree, left alone otherwise. */
    method RenderCell(x: int, y: int, color: Color, ghost cells: set<Pos>, ghost before: Pixels)
      requires Valid() && 0 <= y < height && 0 <= x < width && cells == LitCells()
      requires PaintedUpTo(before, canvas.pixels, cells, color, y, x)
      modifies canvas
      ensures PaintedUpTo(before, canvas.pixels, cells, color, y, x + 1)
    {
      ghost var mid := canvas.pixels;
      LitIff(x, y);
      if overlay[y, x] != 0 {
        if overlayType == 1 {
          canvas.SetPixel(x, y, color);
        }
      } else {
        if overlayType == 0 {
          canvas.SetPixel(x, y, color);
        }
      }
      ScanStep(before, mid, canvas.pixels, cells, color, y, x);
    }

    /** The three modes of overlay_render: additive lights exactly the
        marked cells, subtractive exactly the unmarked ones, and any other
        type lights nothing. */
    lemma RenderModes(px: int, py: int)
      requires Valid() && OnScreen(width, height, (px, py))
      ensures overlayType == 1 ==> ((px, py) in LitCells() <==> overlay[py, px] != 0)
      ensures overlayType == 0 ==> ((px, py) in LitCells() <==> overlay[py, px] == 0)
      ensures overlayType != 0 && overlayType != 1 ==> (px, py) !in LitCells()
    {
      LitIff(px, py);
    }
  }
}
