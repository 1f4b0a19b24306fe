/**
 * The drawing primitives of the Nokia 5110 driver, working in place on the
 * caller's 504-byte framebuffer.  Each one is proved to leave the framebuffer
 * equal to the old one with a described sequence of points plotted into it,
 * and, through LcdBitmap.PlotPaints, to switch on exactly the on-screen
 * points of that sequence.
 */
module LcdNokia {
  import opened LcdBitmap
  import opened LcdLine
  import opened LcdCircle

  /** LCD_nokia_set_pixel_in_bitmap: OR bit `y % 8` of byte `x + (y / 8) * 84`; ignore off-screen points. */
  method SetPixel(bitmap: array<bv8>, x: int, y: int)
    requires bitmap.Length == BitmapSize
    modifies bitmap
    ensures bitmap[..] == WithPixel(old(bitmap[..]), x, y)
  {
    if x < 0 || x >= ScreenW || y < 0 || y >= ScreenH {
      return;
    }
    var byteIndex := x + (y / 8) * ScreenW;
    var bitPosition := y % 8;
    bitmap[byteIndex] := bitmap[byteIndex] | ((1 as bv8) << bitPosition);
  }

  /**
   * LCD_nokia_draw_line: integer Bresenham from (x0, y0) to (x1, y1), both ends
   * included.  The loop's constants are LineSetup, its variables (x0, y0, err)
   * are the LineState, and the two error-term updates that end the loop body
   * are LineStep.
   */
  method DrawLine(bitmap: array<bv8>, x0: int, y0: int, x1: int, y1: int)
    requires bitmap.Length == BitmapSize
    modifies bitmap
    ensures bitmap[..] == Plot(old(bitmap[..]), LinePoints(x0, y0, x1, y1))
    ensures Painted(old(bitmap[..]), bitmap[..], iset p | p in LinePoints(x0, y0, x1, y1))
  {
    var c := LineSetup(x0, y0, x1, y1);
    var s := LineStart(x0, y0, x1, y1);
    LineStartInv(x0, y0, x1, y1);
    // A bound on the steps still to take; LineTrace(c, s, n) are the points still to plot.
    ghost var n: nat := Abs(x1 - x0) + Abs(y1 - y0);
    ghost var target := Plot(old(bitmap[..]), LinePoints(x0, y0, x1, y1));
    assert LinePoints(x0, y0, x1, y1) == LineTrace(c, s, n);
    while true
      invariant LineInv(c, s) && n >= Rx(c, s) + Ry(c, s)
      invariant Plot(bitmap[..], LineTrace(c, s, n)) == target
      decreases Rx(c, s) + Ry(c, s)
    {
      ghost var before := bitmap[..];
      SetPixel(bitmap, s.x, s.y);
      if s.x == x1 && s.y == y1 {
        LineLastPixel(before, c, s, n);
        break;
      }
      LineNextPixel(before, c, s, n);
      s, n := LineStep(c, s), n - 1;
    }
    PlotPaints(old(bitmap[..]), LinePoints(x0, y0, x1, y1));
  }

  /** At the target, plotting the rest of the line is plotting the current point. */
  lemma LineLastPixel(b: seq<bv8>, c: LineConfig, s: LineState, n: nat)
    requires |b| == BitmapSize && s.x == c.x1 && s.y == c.y1
    ensures Plot(b, LineTrace(c, s, n)) == WithPixel(b, s.x, s.y)
  {
    PlotSnoc(b, [], Point(s.x, s.y));
  }

  /** Before the target, plotting the rest of the line is plotting the current point and then the rest after one step. */
  lemma LineNextPixel(b: seq<bv8>, c: LineConfig, s: LineState, n: nat)
    requires |b| == BitmapSize && LineInv(c, s) && n >= Rx(c, s) + Ry(c, s) && !(s.x == c.x1 && s.y == c.y1)
    ensures LineInv(c, LineStep(c, s)) && n - 1 >= Rx(c, LineStep(c, s)) + Ry(c, LineStep(c, s))
    ensures Rx(c, LineStep(c, s)) + Ry(c, LineStep(c, s)) < Rx(c, s) + Ry(c, s)
    ensures Plot(b, LineTrace(c, s, n)) == Plot(WithPixel(b, s.x, s.y), LineTrace(c, LineStep(c, s), n - 1))
  {
    LineStepInv(c, s);
    PlotCons(b, Point(s.x, s.y), LineTrace(c, LineStep(c, s), n - 1));
  }

  /** The four sides LCD_nokia_draw_rectangle draws, clockwise from (x, y). */
  function RectanglePoints(x: int, y: int, width: int, height: int): (r: seq<Point>)
    ensures |r| >= 4
  {
    LinePoints(x, y, x + width, y) + LinePoints(x + width, y, x + width, y + height)
      + LinePoints(x + width, y + height, x, y + height) + LinePoints(x, y + height, x, y)
  }

  /** p lies on the outline of the rectangle with corners (x, y) and (x + width, y + height). */
  predicate OnOutline(x: int, y: int, width: int, height: int, p: Point)
  {
    || ((p.y == y || p.y == y + height) && Between(x, p.x, x + width))
    || ((p.x == x || p.x == x + width) && Between(y, p.y, y + height))
  }

  /**
   * The rectangle's sides are straight: its points are exactly the outline of
   * the box from (x, y) to (x + width, y + height), corners included (so the
   * outline spans width + 1 columns and height + 1 rows).
   */
  lemma RectangleOutline(x: int, y: int, width: int, height: int)
    ensures forall p :: p in RectanglePoints(x, y, width, height) <==> OnOutline(x, y, width, height, p)
  {
    HorizontalLine(x, x + width, y);
    VerticalLine(x + width, y, y + height);
    HorizontalLine(x + width, x, y + height);
    VerticalLine(x, y + height, y);
    var a, b := LinePoints(x, y, x + width, y), LinePoints(x + width, y, x + width, y + height);
    var c, d := LinePoints(x + width, y + height, x, y + height), LinePoints(x, y + height, x, y);
    assert RectanglePoints(x, y, width, height) == a + b + c + d;
    forall p
      ensures p in a + b + c + d <==> OnOutline(x, y, width, height, p)
    {
      assert p in a + b + c + d <==> p in a || p in b || p in c || p in d;
    }
  }

  /** LCD_nokia_draw_rectangle: the outline, as four lines. */
  method DrawRectangle(bitmap: array<bv8>, x: int, y: int, width: int, height: int)
    requires bitmap.Length == BitmapSize
    modifies bitmap
    ensures bitmap[..] == Plot(old(bitmap[..]), RectanglePoints(x, y, width, height))
    ensures Painted(old(bitmap[..]), bitmap[..], iset p | OnOutline(x, y, width, height, p))
  {
    ghost var b0 := bitmap[..];
    DrawLine(bitmap, x, y, x + width, y);
    ghost var b1 := bitmap[..];
    DrawLine(bitmap, x + width, y, x + width, y + height);
    ghost var b2 := bitmap[..];
    DrawLine(bitmap, x + width, y + height, x, y + height);
    ghost var b3 := bitmap[..];
    DrawLine(bitmap, x, y + height, x, y);
    RectanglePlot(x, y, width, height, b0, b1, b2, b3, bitmap[..]);
  }

  /** The four lines one after another plot RectanglePoints, which lights exactly the outline. */
  lemma RectanglePlot(x: int, y: int, width: int, height: int, b0: seq<bv8>, b1: seq<bv8>, b2: seq<bv8>, b3: seq<bv8>, b4: seq<bv8>)
    requires |b0| == BitmapSize
    requires b1 == Plot(b0, LinePoints(x, y, x + width, y))
    requires b2 == Plot(b1, LinePoints(x + width, y, x + width, y + height))
    requires b3 == Plot(b2, LinePoints(x + width, y + height, x, y + height))
    requires b4 == Plot(b3, LinePoints(x, y + height, x, y))
    ensures b4 == Plot(b0, RectanglePoints(x, y, width, height))
    ensures Painted(b0, b4, iset p | OnOutline(x, y, width, height, p))
  {
    var a := LinePoints(x, y, x + width, y);
    var c := LinePoints(x + width, y, x + width, y + height);
    var d := LinePoints(x + width, y + height, x, y + height);
    var e := LinePoints(x, y + height, x, y);
    PlotAppend(b0, a, c);
    PlotAppend(b0, a + c, d);
    PlotAppend(b0, a + c + d, e);
    var r := RectanglePoints(x, y, width, height);
    PlotPaints(b0, r);
    RectangleOutline(x, y, width, height);
    PaintedSame(b0, b4, iset p | p in r, iset p | OnOutline(x, y, width, height, p));
  }

  /** Column i from row y down, n points: (i, y), ..., (i, y + n - 1); none when n <= 0. */
  function ColumnPoints(i: int, y: int, n: int): (r: seq<Point>)
    ensures |r| == if n <= 0 then 0 else n
    decreases n
  {
    if n <= 0 then [] else ColumnPoints(i, y, n - 1) + [Point(i, y + n - 1)]
  }

  /** The points LCD_nokia_draw_filled_rectangle plots: column by column, top to bottom. */
  function FilledPoints(x: int, y: int, width: int, height: int): (r: seq<Point>)
    decreases width
  {
    if width <= 0 then [] else FilledPoints(x, y, width - 1, height) + ColumnPoints(x + width - 1, y, height)
  }

  lemma {:induction false} ColumnMembers(i: int, y: int, n: int)
    ensures forall p :: p in ColumnPoints(i, y, n) <==> p.x == i && y <= p.y < y + n
    decreases n
  {
    if n > 0 {
      ColumnMembers(i, y, n - 1);
      assert ColumnPoints(i, y, n) == ColumnPoints(i, y, n - 1) + [Point(i, y + n - 1)];
    }
  }

  /** The filled rectangle is the half-open box [x, x + width) x [y, y + height); empty when either side is not positive. */
  lemma {:induction false} FilledMembers(x: int, y: int, width: int, height: int)
    ensures forall p :: p in FilledPoints(x, y, width, height) <==> x <= p.x < x + width && y <= p.y < y + height
    decreases width
  {
    if width > 0 {
      FilledMembers(x, y, width - 1, height);
      ColumnMembers(x + width - 1, y, height);
      assert FilledPoints(x, y, width, height) == FilledPoints(x, y, width - 1, height) + ColumnPoints(x + width - 1, y, height);
    }
  }

  /** LCD_nokia_draw_filled_rectangle: every pixel of [x, x + width) x [y, y + height). */
  method DrawFilledRectangle(bitmap: array<bv8>, x: int, y: int, width: int, height: int)
    requires bitmap.Length == BitmapSize
    modifies bitmap
    ensures bitmap[..] == Plot(old(bitmap[..]), FilledPoints(x, y, width, height))
    ensures Painted(old(bitmap[..]), bitmap[..], iset p: Point | x <= p.x < x + width && y <= p.y < y + height)
    ensures width <= 0 || height <= 0 ==> bitmap[..] == old(bitmap[..])
  {
    ghost var b0 := bitmap[..];
    var i := x;
    while i < x + width
      invariant x <= i && (i <= x + width || i == x)
      invariant bitmap[..] == Plot(b0, FilledPoints(x, y, i - x, height))
    {
      var j := y;
      FilledColumnStart(x, y, i, height);
      while j < y + height
        invariant y <= j && (j <= y + height || j == y)
        invariant bitmap[..] == Plot(b0, FilledPoints(x, y, i - x, height) + ColumnPoints(i, y, j - y))
      {
        FilledNextPixel(b0, x, y, i, j, height);
        SetPixel(bitmap, i, j);
        j := j + 1;
      }
      FilledColumnDone(x, y, i, j, height);
      i := i + 1;
    }
    FilledPainted(b0, bitmap[..], x, y, i, width, height);
  }

  lemma FilledColumnStart(x: int, y: int, i: int, height: int)
    ensures FilledPoints(x, y, i - x, height) + ColumnPoints(i, y, 0) == FilledPoints(x, y, i - x, height)
  {
    assert ColumnPoints(i, y, 0) == [];
  }

  /** Pixel (i, j) comes next in the column-by-column order. */
  lemma FilledNextPixel(b: seq<bv8>, x: int, y: int, i: int, j: int, height: int)
    requires |b| == BitmapSize && y <= j
    ensures Plot(b, FilledPoints(x, y, i - x, height) + ColumnPoints(i, y, j + 1 - y))
         == WithPixel(Plot(b, FilledPoints(x, y, i - x, height) + ColumnPoints(i, y, j - y)), i, j)
  {
    var done, col := FilledPoints(x, y, i - x, height), ColumnPoints(i, y, j - y);
    assert ColumnPoints(i, y, j + 1 - y) == col + [Point(i, j)];
    assert done + (col + [Point(i, j)]) == (done + col) + [Point(i, j)];
    PlotSnoc(b, done + col, Point(i, j));
  }

  /** A finished column completes the next column of the rectangle. */
  lemma FilledColumnDone(x: int, y: int, i: int, j: int, height: int)
    requires x <= i && y <= j && (j == y + height || (height <= 0 && j == y))
    ensures FilledPoints(x, y, i + 1 - x, height) == FilledPoints(x, y, i - x, height) + ColumnPoints(i, y, j - y)
  {
    assert ColumnPoints(i, y, j - y) == ColumnPoints(i, y, height);
  }

  lemma FilledPainted(b0: seq<bv8>, b: seq<bv8>, x: int, y: int, i: int, width: int, height: int)
    requires |b0| == BitmapSize && x <= i && (i == x + width || (width <= 0 && i == x))
    requires b == Plot(b0, FilledPoints(x, y, i - x, height))
    ensures b == Plot(b0, FilledPoints(x, y, width, height))
    ensures Painted(b0, b, iset p: Point | x <= p.x < x + width && y <= p.y < y + height)
    ensures width <= 0 || height <= 0 ==> b == b0
  {
    assert FilledPoints(x, y, i - x, height) == FilledPoints(x, y, width, height);
    PlotPaints(b0, FilledPoints(x, y, width, height));
    FilledMembers(x, y, width, height);
    PaintedSame(b0, b, iset p | p in FilledPoints(x, y, width, height), iset p: Point | x <= p.x < x + width && y <= p.y < y + height);
    if width <= 0 || height <= 0 {
      PaintedNothing(b0, b, iset p: Point | x <= p.x < x + width && y <= p.y < y + height);
    }
  }

  /**
   * LCD_nokia_draw_circle: the midpoint circle of the given radius around
   * (x0, y0).  The loop's variables (f, ddF_x, ddF_y, x, y) are the
   * CircleState and the updates at the head of the loop body are CircleStep;
   * xa .. yd name the eight coordinates the body plots.
   */
  method DrawCircle(bitmap: array<bv8>, x0: int, y0: int, radius: int)
    requires bitmap.Length == BitmapSize
    modifies bitmap
    ensures bitmap[..] == Plot(old(bitmap[..]), CirclePoints(x0, y0, radius))
    ensures Painted(old(bitmap[..]), bitmap[..], iset p | p in CirclePoints(x0, y0, radius))
  {
    var s := CircleStart(radius);
    var top, bottom, right, left := y0 + radius, y0 - radius, x0 + radius, x0 - radius;
    SetPixel(bitmap, x0, top);
    SetPixel(bitmap, x0, bottom);
    SetPixel(bitmap, right, y0);
    SetPixel(bitmap, left, y0);
    CircleAxisPlot(old(bitmap[..]), x0, y0, radius, top, bottom, right, left);

    while s.x < s.y
      invariant Plot(bitmap[..], OctantPlot(x0, y0, MidpointTrace(s))) == Plot(old(bitmap[..]), CirclePoints(x0, y0, radius))
      decreases s.y - s.x
    {
      ghost var before := bitmap[..];
      ghost var prev := s;
      s := CircleStep(s);
      var xa, xb, ya, yb := x0 + s.x, x0 - s.x, y0 + s.y, y0 - s.y;
      var xc, xd, yc, yd := x0 + s.y, x0 - s.y, y0 + s.x, y0 - s.x;
      SetPixel(bitmap, xa, ya);
      SetPixel(bitmap, xb, ya);
      SetPixel(bitmap, xa, yb);
      SetPixel(bitmap, xb, yb);
      SetPixel(bitmap, xc, yc);
      SetPixel(bitmap, xd, yc);
      SetPixel(bitmap, xc, yd);
      SetPixel(bitmap, xd, yd);
      CirclePassPlot(before, x0, y0, prev, xa, xb, ya, yb, xc, xd, yc, yd);
    }
    PlotPaints(old(bitmap[..]), CirclePoints(x0, y0, radius));
  }

  /** The four axis pixels, then the passes of the loop, plot CirclePoints. */
  lemma CircleAxisPlot(b: seq<bv8>, cx: int, cy: int, radius: int, top: int, bottom: int, right: int, left: int)
    requires |b| == BitmapSize
    requires top == cy + radius && bottom == cy - radius && right == cx + radius && left == cx - radius
    ensures Plot(WithPixel(WithPixel(WithPixel(WithPixel(b, cx, top), cx, bottom), right, cy), left, cy),
                 OctantPlot(cx, cy, MidpointTrace(CircleStart(radius))))
         == Plot(b, CirclePoints(cx, cy, radius))
  {
    var axis := [Point(cx, top), Point(cx, bottom), Point(right, cy), Point(left, cy)];
    assert axis == AxisPoints(cx, cy, radius);
    PlotFour(b, cx, top, cx, bottom, right, cy, left, cy);
    PlotAppend(b, axis, OctantPlot(cx, cy, MidpointTrace(CircleStart(radius))));
  }

  /**
   * One pass of the loop, from state s, plots the eight reflections of the
   * new offset (xa - cx, ya - cy) in the order of the loop body.
   */
  lemma CirclePassPlot(b: seq<bv8>, cx: int, cy: int, s: CircleState,
                       xa: int, xb: int, ya: int, yb: int, xc: int, xd: int, yc: int, yd: int)
    requires |b| == BitmapSize && s.x < s.y
    requires var o := CircleStep(s);
      && xa == cx + o.x && xb == cx - o.x && ya == cy + o.y && yb == cy - o.y
      && xc == cx + o.y && xd == cx - o.y && yc == cy + o.x && yd == cy - o.x
    ensures Plot(b, OctantPlot(cx, cy, MidpointTrace(s)))
         == Plot(WithPixel(WithPixel(WithPixel(WithPixel(WithPixel(WithPixel(WithPixel(WithPixel(b,
              xa, ya), xb, ya), xa, yb), xb, yb), xc, yc), xd, yc), xc, yd), xd, yd),
            OctantPlot(cx, cy, MidpointTrace(CircleStep(s))))
  {
    var o := CircleStep(s);
    var g := Octants(cx, cy, Point(o.x, o.y));
    var rest := OctantPlot(cx, cy, MidpointTrace(o));
    assert MidpointTrace(s) == [Point(o.x, o.y)] + MidpointTrace(o);
    assert OctantPlot(cx, cy, MidpointTrace(s)) == g + rest;
    PlotAppend(b, g, rest);
    var first := [Point(xa, ya), Point(xb, ya), Point(xa, yb), Point(xb, yb)];
    var second := [Point(xc, yc), Point(xd, yc), Point(xc, yd), Point(xd, yd)];
    assert g == first + second;
    PlotAppend(b, first, second);
    PlotFour(b, xa, ya, xb, ya, xa, yb, xb, yb);
    PlotFour(Plot(b, first), xc, yc, xd, yc, xc, yd, xd, yd);
  }

  /** Plotting four points is four single-pixel updates in a row. */
  lemma PlotFour(b: seq<bv8>, x0: int, y0: int, x1: int, y1: int, x2: int, y2: int, x3: int, y3: int)
    requires |b| == BitmapSize
    ensures Plot(b, [Point(x0, y0), Point(x1, y1), Point(x2, y2), Point(x3, y3)])
         == WithPixel(WithPixel(WithPixel(WithPixel(b, x0, y0), x1, y1), x2, y2), x3, y3)
  {
    var p0, p1, p2, p3 := Point(x0, y0), Point(x1, y1), Point(x2, y2), Point(x3, y3);
    assert [] + [p0] == [p0] && [p0] + [p1] == [p0, p1] && [p0, p1] + [p2] == [p0, p1, p2] && [p0, p1, p2] + [p3] == [p0, p1, p2, p3];
    PlotSnoc(b, [], p0);
    PlotSnoc(b, [p0], p1);
    PlotSnoc(b, [p0, p1], p2);
    PlotSnoc(b, [p0, p1, p2], p3);
  }

  /** C's conversion of a float to int: the fractional part is dropped, rounding toward zero. */
  function Truncate(r: real): (i: int)
    ensures r >= 0.0 ==> i as real <= r < i as real + 1.0
    ensures r < 0.0 ==> i as real - 1.0 < r <= i as real
  {
    if r >= 0.0 then r.Floor else -((-r).Floor)
  }
  /** value clamped first to minValue from below, then to maxValue from above, in the source's order. */
  function Clamp(value: real, minValue: int, maxValue: int): (c: real)
    ensures minValue <= maxValue ==> minValue as real <= c <= maxValue as real
    ensures minValue > maxValue ==> c == maxValue as real
    ensures minValue <= maxValue && minValue as real <= value <= maxValue as real ==> c == value
    ensures value <= minValue as real <= maxValue as real ==> c == minValue as real
    ensures minValue <= maxValue && maxValue as real <= value ==> c == maxValue as real
  {
    var v := if value < minValue as real then minValue as real else value;
    if v > maxValue as real then maxValue as real else v
  }
  /** The clamped value's offset a, out of a span of d, as a real row count in [0, 47]. */
  function Scale(a: real, d: real): (q: real)
    requires d != 0.0
    ensures q * d == a * (ScreenH - 1) as real
  {
    a * (ScreenH - 1) as real / d
  }
  /**
   * LCD_nokia_map_value_to_pixel: the row at which a plot draws value on a
   * scale from minValue (bottom row, 47) to maxValue (top row, 0).  With
   * minValue > maxValue the clamps send every value to maxValue.
   */
  function MapValueToPixel(value: real, minValue: int, maxValue: int): (p: int)
    ensures minValue == maxValue ==> p == ScreenH / 2
  {
    if minValue == maxValue then ScreenH / 2
    else
      var v := Clamp(value, minValue, maxValue);
      var pixel := Truncate(Scale(v - minValue as real, (maxValue - minValue) as real));
      ScreenH - 1 - pixel
  }
  /** Scale maps [0, d] onto [0, 47], 0 to 0 and d to 47. */
  lemma ScaleRange(a: real, d: real)
    requires d != 0.0
    ensures 0.0 <= a <= d ==> 0.0 <= Scale(a, d) <= 47.0
    ensures a == 0.0 ==> Scale(a, d) == 0.0
    ensures a == d ==> Scale(a, d) == 47.0
  {
    assert (ScreenH - 1) as real == 47.0;
    ProductBounds(Scale(a, d), a, d);
  }
  /** q is a * 47 / d, read off from q * d == 47 * a. */
  lemma ProductBounds(q: real, a: real, d: real)
    requires d != 0.0 && q * d == a * 47.0
    ensures 0.0 <= a <= d ==> 0.0 <= q <= 47.0
    ensures a == 0.0 ==> q == 0.0
    ensures a == d ==> q == 47.0
  {
    if 0.0 <= a <= d {
      ScaleMul(q, 0.0, d);
      ScaleMul(47.0, q, d);
    }
    if a == d {
      assert (q - 47.0) * d == 0.0;
    }
  }
  /** Multiplying by a positive d keeps order. */
  lemma ScaleMul(u: real, w: real, d: real)
    requires d > 0.0
    ensures u <= w ==> u * d <= w * d
    ensures u < w ==> u * d < w * d
  {
  }
  /** The row is on screen, the ends of the scale go to the bottom and top rows, and a reversed scale gives row 0. */
  lemma MapValueRange(value: real, minValue: int, maxValue: int)
    ensures minValue < maxValue ==> 0 <= MapValueToPixel(value, minValue, maxValue) <= ScreenH - 1
    ensures minValue < maxValue && value <= minValue as real ==> MapValueToPixel(value, minValue, maxValue) == ScreenH - 1
    ensures minValue < maxValue && value >= maxValue as real ==> MapValueToPixel(value, minValue, maxValue) == 0
    ensures minValue > maxValue ==> MapValueToPixel(value, minValue, maxValue) == 0
  {
    if minValue != maxValue {
      ScaleRange(Clamp(value, minValue, maxValue) - minValue as real, (maxValue - minValue) as real);
    }
  }
  /**
   * For minValue < maxValue the row is 47 - k for the k with
   * k * (maxValue - minValue) <= 47 * a < (k + 1) * (maxValue - minValue),
   * a being the clamped value's offset above minValue: the scaled value rounded down.
   */
  lemma MapValueScaled(value: real, minValue: int, maxValue: int)
    requires minValue < maxValue
    ensures var k := ScreenH - 1 - MapValueToPixel(value, minValue, maxValue);
      var d := (maxValue - minValue) as real;
      var a := Clamp(value, minValue, maxValue) - minValue as real;
      k as real * d <= (ScreenH - 1) as real * a < (k + 1) as real * d
  {
    var d := (maxValue - minValue) as real;
    var a := Clamp(value, minValue, maxValue) - minValue as real;
    ScaleRange(a, d);
    var q := Scale(a, d);
    assert (ScreenH - 1) as real == 47.0;
    FloorBracket(q, a, d, Truncate(q));
  }
  /** k <= q < k + 1 scales to k * d <= 47 * a < (k + 1) * d when q * d == 47 * a. */
  lemma FloorBracket(q: real, a: real, d: real, k: int)
    requires d > 0.0 && q * d == a * 47.0 && k as real <= q < (k + 1) as real
    ensures k as real * d <= 47.0 * a < (k + 1) as real * d
  {
    ScaleMul(k as real, q, d);
    ScaleMul(q, (k + 1) as real, d);
  }
  /** Scaling preserves order. */
  lemma ScaleMonotone(a1: real, a2: real, d: real)
    requires d > 0.0 && a1 <= a2
    ensures Scale(a1, d) <= Scale(a2, d)
  {
    assert (ScreenH - 1) as real == 47.0;
    ProductOrder(Scale(a1, d), Scale(a2, d), a1, a2, d);
  }
  lemma ProductOrder(q1: real, q2: real, a1: real, a2: real, d: real)
    requires d > 0.0 && a1 <= a2 && q1 * d == a1 * 47.0 && q2 * d == a2 * 47.0
    ensures q1 <= q2
  {
    if q1 > q2 {
      ScaleMul(q2, q1, d);
    }
  }
  /** Truncation is monotone on non-negative reals. */
  lemma TruncateMonotone(r1: real, r2: real)
    requires 0.0 <= r1 <= r2
    ensures Truncate(r1) <= Truncate(r2)
  {
  }
  /** A larger value is drawn on the same row or higher up (a smaller row number). */
  lemma MapValueMonotone(v1: real, v2: real, minValue: int, maxValue: int)
    requires v1 <= v2
    ensures MapValueToPixel(v2, minValue, maxValue) <= MapValueToPixel(v1, minValue, maxValue)
  {
    if minValue < maxValue {
      var d := (maxValue - minValue) as real;
      var a1 := Clamp(v1, minValue, maxValue) - minValue as real;
      var a2 := Clamp(v2, minValue, maxValue) - minValue as real;
      ScaleRange(a1, d);
      ScaleMonotone(a1, a2, d);
      TruncateMonotone(Scale(a1, d), Scale(a2, d));
    } else if minValue > maxValue {
      MapValueRange(v1, minValue, maxValue);
      MapValueRange(v2, minValue, maxValue);
    }
  }
}
