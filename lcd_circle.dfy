/**
 * The midpoint circle of LCD_nokia_draw_circle, as the sequence of points it
 * plots: the four axis points at distance r from the centre, then, for every
 * pass of the loop, the loop's offset (x, y) reflected into all eight octants.
 * LcdNokia.DrawCircle is proved to plot exactly this sequence.
 */
module LcdCircle {
  import opened LcdBitmap

  /** The loop's variables, named as in the source. */
  datatype CircleState = CircleState(f: int, ddFx: int, ddFy: int, x: int, y: int)

  function CircleStart(radius: int): CircleState
  {
    CircleState(1 - radius, 0, -2 * radius, 0, radius)
  }

  /** One pass through the loop body, before its eight plots. */
  function CircleStep(s: CircleState): (n: CircleState)
  {
    var y, ddFy, f := if s.f >= 0 then s.y - 1 else s.y,
                      if s.f >= 0 then s.ddFy + 2 else s.ddFy,
                      if s.f >= 0 then s.f + s.ddFy + 2 else s.f;
    CircleState(f + s.ddFx + 2 + 1, s.ddFx + 2, ddFy, s.x + 1, y)
  }

  /**
   * The offsets (x, y) the loop plots from state s on, one per pass. The loop
   * runs while x < y; x grows by one each pass and y drops by at most one, so
   * y - x shrinks by one or two a pass and the loop makes between (y - x) / 2
   * and y - x passes.
   */
  function MidpointTrace(s: CircleState): (t: seq<Point>)
    ensures |t| <= if s.x < s.y then s.y - s.x else 0
    ensures s.y - s.x <= 2 * |t|
    decreases s.y - s.x
  {
    if s.x < s.y then
      var n := CircleStep(s);
      [Point(n.x, n.y)] + MidpointTrace(n)
    else []
  }

  /** The eight reflections of offset o around (cx, cy), in the order the loop body plots them. */
  function Octants(cx: int, cy: int, o: Point): (r: seq<Point>)
    ensures |r| == 8
  {
    [ Point(cx + o.x, cy + o.y), Point(cx - o.x, cy + o.y),
      Point(cx + o.x, cy - o.y), Point(cx - o.x, cy - o.y),
      Point(cx + o.y, cy + o.x), Point(cx - o.y, cy + o.x),
      Point(cx + o.y, cy - o.x), Point(cx - o.y, cy - o.x) ]
  }

  /** The four points plotted before the loop. */
  function AxisPoints(cx: int, cy: int, radius: int): seq<Point>
  {
    [Point(cx, cy + radius), Point(cx, cy - radius), Point(cx + radius, cy), Point(cx - radius, cy)]
  }

  /** The points plotted by the passes with offsets t, in order. */
  function OctantPlot(cx: int, cy: int, t: seq<Point>): (r: seq<Point>)
    ensures |r| == 8 * |t|
    decreases |t|
  {
    if t == [] then [] else Octants(cx, cy, t[0]) + OctantPlot(cx, cy, t[1..])
  }

  /** Everything LCD_nokia_draw_circle(bitmap, cx, cy, radius) plots, in order. */
  function CirclePoints(cx: int, cy: int, radius: int): seq<Point>
  {
    AxisPoints(cx, cy, radius) + OctantPlot(cx, cy, MidpointTrace(CircleStart(radius)))
  }

  /**
   * Each pass moves x one column right and y down by at most one row; every
   * offset plotted stays in the octant the loop sweeps (0 < x <= y + 1).
   */
  lemma {:induction false} MidpointTraceSteps(s: CircleState)
    ensures var t := MidpointTrace(s);
      && (t != [] ==> t[0].x == s.x + 1 && (t[0].y == s.y || t[0].y == s.y - 1))
      && (forall k :: 0 <= k < |t| - 1 ==> t[k + 1].x == t[k].x + 1 && (t[k + 1].y == t[k].y || t[k + 1].y == t[k].y - 1))
      && (forall k :: 0 <= k < |t| ==> s.x < t[k].x <= t[k].y + 1)
    decreases s.y - s.x
  {
    if s.x < s.y {
      var n := CircleStep(s);
      MidpointTraceSteps(n);
      var t, rest := MidpointTrace(s), MidpointTrace(n);
      assert t == [Point(n.x, n.y)] + rest;
      forall k | 0 <= k < |t| - 1
        ensures t[k + 1].x == t[k].x + 1 && (t[k + 1].y == t[k].y || t[k + 1].y == t[k].y - 1)
      {
        if k > 0 {
          assert t[k] == rest[k - 1] && t[k + 1] == rest[k];
        }
      }
      forall k | 0 <= k < |t|
        ensures s.x < t[k].x <= t[k].y + 1
      {
        if k > 0 {
          assert t[k] == rest[k - 1];
        }
      }
    }
  }

  /**
   * pts is closed under mirroring about the vertical and the horizontal line
   * through (cx, cy) and about the diagonal through it; together these generate
   * all eight symmetries of the square.
   */
  predicate ClosedUnderReflection(cx: int, cy: int, pts: seq<Point>)
  {
    forall p :: p in pts ==>
      && Point(2 * cx - p.x, p.y) in pts
      && Point(p.x, 2 * cy - p.y) in pts
      && Point(cx + (p.y - cy), cy + (p.x - cx)) in pts
  }

  lemma {:induction false} OctantPlotSymmetric(cx: int, cy: int, t: seq<Point>)
    ensures ClosedUnderReflection(cx, cy, OctantPlot(cx, cy, t))
    decreases |t|
  {
    if t != [] {
      OctantPlotSymmetric(cx, cy, t[1..]);
      OctantsSymmetric(cx, cy, t[0]);
      ClosedUnion(cx, cy, Octants(cx, cy, t[0]), OctantPlot(cx, cy, t[1..]));
    }
  }

  lemma OctantsSymmetric(cx: int, cy: int, o: Point)
    ensures ClosedUnderReflection(cx, cy, Octants(cx, cy, o))
  {
    var g := Octants(cx, cy, o);
    forall p | p in g
      ensures Point(2 * cx - p.x, p.y) in g
      ensures Point(p.x, 2 * cy - p.y) in g
      ensures Point(cx + (p.y - cy), cy + (p.x - cx)) in g
    {
      var k :| 0 <= k < 8 && g[k] == p;
      if k == 0 { assert g[1] == Point(2 * cx - p.x, p.y) && g[2] == Point(p.x, 2 * cy - p.y) && g[4] == Point(cx + (p.y - cy), cy + (p.x - cx)); }
      else if k == 1 { assert g[0] == Point(2 * cx - p.x, p.y) && g[3] == Point(p.x, 2 * cy - p.y) && g[6] == Point(cx + (p.y - cy), cy + (p.x - cx)); }
      else if k == 2 { assert g[3] == Point(2 * cx - p.x, p.y) && g[0] == Point(p.x, 2 * cy - p.y) && g[5] == Point(cx + (p.y - cy), cy + (p.x - cx)); }
      else if k == 3 { assert g[2] == Point(2 * cx - p.x, p.y) && g[1] == Point(p.x, 2 * cy - p.y) && g[7] == Point(cx + (p.y - cy), cy + (p.x - cx)); }
      else if k == 4 { assert g[5] == Point(2 * cx - p.x, p.y) && g[6] == Point(p.x, 2 * cy - p.y) && g[0] == Point(cx + (p.y - cy), cy + (p.x - cx)); }
      else if k == 5 { assert g[4] == Point(2 * cx - p.x, p.y) && g[7] == Point(p.x, 2 * cy - p.y) && g[2] == Point(cx + (p.y - cy), cy + (p.x - cx)); }
      else if k == 6 { assert g[7] == Point(2 * cx - p.x, p.y) && g[4] == Point(p.x, 2 * cy - p.y) && g[1] == Point(cx + (p.y - cy), cy + (p.x - cx)); }
      else { assert g[6] == Point(2 * cx - p.x, p.y) && g[5] == Point(p.x, 2 * cy - p.y) && g[3] == Point(cx + (p.y - cy), cy + (p.x - cx)); }
    }
  }

  lemma ClosedUnion(cx: int, cy: int, a: seq<Point>, b: seq<Point>)
    requires ClosedUnderReflection(cx, cy, a) && ClosedUnderReflection(cx, cy, b)
    ensures ClosedUnderReflection(cx, cy, a + b)
  {
    forall p | p in a + b
      ensures Point(2 * cx - p.x, p.y) in a + b
      ensures Point(p.x, 2 * cy - p.y) in a + b
      ensures Point(cx + (p.y - cy), cy + (p.x - cx)) in a + b
    {
      if p in a {
        assert Point(2 * cx - p.x, p.y) in a && Point(p.x, 2 * cy - p.y) in a;
        assert Point(cx + (p.y - cy), cy + (p.x - cx)) in a;
      } else {
        assert Point(2 * cx - p.x, p.y) in b && Point(p.x, 2 * cy - p.y) in b;
        assert Point(cx + (p.y - cy), cy + (p.x - cx)) in b;
      }
    }
  }

  /**
   * The plotted circle is symmetric about the vertical and horizontal lines
   * through its centre and about the diagonal: the 8-way symmetry of the
   * midpoint algorithm.
   */
  lemma CircleSymmetric(cx: int, cy: int, radius: int)
    ensures ClosedUnderReflection(cx, cy, CirclePoints(cx, cy, radius))
  {
    var axis := AxisPoints(cx, cy, radius);
    var rest := OctantPlot(cx, cy, MidpointTrace(CircleStart(radius)));
    OctantPlotSymmetric(cx, cy, MidpointTrace(CircleStart(radius)));
    AxisSymmetric(cx, cy, radius);
    ClosedUnion(cx, cy, axis, rest);
  }

  lemma AxisSymmetric(cx: int, cy: int, radius: int)
    ensures ClosedUnderReflection(cx, cy, AxisPoints(cx, cy, radius))
  {
    var a := AxisPoints(cx, cy, radius);
    forall p | p in a
      ensures Point(2 * cx - p.x, p.y) in a
      ensures Point(p.x, 2 * cy - p.y) in a
      ensures Point(cx + (p.y - cy), cy + (p.x - cx)) in a
    {
      var k :| 0 <= k < 4 && a[k] == p;
      if k == 0 { assert a[0] == Point(2 * cx - p.x, p.y) && a[1] == Point(p.x, 2 * cy - p.y) && a[2] == Point(cx + (p.y - cy), cy + (p.x - cx)); }
      else if k == 1 { assert a[1] == Point(2 * cx - p.x, p.y) && a[0] == Point(p.x, 2 * cy - p.y) && a[3] == Point(cx + (p.y - cy), cy + (p.x - cx)); }
      else if k == 2 { assert a[3] == Point(2 * cx - p.x, p.y) && a[2] == Point(p.x, 2 * cy - p.y) && a[0] == Point(cx + (p.y - cy), cy + (p.x - cx)); }
      else { assert a[2] == Point(2 * cx - p.x, p.y) && a[3] == Point(p.x, 2 * cy - p.y) && a[1] == Point(cx + (p.y - cy), cy + (p.x - cx)); }
    }
  }
}
