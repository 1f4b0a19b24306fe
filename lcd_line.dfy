/**
 * The integer Bresenham line of LCD_nokia_draw_line, as the sequence of points
 * its loop visits.  LcdNokia.DrawLine is proved to plot exactly these points;
 * the lemmas here say what that sequence is: it runs from the first endpoint to
 * the second, each step moves to an 8-neighbour towards the target, it stays in
 * the bounding box of the endpoints, and an axis-aligned line is the plain
 * segment.
 */
module LcdLine {
  import opened LcdBitmap

  function Abs(n: int): (r: int)
    ensures r >= 0 && (r == n || r == -n)
  {
    if n < 0 then -n else n
  }

  /** The loop's constants: target, `dx = |x1-x0|`, `dy = -|y1-y0|`, and the step signs. */
  datatype LineConfig = LineConfig(x1: int, y1: int, dx: int, dy: int, sx: int, sy: int)

  /** The loop's variables: the current point and the error term. */
  datatype LineState = LineState(x: int, y: int, err: int)

  /** Columns still to go, counted in the direction of travel. */
  function Rx(c: LineConfig, s: LineState): int
  {
    if c.sx == 1 then c.x1 - s.x else s.x - c.x1
  }

  /** Rows still to go, counted in the direction of travel. */
  function Ry(c: LineConfig, s: LineState): int
  {
    if c.sy == 1 then c.y1 - s.y else s.y - c.y1
  }

  /**
   * What holds at the top of every iteration: the point has not passed the
   * target on either axis, and the error term is determined by how far it is
   * from the target.
   */
  predicate LineInv(c: LineConfig, s: LineState)
  {
    && c.dx >= 0 && c.dy <= 0
    && (c.sx == 1 || c.sx == -1) && (c.sy == 1 || c.sy == -1)
    && 0 <= Rx(c, s) <= c.dx
    && 0 <= Ry(c, s) <= -c.dy
    && s.err == c.dx + c.dy - c.dy * Rx(c, s) - c.dx * Ry(c, s)
  }

  /** Set-up of the loop for a line from (x0, y0) to (x1, y1). */
  function LineSetup(x0: int, y0: int, x1: int, y1: int): (c: LineConfig)
  {
    LineConfig(x1, y1, Abs(x1 - x0), -Abs(y1 - y0), if x0 < x1 then 1 else -1, if y0 < y1 then 1 else -1)
  }

  function LineStart(x0: int, y0: int, x1: int, y1: int): (s: LineState)
  {
    LineState(x0, y0, Abs(x1 - x0) - Abs(y1 - y0))
  }

  /** One pass through the loop body after the end test has failed. */
  function LineStep(c: LineConfig, s: LineState): LineState
  {
    var e2 := 2 * s.err;
    var s1 := if e2 >= c.dy then LineState(s.x + c.sx, s.y, s.err + c.dy) else s;
    if e2 <= c.dx then LineState(s1.x, s1.y + c.sy, s1.err + c.dx) else s1
  }

  lemma MulAtLeastOnce(a: int, b: int)
    requires a >= 0 && b >= 1
    ensures a * b >= a
  {
  }

  lemma LineStartInv(x0: int, y0: int, x1: int, y1: int)
    ensures LineInv(LineSetup(x0, y0, x1, y1), LineStart(x0, y0, x1, y1))
    ensures Rx(LineSetup(x0, y0, x1, y1), LineStart(x0, y0, x1, y1)) + Ry(LineSetup(x0, y0, x1, y1), LineStart(x0, y0, x1, y1))
         == Abs(x1 - x0) + Abs(y1 - y0)
  {
    var c, s := LineSetup(x0, y0, x1, y1), LineStart(x0, y0, x1, y1);
    assert Rx(c, s) == c.dx && Ry(c, s) == -c.dy;
  }

  /**
   * A step keeps the invariant and gets strictly closer to the target: x only
   * moves while columns remain, y only while rows remain, and at least one moves.
   */
  lemma LineStepInv(c: LineConfig, s: LineState)
    requires LineInv(c, s) && !(s.x == c.x1 && s.y == c.y1)
    ensures LineInv(c, LineStep(c, s))
    ensures Rx(c, LineStep(c, s)) + Ry(c, LineStep(c, s)) < Rx(c, s) + Ry(c, s)
  {
    var rx, ry := Rx(c, s), Ry(c, s);
    var e2 := 2 * s.err;
    NoOvershoot(c.dx, c.dy, rx, ry, s.err);
    var a := if e2 >= c.dy then 1 else 0;
    var b := if e2 <= c.dx then 1 else 0;
    var t := LineStep(c, s);
    assert t.x == s.x + a * c.sx && t.y == s.y + b * c.sy && t.err == s.err + a * c.dy + b * c.dx;
    assert Rx(c, t) == rx - a && Ry(c, t) == ry - b;
    ErrorTerm(c.dx, c.dy, rx, ry, a, b);
  }

  /**
   * The arithmetic core of LineStepInv: when no columns remain the x test fails,
   * when no rows remain the y test fails, and the two tests never both fail.
   */
  lemma NoOvershoot(dx: int, dy: int, rx: int, ry: int, err: int)
    requires dx >= 0 && dy <= 0 && 0 <= rx <= dx && 0 <= ry <= -dy && rx + ry > 0
    requires err == dx + dy - dy * rx - dx * ry
    ensures rx == 0 ==> 2 * err < dy
    ensures ry == 0 ==> 2 * err > dx
    ensures 2 * err >= dy || 2 * err <= dx
  {
    if rx == 0 {
      assert dy * rx == 0;
      MulAtLeastOnce(dx, ry);
    }
    if ry == 0 {
      assert dx * ry == 0;
      MulAtLeastOnce(-dy, rx);
    }
  }

  /** How the error term follows the remaining distances when x moves a and y moves b. */
  lemma ErrorTerm(dx: int, dy: int, rx: int, ry: int, a: int, b: int)
    ensures dx + dy - dy * rx - dx * ry + a * dy + b * dx == dx + dy - dy * (rx - a) - dx * (ry - b)
  {
  }

  /**
   * The points the loop plots from state s on, in order, cut off after at most
   * n more steps.  The cut-off only makes the definition total: from a state
   * satisfying LineInv the loop ends within Rx + Ry steps (LineTraceReaches),
   * and LinePoints passes exactly that many.
   */
  function LineTrace(c: LineConfig, s: LineState, n: nat): (t: seq<Point>)
    ensures |t| >= 1 && t[0] == Point(s.x, s.y)
    decreases n
  {
    if (s.x == c.x1 && s.y == c.y1) || n == 0 then [Point(s.x, s.y)]
    else [Point(s.x, s.y)] + LineTrace(c, LineStep(c, s), n - 1)
  }

  /** With a large enough budget the trace ends at the target and nowhere earlier. */
  lemma {:induction false} LineTraceReaches(c: LineConfig, s: LineState, n: nat)
    requires LineInv(c, s) && n >= Rx(c, s) + Ry(c, s)
    ensures var t := LineTrace(c, s, n);
      t[|t| - 1] == Point(c.x1, c.y1) && forall k :: 0 <= k < |t| - 1 ==> t[k] != Point(c.x1, c.y1)
    decreases n
  {
    if !(s.x == c.x1 && s.y == c.y1) {
      LineStepInv(c, s);
      LineTraceReaches(c, LineStep(c, s), n - 1);
      var t, rest := LineTrace(c, s, n), LineTrace(c, LineStep(c, s), n - 1);
      assert t == [Point(s.x, s.y)] + rest;
      forall k | 1 <= k < |t| - 1
        ensures t[k] != Point(c.x1, c.y1)
      {
        assert t[k] == rest[k - 1];
      }
    }
  }

  /** The points LCD_nokia_draw_line(bitmap, x0, y0, x1, y1) plots, in order. */
  function LinePoints(x0: int, y0: int, x1: int, y1: int): (t: seq<Point>)
    ensures |t| >= 1 && t[0] == Point(x0, y0) && t[|t| - 1] == Point(x1, y1)
    ensures forall k :: 0 <= k < |t| - 1 ==> t[k] != Point(x1, y1)
  {
    var c, s, n := LineSetup(x0, y0, x1, y1), LineStart(x0, y0, x1, y1), Abs(x1 - x0) + Abs(y1 - y0);
    LineStartInv(x0, y0, x1, y1);
    LineTraceReaches(c, s, n);
    LineTrace(c, s, n)
  }

  /** q is an 8-neighbour of p, reached by moving each coordinate by 0 or by its step sign. */
  predicate StepToward(p: Point, q: Point, sx: int, sy: int)
  {
    (q.x == p.x || q.x == p.x + sx) && (q.y == p.y || q.y == p.y + sy) && p != q
  }

  /** q lies between p and the target on both axes. */
  predicate Between(lo: int, v: int, hi: int)
  {
    (lo <= v <= hi) || (hi <= v <= lo)
  }

  lemma {:induction false} LineTraceSteps(c: LineConfig, s: LineState, n: nat)
    requires LineInv(c, s)
    ensures forall k :: 0 <= k < |LineTrace(c, s, n)| - 1 ==>
      StepToward(LineTrace(c, s, n)[k], LineTrace(c, s, n)[k + 1], c.sx, c.sy)
    ensures forall p :: p in LineTrace(c, s, n) ==> Between(s.x, p.x, c.x1) && Between(s.y, p.y, c.y1)
    decreases n
  {
    if !(s.x == c.x1 && s.y == c.y1) && n > 0 {
      LineStepInv(c, s);
      var next := LineStep(c, s);
      LineTraceSteps(c, next, n - 1);
      var t, rest := LineTrace(c, s, n), LineTrace(c, next, n - 1);
      assert t == [Point(s.x, s.y)] + rest;
      assert StepToward(t[0], t[1], c.sx, c.sy);
      forall k | 1 <= k < |t| - 1
        ensures StepToward(t[k], t[k + 1], c.sx, c.sy)
      {
        assert t[k] == rest[k - 1] && t[k + 1] == rest[k];
      }
    }
  }

  /**
   * Consecutive plotted points are 8-adjacent and each step moves x and y by at
   * most one, towards (x1, y1); every plotted point lies in the bounding box of
   * the two endpoints.
   */
  lemma LineSteps(x0: int, y0: int, x1: int, y1: int)
    ensures forall k :: 0 <= k < |LinePoints(x0, y0, x1, y1)| - 1 ==>
      StepToward(LinePoints(x0, y0, x1, y1)[k], LinePoints(x0, y0, x1, y1)[k + 1],
                 if x0 < x1 then 1 else -1, if y0 < y1 then 1 else -1)
    ensures forall p :: p in LinePoints(x0, y0, x1, y1) ==> Between(x0, p.x, x1) && Between(y0, p.y, y1)
  {
    var c := LineSetup(x0, y0, x1, y1);
    assert c.sx == (if x0 < x1 then 1 else -1) && c.sy == (if y0 < y1 then 1 else -1);
    LineStartInv(x0, y0, x1, y1);
    LineTraceSteps(c, LineStart(x0, y0, x1, y1), Abs(x1 - x0) + Abs(y1 - y0));
  }

  lemma {:induction false} HorizontalTrace(c: LineConfig, s: LineState, n: nat)
    requires LineInv(c, s) && c.dy == 0 && n >= Rx(c, s) + Ry(c, s)
    ensures forall p :: p in LineTrace(c, s, n) <==> p.y == c.y1 && Between(s.x, p.x, c.x1)
    decreases n
  {
    if !(s.x == c.x1 && s.y == c.y1) {
      LineStepInv(c, s);
      var next := LineStep(c, s);
      assert next.x == s.x + c.sx && next.y == s.y;
      HorizontalTrace(c, next, n - 1);
      assert LineTrace(c, s, n) == [Point(s.x, s.y)] + LineTrace(c, next, n - 1);
    }
  }

  lemma {:induction false} VerticalTrace(c: LineConfig, s: LineState, n: nat)
    requires LineInv(c, s) && c.dx == 0 && n >= Rx(c, s) + Ry(c, s)
    ensures forall p :: p in LineTrace(c, s, n) <==> p.x == c.x1 && Between(s.y, p.y, c.y1)
    decreases n
  {
    if !(s.x == c.x1 && s.y == c.y1) {
      LineStepInv(c, s);
      var next := LineStep(c, s);
      assert next.y == s.y + c.sy && next.x == s.x;
      VerticalTrace(c, next, n - 1);
      assert LineTrace(c, s, n) == [Point(s.x, s.y)] + LineTrace(c, next, n - 1);
    }
  }

  /** A horizontal line plots exactly the pixels of row y between x0 and x1, both included. */
  lemma HorizontalLine(x0: int, x1: int, y: int)
    ensures forall p :: p in LinePoints(x0, y, x1, y) <==> p.y == y && Between(x0, p.x, x1)
  {
    LineStartInv(x0, y, x1, y);
    HorizontalTrace(LineSetup(x0, y, x1, y), LineStart(x0, y, x1, y), Abs(x1 - x0) + Abs(y - y));
  }

  /** A vertical line plots exactly the pixels of column x between y0 and y1, both included. */
  lemma VerticalLine(x: int, y0: int, y1: int)
    ensures forall p :: p in LinePoints(x, y0, x, y1) <==> p.x == x && Between(y0, p.y, y1)
  {
    LineStartInv(x, y0, x, y1);
    VerticalTrace(LineSetup(x, y0, x, y1), LineStart(x, y0, x, y1), Abs(x - x) + Abs(y1 - y0));
  }

  /**
   * Drawing a line backwards does not always give the same pixels: from (x, y)
   * to (x + 1, y + 2) the middle pixel is (x + 1, y + 1), from (x + 1, y + 2)
   * back to (x, y) it is (x, y + 1).
   */
  lemma LineDirectionMatters(x: int, y: int)
    ensures Point(x + 1, y + 1) in LinePoints(x, y, x + 1, y + 2)
    ensures Point(x + 1, y + 1) !in LinePoints(x + 1, y + 2, x, y)
  {
    ForwardExample(x, y);
    BackwardExample(x, y);
  }

  lemma ForwardExample(x: int, y: int)
    ensures LinePoints(x, y, x + 1, y + 2) == [Point(x, y), Point(x + 1, y + 1), Point(x + 1, y + 2)]
  {
    var c := LineConfig(x + 1, y + 2, 1, -2, 1, 1);
    var s0 := LineState(x, y, -1);
    var s1 := LineState(x + 1, y + 1, -2);
    var s2 := LineState(x + 1, y + 2, -1);
    assert LineSetup(x, y, x + 1, y + 2) == c && LineStart(x, y, x + 1, y + 2) == s0;
    assert LineStep(c, s0) == s1 && LineStep(c, s1) == s2;
    assert LineTrace(c, s2, 1) == [Point(x + 1, y + 2)];
    assert LineTrace(c, s1, 2) == [Point(x + 1, y + 1)] + LineTrace(c, s2, 1);
    assert LineTrace(c, s0, 3) == [Point(x, y)] + LineTrace(c, s1, 2);
  }

  lemma BackwardExample(x: int, y: int)
    ensures LinePoints(x + 1, y + 2, x, y) == [Point(x + 1, y + 2), Point(x, y + 1), Point(x, y)]
  {
    var c := LineConfig(x, y, 1, -2, -1, -1);
    var s0 := LineState(x + 1, y + 2, -1);
    var s1 := LineState(x, y + 1, -2);
    var s2 := LineState(x, y, -1);
    assert LineSetup(x + 1, y + 2, x, y) == c && LineStart(x + 1, y + 2, x, y) == s0;
    assert LineStep(c, s0) == s1 && LineStep(c, s1) == s2;
    assert LineTrace(c, s2, 1) == [Point(x, y)];
    assert LineTrace(c, s1, 2) == [Point(x, y + 1)] + LineTrace(c, s2, 1);
    assert LineTrace(c, s0, 3) == [Point(x + 1, y + 2)] + LineTrace(c, s1, 2);
  }
}
