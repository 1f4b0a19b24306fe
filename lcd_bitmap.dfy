/**
 * The packed 1-bit-per-pixel framebuffer of the 84x48 Nokia 5110 display.
 *
 * Pixel (x, y) lives in byte `x + (y / 8) * 84`, bit `y % 8`: each byte holds a
 * vertical band of eight pixels.  This module gives the addressing, the meaning
 * of a bitmap as a set of lit pixels, and the one primitive update (OR one bit
 * in); the drawing primitives of LcdNokia are specified in its terms.
 */
module LcdBitmap {

  const ScreenW: int := 84
  const ScreenH: int := 48
  /** Size in bytes of the framebuffer (504). */
  const BitmapSize: int := ScreenW * ScreenH / 8

  datatype Point = Point(x: int, y: int)

  predicate InBounds(x: int, y: int)
  {
    0 <= x < ScreenW && 0 <= y < ScreenH
  }

  /** Byte that holds pixel (x, y). */
  function ByteIndex(x: int, y: int): (i: int)
    requires InBounds(x, y)
    ensures 0 <= i < BitmapSize
    ensures i % ScreenW == x && i / ScreenW == y / 8
  {
    x + (y / 8) * ScreenW
  }

  /** The single bit `1 << bit` of a byte. */
  function BitMask(bit: int): (m: bv8)
    requires 0 <= bit < 8
  {
    (1 as bv8) << bit
  }

  /** Pixel (x, y) is on in bitmap b. Pixels outside the screen are never on. */
  predicate Lit(b: seq<bv8>, x: int, y: int)
  {
    |b| == BitmapSize && InBounds(x, y) && b[ByteIndex(x, y)] & BitMask(y % 8) != 0
  }

  /** The bitmap after ORing pixel (x, y) in; a pixel off the screen changes nothing. */
  function WithPixel(b: seq<bv8>, x: int, y: int): (r: seq<bv8>)
    requires |b| == BitmapSize
    ensures |r| == |b|
  {
    if !InBounds(x, y) then b
    else
      var i := ByteIndex(x, y);
      b[i := b[i] | BitMask(y % 8)]
  }

  /**
   * `after` is `before` with exactly the on-screen pixels of `s` switched on:
   * an on-screen pixel is lit afterwards iff it was lit before or belongs to s.
   */
  ghost predicate Painted(before: seq<bv8>, after: seq<bv8>, s: iset<Point>)
  {
    && |before| == BitmapSize
    && |after| == BitmapSize
    && forall x, y :: InBounds(x, y) ==> (Lit(after, x, y) <==> Lit(before, x, y) || Point(x, y) in s)
  }

  /** The cleared framebuffer (what `memset(bitmap, 0, ...)` leaves). */
  function Blank(): (b: seq<bv8>)
    ensures |b| == BitmapSize
    ensures forall x, y :: !Lit(b, x, y)
  {
    seq(BitmapSize, _ => 0 as bv8)
  }

  lemma OrSetsBit(v: bv8, bit: int)
    requires 0 <= bit < 8
    ensures (v | BitMask(bit)) & BitMask(bit) != 0
  {
    if bit == 0 {} else if bit == 1 {} else if bit == 2 {} else if bit == 3 {}
    else if bit == 4 {} else if bit == 5 {} else if bit == 6 {} else {}
  }

  lemma OrKeepsOtherBit(v: bv8, bit: int, other: int)
    requires 0 <= bit < 8 && 0 <= other < 8 && bit != other
    ensures (v | BitMask(bit)) & BitMask(other) == v & BitMask(other)
  {
    if bit == 0 {} else if bit == 1 {} else if bit == 2 {} else if bit == 3 {}
    else if bit == 4 {} else if bit == 5 {} else if bit == 6 {} else {}
  }

  lemma BitsDetermineByte(u: bv8, v: bv8)
    requires forall bit :: 0 <= bit < 8 ==> (u & BitMask(bit) != 0 <==> v & BitMask(bit) != 0)
    ensures u == v
  {
    assert u & BitMask(0) != 0 <==> v & BitMask(0) != 0;
    assert u & BitMask(1) != 0 <==> v & BitMask(1) != 0;
    assert u & BitMask(2) != 0 <==> v & BitMask(2) != 0;
    assert u & BitMask(3) != 0 <==> v & BitMask(3) != 0;
    assert u & BitMask(4) != 0 <==> v & BitMask(4) != 0;
    assert u & BitMask(5) != 0 <==> v & BitMask(5) != 0;
    assert u & BitMask(6) != 0 <==> v & BitMask(6) != 0;
    assert u & BitMask(7) != 0 <==> v & BitMask(7) != 0;
  }

  /** Two on-screen pixels share a byte and a bit only if they are the same pixel. */
  lemma AddressInjective(x: int, y: int, x': int, y': int)
    requires InBounds(x, y) && InBounds(x', y')
    requires ByteIndex(x, y) == ByteIndex(x', y') && y % 8 == y' % 8
    ensures x == x' && y == y'
  {
  }

  /** ORing pixel (x, y) in switches on that pixel, if it is on screen, and no other. */
  lemma WithPixelPaints(b: seq<bv8>, x: int, y: int)
    requires |b| == BitmapSize
    ensures Painted(b, WithPixel(b, x, y), iset{Point(x, y)})
  {
    var r := WithPixel(b, x, y);
    forall px, py | InBounds(px, py)
      ensures Lit(r, px, py) <==> Lit(b, px, py) || Point(px, py) in iset{Point(x, y)}
    {
      if InBounds(x, y) {
        var i := ByteIndex(x, y);
        var j := ByteIndex(px, py);
        if px == x && py == y {
          OrSetsBit(b[i], y % 8);
        } else if j == i {
          if py % 8 == y % 8 {
            AddressInjective(x, y, px, py);
          }
          OrKeepsOtherBit(b[i], y % 8, py % 8);
        }
      }
    }
  }

  /**
   * At the level of bytes: an off-screen pixel leaves the framebuffer as it
   * was; an on-screen one sets bit y % 8 of byte ByteIndex(x, y) (below 504)
   * and keeps every other byte and every other bit of that byte.
   */
  lemma WithPixelBytes(b: seq<bv8>, x: int, y: int)
    requires |b| == BitmapSize
    ensures !InBounds(x, y) ==> WithPixel(b, x, y) == b
    ensures InBounds(x, y) ==>
      var r, i := WithPixel(b, x, y), ByteIndex(x, y);
      && 0 <= i < BitmapSize
      && r[i] & BitMask(y % 8) != 0
      && (forall j :: 0 <= j < |b| && j != i ==> r[j] == b[j])
      && (forall bit :: 0 <= bit < 8 && bit != y % 8 ==> r[i] & BitMask(bit) == b[i] & BitMask(bit))
  {
    if InBounds(x, y) {
      var r, i := WithPixel(b, x, y), ByteIndex(x, y);
      assert r[i] == b[i] | BitMask(y % 8);
      OrSetsBit(b[i], y % 8);
      OrKeepsOtherBits(b[i], y % 8);
    }
  }

  lemma OrKeepsOtherBits(v: bv8, bit: int)
    requires 0 <= bit < 8
    ensures forall other :: 0 <= other < 8 && other != bit ==> (v | BitMask(bit)) & BitMask(other) == v & BitMask(other)
  {
    forall other | 0 <= other < 8 && other != bit
      ensures (v | BitMask(bit)) & BitMask(other) == v & BitMask(other)
    {
      OrKeepsOtherBit(v, bit, other);
    }
  }

  /** A framebuffer is determined by the set of pixels it has on. */
  lemma {:induction false} BitmapDeterminedByPixels(b1: seq<bv8>, b2: seq<bv8>)
    requires |b1| == BitmapSize && |b2| == BitmapSize
    requires forall x, y :: InBounds(x, y) ==> (Lit(b1, x, y) <==> Lit(b2, x, y))
    ensures b1 == b2
  {
    forall i | 0 <= i < BitmapSize
      ensures b1[i] == b2[i]
    {
      forall bit | 0 <= bit < 8
        ensures b1[i] & BitMask(bit) != 0 <==> b2[i] & BitMask(bit) != 0
      {
        var p := PixelAt(i, bit);
        assert Lit(b1, p.x, p.y) <==> Lit(b2, p.x, p.y);
      }
      BitsDetermineByte(b1[i], b2[i]);
    }
  }

  /** The on-screen pixel stored in bit `bit` of byte i. */
  function PixelAt(i: int, bit: int): (p: Point)
    requires 0 <= i < BitmapSize && 0 <= bit < 8
    ensures InBounds(p.x, p.y) && ByteIndex(p.x, p.y) == i && p.y % 8 == bit
  {
    var band := i / ScreenW;
    assert 0 <= band < 6;
    Point(i % ScreenW, band * 8 + bit)
  }

  /** Painting s and then t paints their union. */
  lemma PaintedThen(a: seq<bv8>, b: seq<bv8>, c: seq<bv8>, s: iset<Point>, t: iset<Point>)
    requires Painted(a, b, s) && Painted(b, c, t)
    ensures Painted(a, c, s + t)
  {
  }

  /** Only the on-screen part of the painted set matters. */
  lemma PaintedSame(a: seq<bv8>, b: seq<bv8>, s: iset<Point>, t: iset<Point>)
    requires Painted(a, b, s)
    requires forall x, y :: InBounds(x, y) ==> (Point(x, y) in s <==> Point(x, y) in t)
    ensures Painted(a, b, t)
  {
  }

  /** Painting nothing on screen leaves the framebuffer byte for byte as it was. */
  lemma PaintedNothing(a: seq<bv8>, b: seq<bv8>, s: iset<Point>)
    requires Painted(a, b, s)
    requires forall x, y :: InBounds(x, y) ==> Point(x, y) !in s
    ensures a == b
  {
    BitmapDeterminedByPixels(a, b);
  }

  /** The bitmap after ORing in the pixels of pts one after another, in order. */
  function Plot(b: seq<bv8>, pts: seq<Point>): (r: seq<bv8>)
    requires |b| == BitmapSize
    ensures |r| == BitmapSize
    decreases |pts|
  {
    if pts == [] then b
    else
      var last := pts[|pts| - 1];
      WithPixel(Plot(b, pts[..|pts| - 1]), last.x, last.y)
  }

  /** Plotting a sequence of points lights exactly its on-screen points. */
  lemma {:induction false} PlotPaints(b: seq<bv8>, pts: seq<Point>)
    requires |b| == BitmapSize
    ensures Painted(b, Plot(b, pts), iset p | p in pts)
    decreases |pts|
  {
    if pts != [] {
      var init, last := pts[..|pts| - 1], pts[|pts| - 1];
      PlotPaints(b, init);
      WithPixelPaints(Plot(b, init), last.x, last.y);
      PaintedThen(b, Plot(b, init), Plot(b, pts), iset p | p in init, iset{last});
      assert pts == init + [last];
      PaintedSame(b, Plot(b, pts), (iset p | p in init) + iset{last}, iset p | p in pts);
    }
  }

  /** Plotting s and then t is plotting s + t. */
  lemma {:induction false} PlotAppend(b: seq<bv8>, s: seq<Point>, t: seq<Point>)
    requires |b| == BitmapSize
    ensures Plot(b, s + t) == Plot(Plot(b, s), t)
    decreases |t|
  {
    if t != [] {
      assert (s + t)[..|s + t| - 1] == s + t[..|t| - 1];
      PlotAppend(b, s, t[..|t| - 1]);
    } else {
      assert s + t == s;
    }
  }

  /** Plotting one more point ORs that point into the result. */
  lemma PlotSnoc(b: seq<bv8>, pts: seq<Point>, p: Point)
    requires |b| == BitmapSize
    ensures Plot(b, pts + [p]) == WithPixel(Plot(b, pts), p.x, p.y)
  {
    assert (pts + [p])[..|pts|] == pts;
  }

  /** Plotting p and then the rest is plotting the rest onto the bitmap with p ORed in. */
  lemma PlotCons(b: seq<bv8>, p: Point, rest: seq<Point>)
    requires |b| == BitmapSize
    ensures Plot(b, [p] + rest) == Plot(WithPixel(b, p.x, p.y), rest)
  {
    PlotAppend(b, [p], rest);
    PlotSnoc(b, [], p);
  }
}
