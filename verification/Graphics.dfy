/** gfx.c: the display and Bresenham lines. */
module Graphics {
  import opened Wrappers

  datatype Point = Point(x: int, y: int)

  /** The display: the pixels drawn so far, in order. */
  class Lcd {
    var drawn: seq<Point>

    constructor ()
      ensures drawn == []
    {
      drawn := [];
    }

    /** LCD_draw_pixel */
    method DrawPixel(x: int, y: int)
      modifies this
      ensures drawn == old(drawn) + [Point(x, y)]
    {
      drawn := drawn + [Point(x, y)];
    }
  }

  predicate Int16(x: int) {
    -0x8000 <= x <= 0x7FFF
  }

  // ------------------------------------------------------------------- lines

  /** A line made ready for drawing: from left to right along its longer side. */
  datatype Line = Line(steep: bool, x: int, y: int, dx: nat, dy: nat, ystep: int)

  /** The exchanges at the start of GFX_draw_line. */
  function Prepared(p: Point, q: Point): (l: Line)
    ensures l.dy <= l.dx
  {
    var steep := Abs(q.y - p.y) > Abs(q.x - p.x);
    var p1, q1 := if steep then Point(p.y, p.x) else p, if steep then Point(q.y, q.x) else q;
    var p2, q2 := if p1.x > q1.x then q1 else p1, if p1.x > q1.x then p1 else q1;
    Line(steep, p2.x, p2.y, q2.x - p2.x, Abs(q2.y - p2.y), if p2.y < q2.y then 1 else -1)
  }

  /** Steps sideways after k steps along: k*dy/dx to the nearest whole number. */
  function Sideways(l: Line, k: nat): (s: nat)
  {
    if l.dx == 0 then 0 else (k * l.dy + l.dx - 1 - l.dx / 2) / l.dx
  }

  function PixelAt(l: Line, k: nat): Point {
    var along, across := l.x + k, l.y + l.ystep * Sideways(l, k);
    if l.steep then Point(across, along) else Point(along, across)
  }

  function Pixels(l: Line): (ps: seq<Point>)
    ensures |ps| == l.dx + 1
    ensures forall k :: 0 <= k <= l.dx ==> ps[k] == PixelAt(l, k)
  {
    seq(l.dx + 1, k requires 0 <= k => PixelAt(l, k))
  }

  lemma DivBounds(a: nat, d: nat)
    requires d > 0
    ensures a / d * d <= a < a / d * d + d
  {
  }

  lemma {:induction false} LessTimes(r: nat, q: nat, d: nat)
    requires r < q
    ensures r * d + d <= q * d
    decreases q
  {
    assert q * d == (q - 1) * d + d;
    if q == r + 1 {
    } else {
      LessTimes(r, q - 1, d);
    }
  }

  lemma DivUnique(a: nat, d: nat, q: nat)
    requires d > 0 && q * d <= a < q * d + d
    ensures a / d == q
  {
    DivBounds(a, d);
    var r := a / d;
    if r < q {
      LessTimes(r, q, d);
    } else if q < r {
      LessTimes(q, r, d);
    }
  }

  /** The loop's err after k steps along and s steps sideways. */
  function Err(l: Line, k: nat, s: nat): int {
    l.dx / 2 - k * l.dy + s * l.dx
  }

  /** Sideways is the number that keeps the error term in [0, dx). */
  lemma SidewaysIs(l: Line, k: nat, s: nat)
    requires l.dx > 0 && 0 <= Err(l, k, s) < l.dx
    ensures Sideways(l, k) == s
  {
    DivUnique(k * l.dy + l.dx - 1 - l.dx / 2, l.dx, s);
  }

  lemma ErrorTerm(l: Line, k: nat)
    requires l.dx > 0
    ensures 0 <= Err(l, k, Sideways(l, k)) < l.dx
  {
    DivBounds(k * l.dy + l.dx - 1 - l.dx / 2, l.dx);
  }

  /** One more step along costs dy; one more step sideways gives dx back. */
  lemma ErrSteps(l: Line, k: nat, s: nat)
    ensures Err(l, k + 1, s) == Err(l, k, s) - l.dy
    ensures Err(l, k, s + 1) == Err(l, k, s) + l.dx
  {
    assert (k + 1) * l.dy == k * l.dy + l.dy && (s + 1) * l.dx == s * l.dx + l.dx;
  }

  /** The decision of one step of the loop. */
  lemma NextSideways(l: Line, k: nat, s: nat)
    requires l.dy <= l.dx && s == Sideways(l, k)
    ensures Err(l, k + 1, s) == Err(l, k, s) - l.dy
    ensures Err(l, k + 1, s + 1) == Err(l, k, s) - l.dy + l.dx
    ensures Sideways(l, k + 1) == if Err(l, k, s) - l.dy < 0 then s + 1 else s
  {
    hide Err, Sideways;
    ErrSteps(l, k, s);
    ErrSteps(l, k + 1, s);
    if l.dx > 0 {
      ErrorTerm(l, k);
      SidewaysIs(l, k + 1, if Err(l, k, s) - l.dy < 0 then s + 1 else s);
    } else {
      NoLength(l, k, s);
    }
  }

  lemma NoLength(l: Line, k: nat, s: nat)
    requires l.dx == l.dy == 0
    ensures Err(l, k, s) == 0 == Sideways(l, k) == Sideways(l, k + 1)
  {
  }

  /** Never more than half a pixel from the ideal line. */
  lemma WithinHalf(l: Line, k: nat)
    requires l.dy <= l.dx && k <= l.dx
    ensures 2 * Abs(Sideways(l, k) * l.dx - k * l.dy) <= l.dx
  {
    if l.dx > 0 {
      ErrorTerm(l, k);
    }
  }

  /** The sideways steps are the nearest whole number to k*dy/dx; halfway between two it is the smaller. */
  lemma SidewaysExactly(l: Line, k: nat, s: nat)
    requires l.dx > 0
    ensures s == Sideways(l, k) <==> 0 - l.dx <= 2 * (s * l.dx - k * l.dy) < l.dx
  {
    ErrorTerm(l, k);
    if 0 - l.dx <= 2 * (s * l.dx - k * l.dy) < l.dx {
      SidewaysIs(l, k, s);
    }
  }

  /** Neighbouring pixels touch: one step along, none or one sideways. */
  lemma Connected(l: Line, k: nat)
    requires l.dy <= l.dx
    ensures Sideways(l, k) <= Sideways(l, k + 1) <= Sideways(l, k) + 1
  {
    hide *;
    NextSideways(l, k, Sideways(l, k));
  }

  lemma EndsAt(l: Line)
    requires l.dy <= l.dx
    ensures Sideways(l, 0) == 0 && Sideways(l, l.dx) == l.dy
  {
    if l.dx > 0 {
      SidewaysIs(l, 0, 0);
      assert l.dx * l.dy == l.dy * l.dx;
      SidewaysIs(l, l.dx, l.dy);
    }
  }

  lemma {:induction false} SidewaysGrows(l: Line, j: nat, k: nat)
    requires l.dy <= l.dx && j <= k
    ensures Sideways(l, j) <= Sideways(l, k)
    decreases k - j
  {
    hide *;
    if j == k {
    } else {
      Connected(l, j);
      SidewaysGrows(l, j + 1, k);
    }
  }

  /**
   Both endpoints are drawn: the line starts at the one that is smaller along its longer
   side (x unless y is strictly longer), at p when they are level.
   */
  lemma EndpointsDrawn(p: Point, q: Point)
    ensures var ps := Pixels(Prepared(p, q));
            var fromP := if Abs(q.y - p.y) > Abs(q.x - p.x) then p.y <= q.y else p.x <= q.x;
            && ps[0] == (if fromP then p else q) && ps[|ps| - 1] == (if fromP then q else p)
            && |ps| == 1 + Max(Abs(q.x - p.x), Abs(q.y - p.y))
  {
    hide Sideways, Pixels;
    EndsAt(Prepared(p, q));
  }

  predicate Between(a: int, x: int, b: int) {
    a <= x <= b || b <= x <= a
  }

  /** No pixel leaves the box spanned by the endpoints. */
  lemma InsideTheBox(p: Point, q: Point, k: nat)
    requires k < |Pixels(Prepared(p, q))|
    ensures var c := Pixels(Prepared(p, q))[k]; Between(p.x, c.x, q.x) && Between(p.y, c.y, q.y)
  {
    hide Sideways, Pixels;
    var l := Prepared(p, q);
    EndsAt(l);
    SidewaysGrows(l, k, l.dx);
  }

  /** What the loop computes stays within 16 bits when the coordinates stay within 15. */
  lemma LineFits(p: Point, q: Point, k: nat)
    requires Abs(p.x) < 0x4000 && Abs(p.y) < 0x4000 && Abs(q.x) < 0x4000 && Abs(q.y) < 0x4000
    requires k < |Pixels(Prepared(p, q))|
    ensures var l := Prepared(p, q);
            Int16(l.dx) && Int16(l.dy) && Int16(Err(l, k, Sideways(l, k))) && Int16(Err(l, k, Sideways(l, k)) - l.dy)
  {
    hide Sideways, Pixels, Err;
    var l := Prepared(p, q);
    if l.dx > 0 {
      ErrorTerm(l, k);
    } else {
      NoLength(l, k, Sideways(l, k));
    }
  }

  /** Twice the area between two directions. */
  function Cross(ux: int, uy: int, vx: int, vy: int): int {
    ux * vy - uy * vx
  }

  lemma CrossMirrored(ux: int, uy: int, vx: int, vy: int)
    ensures Cross(uy, ux, vy, vx) == -Cross(ux, uy, vx, vy)
  {
  }

  lemma CrossForward(dx: nat, dy: nat, d: int, k: nat, s: nat)
    requires d == 1 || d == -1
    ensures Abs(Cross(k, d * s, dx, d * dy)) == Abs(s * dx - k * dy)
  {
    assert k * (d * dy) == d * (k * dy) && (d * s) * dx == d * (s * dx);
  }

  lemma CrossBackward(dx: int, dy: int, d: int, k: nat, s: nat)
    requires d == 1 || d == -1
    ensures Abs(Cross(k - dx, d * s - d * dy, -dx, -(d * dy))) == Abs(s * dx - k * dy)
  {
    assert (k - dx) * -(d * dy) == d * (dx * dy) - d * (k * dy);
    assert (d * s - d * dy) * -dx == d * (dy * dx) - d * (s * dx);
  }

  /**
   In the caller's coordinates: the cross product of a pixel's offset with the
   line's direction is at most half the longer side, so every pixel lies within
   half a pixel of the ideal line.
   */
  lemma CloseToLine(p: Point, q: Point, k: nat)
    requires k < |Pixels(Prepared(p, q))|
    ensures var c := Pixels(Prepared(p, q))[k];
            var longer := if Abs(q.y - p.y) > Abs(q.x - p.x) then Abs(q.y - p.y) else Abs(q.x - p.x);
            2 * Abs(Cross(c.x - p.x, c.y - p.y, q.x - p.x, q.y - p.y)) <= longer
  {
    hide Sideways, Pixels, Cross;
    var l := Prepared(p, q);
    var c := Pixels(l)[k];
    var s := Sideways(l, k);
    WithinHalf(l, k);
    CrossForward(l.dx, l.dy, l.ystep, k, s);
    CrossBackward(l.dx, l.dy, l.ystep, k, s);
    CrossMirrored(c.x - p.x, c.y - p.y, q.x - p.x, q.y - p.y);
  }

  /** GFX_draw_line */
  method DrawLine(lcd: Lcd, p: Point, q: Point)
    modifies lcd
    ensures lcd.drawn == old(lcd.drawn) + Pixels(Prepared(p, q))
  {
    hide Sideways, Pixels, Err;
    var x1, y1, x2, y2 := p.x, p.y, q.x, q.y;
    var gradient := Abs(y2 - y1) > Abs(x2 - x1);
    if gradient {
      x1, y1 := y1, x1;
      x2, y2 := y2, x2;
    }
    if x1 > x2 {
      x1, x2 := x2, x1;
      y1, y2 := y2, y1;
    }
    var dx, dy := x2 - x1, Abs(y2 - y1);
    var err := dx / 2;
    var ystep := if y1 < y2 then 1 else -1;
    ghost var l := Prepared(p, q);
    assert l == Line(gradient, x1, y1, dx, dy, ystep);
    ghost var ps, k, s := Pixels(l), 0, 0;
    LoopStarts(l);
    while x1 <= x2
      invariant 0 <= k <= dx + 1 && x1 == l.x + k && y1 == l.y + ystep * s
      invariant s == Sideways(l, k) && err == Err(l, k, s)
      invariant lcd.drawn == old(lcd.drawn) + ps[..k]
      decreases dx + 1 - k
    {
      assert PixelAt(l, k) == if gradient then Point(y1, x1) else Point(x1, y1);
      if gradient {
        lcd.DrawPixel(y1, x1);
      } else {
        lcd.DrawPixel(x1, y1);
      }
      assert ps[..k + 1] == ps[..k] + [PixelAt(l, k)];
      NextSideways(l, k, s);
      err := err - dy;
      if err < 0 {
        y1 := y1 + ystep;
        err := err + dx;
        s := s + 1;
      }
      x1 := x1 + 1;
      k := k + 1;
    }
    assert ps[..k] == ps;
  }

  lemma LoopStarts(l: Line)
    requires l.dy <= l.dx
    ensures Sideways(l, 0) == 0 && Err(l, 0, 0) == l.dx / 2
  {
    hide Sideways;
    EndsAt(l);
  }
}
