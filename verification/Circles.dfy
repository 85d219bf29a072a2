/** gfx.c: midpoint circles, drawn as an outline or filled. */
module Circles {
  import opened Wrappers
  import opened Graphics

  // ------------------------------------------------------ the decision variable

  /** The variables of the loop: f, ddF_x, ddF_y, aux_x, aux_y. */
  datatype Mid = Mid(f: int, ddx: int, ddy: int, x: int, y: int)

  function Start(r: int): Mid {
    Mid(1 - r, 1, -2 * r, 0, r)
  }

  /** One round of the loop, before anything is drawn. */
  function Next(m: Mid): Mid {
    var down := if m.f >= 0 then Mid(m.f + m.ddy + 2, m.ddx, m.ddy + 2, m.x, m.y - 1) else m;
    Mid(down.f + down.ddx + 2, down.ddx + 2, down.ddy, down.x + 1, down.y)
  }

  /** The points (aux_x, aux_y) the loop still visits. */
  function Arc(m: Mid): seq<Point>
    decreases m.y - m.x
  {
    if m.x < m.y then [Point(Next(m).x, Next(m).y)] + Arc(Next(m)) else []
  }

  /** b is the whole number nearest to the height of the circle above a. */
  predicate Nearest(r: int, a: int, b: int) {
    b * b - b < r * r - a * a <= b * b + b
  }

  /** Two heights cannot both be nearest. */
  lemma NearestIsUnique(r: int, a: int, b: nat, c: nat)
    requires Nearest(r, a, b) && Nearest(r, a, c)
    ensures b == c
  {
    if b < c {
      Pronic(b, c);
    } else if c < b {
      Pronic(c, b);
    }
  }

  lemma Pronic(b: nat, c: nat)
    requires b < c
    ensures b * b + b <= c * c - c
  {
    var d := c - b - 1;
    assert c * c - c == (b + 1 + d) * (b + d);
    assert (b + 1 + d) * (b + d) == b * b + b + 2 * b * d + d + d * d;
    assert b * d >= 0 && d * d >= 0;
  }

  lemma SquareGrows(b: nat, c: nat)
    requires b < c
    ensures b * b + 2 * b + 1 <= c * c
  {
    Pronic(b, c);
  }

  /** What the loop keeps. */
  predicate MidInv(r: int, m: Mid) {
    && m.ddx == 2 * m.x + 1 && m.ddy == -2 * m.y
    && m.f == (m.x + 1) * (m.x + 1) + m.y * m.y - m.y - r * r
    && 0 <= m.x <= m.y + 1 && 0 <= m.y <= r
    && r * r - m.x * m.x <= m.y * m.y + m.y
    && Nearest(r, if m.x <= m.y then m.x else m.y, if m.x <= m.y then m.y else m.x)
  }

  lemma StartKeeps(r: int)
    requires r >= 1
    ensures MidInv(r, Start(r))
  {
    assert (0 + 1) * (0 + 1) == 1;
  }

  /**
   A round keeps the invariant. Before the last one the height drops by at most one;
   in the last one the point may pass the diagonal, and is then the mirror image of
   the point before.
   */
  lemma NextKeeps(r: int, m: Mid)
    requires MidInv(r, m) && m.x < m.y
    ensures MidInv(r, Next(m))
    ensures Next(m).x == m.x + 1 && m.y - 1 <= Next(m).y <= m.y
    ensures Next(m).x > Next(m).y ==> Next(m).x == m.y && Next(m).y == m.x
  {
    Binomials(m.x, m.y);
  }

  lemma Binomials(x: int, y: int)
    ensures (x + 2) * (x + 2) == x * x + 4 * x + 4 && (x + 1) * (x + 1) == x * x + 2 * x + 1
    ensures (y - 1) * (y - 1) == y * y - 2 * y + 1
  {
  }

  /** Bounds on the loop's variables. */
  lemma DecisionBounds(r: int, m: Mid)
    requires MidInv(r, m)
    ensures -2 * r <= m.f <= 2 * r + 5 && 1 <= m.ddx <= 2 * r + 3 && -2 * r <= m.ddy <= 0
    ensures 0 <= m.x <= r + 1 && 0 <= m.y <= r
  {
    assert (m.x + 1) * (m.x + 1) == m.x * m.x + 2 * m.x + 1;
    LinearBounds(r, m, m.x * m.x, m.y * m.y, r * r);
  }

  /** The same with the squares of x, y and r for plain numbers. */
  lemma LinearBounds(r: int, m: Mid, xx: int, yy: int, rr: int)
    requires m.ddx == 2 * m.x + 1 && m.ddy == -2 * m.y && m.f == xx + 2 * m.x + 1 + yy - m.y - rr
    requires 0 <= m.x <= m.y + 1 && 0 <= m.y <= r && rr - xx <= yy + m.y
    requires m.x <= m.y ==> yy - m.y < rr - xx
    requires m.x > m.y ==> xx - m.x < rr - yy
    ensures -2 * r <= m.f <= 2 * r + 5 && 1 <= m.ddx <= 2 * r + 3 && -2 * r <= m.ddy <= 0
  {
  }

  /** The decision variable and both differences stay within 16 bits for r < 2^13. */
  lemma DecisionFits(r: int, m: Mid)
    requires MidInv(r, m)
    ensures r < 0x2000 ==> Int16(m.f) && Int16(m.ddx) && Int16(m.ddy) && Int16(m.x) && Int16(m.y)
    ensures r < 0x2000 && m.f >= 0 ==> Int16(m.ddy + 2) && Int16(m.f + m.ddy + 2)
  {
    hide MidInv;
    DecisionBounds(r, m);
  }

  // ----------------------------------------------------------- the visited points

  /** Every visited point is nearest to the circle, read from the shorter side. */
  lemma {:induction false} ArcIsNearest(r: int, m: Mid, i: nat)
    requires MidInv(r, m) && i < |Arc(m)|
    ensures var p := Arc(m)[i];
            && p.x == m.x + 1 + i && 0 <= p.y <= r && p.x <= p.y + 1
            && (p.x <= p.y ==> Nearest(r, p.x, p.y))
            && (p.x > p.y ==> Nearest(r, p.y, p.x))
            && p.y * p.y - p.y <= r * r - p.x * p.x <= p.y * p.y + p.y
    decreases m.y - m.x
  {
    hide Next, Nearest;
    NextKeeps(r, m);
    if i > 0 {
      ArcIsNearest(r, Next(m), i - 1);
    } else {
      HalfPixel(r, Next(m));
    }
  }

  lemma HalfPixel(r: int, m: Mid)
    requires MidInv(r, m)
    ensures m.y * m.y - m.y <= r * r - m.x * m.x
  {
    if m.x > m.y {
      assert (m.y + 1) * (m.y + 1) == m.y * m.y + 2 * m.y + 1;
    }
  }

  /** A visited point past the diagonal mirrors a point visited before, or the start. */
  lemma {:induction false} PastDiagonal(r: int, m: Mid, i: nat)
    requires MidInv(r, m) && i < |Arc(m)|
    ensures var p := Arc(m)[i];
            p.x > p.y ==> if i == 0 then m.x == p.y && m.y == p.x else Arc(m)[i - 1] == Point(p.y, p.x)
    decreases m.y - m.x
  {
    hide Next, MidInv;
    NextKeeps(r, m);
    if i == 0 {
    } else {
      PastDiagonal(r, Next(m), i - 1);
    }
  }

  /** No nearest point up to the diagonal is missed. */
  lemma {:induction false} ArcMissesNone(r: int, m: Mid, a: int, b: int)
    requires MidInv(r, m) && Nearest(r, a, b) && m.x < a <= b
    ensures Point(a, b) in Arc(m)
    decreases m.y - m.x
  {
    hide Next, Nearest, MidInv;
    if m.x >= m.y {
      NoneBeyond(r, m, a, b);
    } else {
      NextKeeps(r, m);
      var n := Next(m);
      if a == n.x {
        Meets(r, n, b);
      } else {
        ArcMissesNone(r, n, a, b);
      }
    }
  }

  /** Where the loop has stopped there is no nearest point ahead. */
  lemma NoneBeyond(r: int, m: Mid, a: int, b: int)
    requires MidInv(r, m) && m.y <= m.x < a <= b
    ensures !Nearest(r, a, b)
  {
    SquareGrows(m.x, a);
    Pronic(m.y, b);
  }

  lemma Meets(r: int, m: Mid, b: int)
    requires MidInv(r, m) && Nearest(r, m.x, b) && m.x <= b
    ensures b == m.y
  {
    if m.x <= m.y {
      NearestIsUnique(r, m.x, m.y, b);
    } else {
      Pronic(m.y, b);
    }
  }

  // ------------------------------------------------------------------ the outline

  function Axes(c: Point, r: int): seq<Point> {
    [Point(c.x, c.y + r), Point(c.x, c.y - r), Point(c.x + r, c.y), Point(c.x - r, c.y)]
  }

  /** The eight pixels drawn for one visited point. */
  function Octants(c: Point, a: int, b: int): seq<Point> {
    [Point(c.x + a, c.y + b), Point(c.x - a, c.y + b), Point(c.x + a, c.y - b), Point(c.x - a, c.y - b),
     Point(c.x + b, c.y + a), Point(c.x - b, c.y + a), Point(c.x + b, c.y - a), Point(c.x - b, c.y - a)]
  }

  function Rings(c: Point, m: Mid): seq<Point>
    decreases m.y - m.x
  {
    if m.x < m.y then Octants(c, Next(m).x, Next(m).y) + Rings(c, Next(m)) else []
  }

  /** All the pixels of an outline, in the order drawn. */
  function Outline(c: Point, r: int): seq<Point> {
    Axes(c, r) + Rings(c, Start(r))
  }

  /** draw_circle */
  method DrawCircle(lcd: Lcd, c: Point, r: int)
    modifies lcd
    ensures lcd.drawn == old(lcd.drawn) + Outline(c, r)
  {
    hide Octants, Axes;
    var f, ddx, ddy, auxX, auxY := 1 - r, 1, -2 * r, 0, r;
    DrawAxes(lcd, c, r);
    while auxX < auxY
      invariant lcd.drawn + Rings(c, Mid(f, ddx, ddy, auxX, auxY)) == old(lcd.drawn) + Outline(c, r)
      decreases auxY - auxX
    {
      ghost var m, before := Mid(f, ddx, ddy, auxX, auxY), lcd.drawn;
      if f >= 0 {
        auxY := auxY - 1;
        ddy := ddy + 2;
        f := f + ddy;
      }
      auxX := auxX + 1;
      ddx := ddx + 2;
      f := f + ddx;
      assert Next(m) == Mid(f, ddx, ddy, auxX, auxY);
      DrawOctants(lcd, c, auxX, auxY);
      assert lcd.drawn + Rings(c, Next(m)) == before + Rings(c, m);
    }
  }

  method DrawAxes(lcd: Lcd, c: Point, r: int)
    modifies lcd
    ensures lcd.drawn == old(lcd.drawn) + Axes(c, r)
  {
    lcd.DrawPixel(c.x, c.y + r);
    lcd.DrawPixel(c.x, c.y - r);
    lcd.DrawPixel(c.x + r, c.y);
    lcd.DrawPixel(c.x - r, c.y);
  }

  method DrawOctants(lcd: Lcd, c: Point, a: int, b: int)
    modifies lcd
    ensures lcd.drawn == old(lcd.drawn) + Octants(c, a, b)
  {
    lcd.DrawPixel(c.x + a, c.y + b);
    lcd.DrawPixel(c.x - a, c.y + b);
    lcd.DrawPixel(c.x + a, c.y - b);
    lcd.DrawPixel(c.x - a, c.y - b);
    lcd.DrawPixel(c.x + b, c.y + a);
    lcd.DrawPixel(c.x - b, c.y + a);
    lcd.DrawPixel(c.x + b, c.y - a);
    lcd.DrawPixel(c.x - b, c.y - a);
  }

  /** (u, v) is one of the eight images of (a, b). */
  predicate Image(a: int, b: int, u: int, v: int) {
    (Abs(u) == Abs(a) && Abs(v) == Abs(b)) || (Abs(u) == Abs(b) && Abs(v) == Abs(a))
  }

  lemma OctantsAreImages(c: Point, a: int, b: int, u: int, v: int)
    ensures Point(c.x + u, c.y + v) in Octants(c, a, b) <==> Image(a, b, u, v)
  {
    if Abs(u) == Abs(a) && Abs(v) == Abs(b) {
      UprightImages(c, a, b, u, v);
    } else if Abs(u) == Abs(b) && Abs(v) == Abs(a) {
      TiltedImages(c, a, b, u, v);
    }
  }

  lemma UprightImages(c: Point, a: int, b: int, u: int, v: int)
    requires Abs(u) == Abs(a) && Abs(v) == Abs(b)
    ensures Point(c.x + u, c.y + v) in Octants(c, a, b)
  {
    var o := Octants(c, a, b);
    assert o[0] in o && o[1] in o && o[2] in o && o[3] in o;
  }

  lemma TiltedImages(c: Point, a: int, b: int, u: int, v: int)
    requires Abs(u) == Abs(b) && Abs(v) == Abs(a)
    ensures Point(c.x + u, c.y + v) in Octants(c, a, b)
  {
    var o := Octants(c, a, b);
    assert o[4] in o && o[5] in o && o[6] in o && o[7] in o;
  }

  lemma {:induction false} RingsAreImages(c: Point, m: Mid, u: int, v: int)
    ensures Point(c.x + u, c.y + v) in Rings(c, m) <==> exists p :: p in Arc(m) && Image(p.x, p.y, u, v)
    decreases m.y - m.x
  {
    hide Octants, Next, Image;
    if m.x >= m.y {
    } else {
      var n := Next(m);
      OctantsAreImages(c, n.x, n.y, u, v);
      NextProgress(m);
      RingsAreImages(c, n, u, v);
      assert Arc(m) == [Point(n.x, n.y)] + Arc(n);
      assert Point(n.x, n.y) in Arc(m);
      assert forall p :: p in Arc(n) ==> p in Arc(m);
    }
  }

  lemma NextProgress(m: Mid)
    ensures Next(m).y - Next(m).x < m.y - m.x
  {
  }

  lemma AxesAreExact(c: Point, r: int, u: int, v: int)
    ensures Point(c.x + u, c.y + v) in Axes(c, r) <==> Min(Abs(u), Abs(v)) == 0 && Max(Abs(u), Abs(v)) == Abs(r)
  {
    var o := Axes(c, r);
    assert o[0] in o && o[1] in o && o[2] in o && o[3] in o;
  }

  /**
   The outline is exactly the nearest pixels: a pixel is drawn if and only if its
   larger offset is the whole number nearest to the circle at its smaller one. Without
   a positive radius only the four pixels on the axes are drawn.
   */
  lemma OutlineIsExact(c: Point, r: int, u: int, v: int)
    ensures var a, b := Min(Abs(u), Abs(v)), Max(Abs(u), Abs(v));
            Point(c.x + u, c.y + v) in Outline(c, r) <==> if r >= 1 then Nearest(r, a, b) else a == 0 && b == -r
  {
    hide Axes, Rings, Start, MidInv, Nearest, Arc;
    AxesAreExact(c, r, u, v);
    RingsAreImages(c, Start(r), u, v);
    if r >= 1 {
      RingsAreNearest(c, r, u, v);
      NearestIsDrawn(c, r, u, v);
    } else {
      NothingVisited(r);
    }
  }

  /** Without a positive radius the loop does not run. */
  lemma NothingVisited(r: int)
    ensures r <= 0 ==> Arc(Start(r)) == []
  {
  }

  lemma RingsAreNearest(c: Point, r: int, u: int, v: int)
    requires r >= 1
    ensures Point(c.x + u, c.y + v) in Axes(c, r) || (exists p :: p in Arc(Start(r)) && Image(p.x, p.y, u, v)) ==>
              Nearest(r, Min(Abs(u), Abs(v)), Max(Abs(u), Abs(v)))
  {
    hide Axes, Rings, Start, MidInv, Nearest, Arc;
    var m := Start(r);
    StartKeeps(r);
    StartAt(r);
    AxesAreExact(c, r, u, v);
    forall p | p in Arc(m) && Image(p.x, p.y, u, v)
      ensures Nearest(r, Min(Abs(u), Abs(v)), Max(Abs(u), Abs(v)))
    {
      var i :| 0 <= i < |Arc(m)| && Arc(m)[i] == p;
      ArcIsNearest(r, m, i);
    }
  }

  lemma NearestIsDrawn(c: Point, r: int, u: int, v: int)
    requires r >= 1
    ensures Nearest(r, Min(Abs(u), Abs(v)), Max(Abs(u), Abs(v))) ==>
              Point(c.x + u, c.y + v) in Axes(c, r) || exists p :: p in Arc(Start(r)) && Image(p.x, p.y, u, v)
  {
    hide Axes, Rings, Start, MidInv, Nearest, Arc;
    StartKeeps(r);
    StartAt(r);
    AxesAreExact(c, r, u, v);
    var a, b := Min(Abs(u), Abs(v)), Max(Abs(u), Abs(v));
    if Nearest(r, a, b) {
      if a == 0 {
        NearestIsUnique(r, 0, b, r);
      } else {
        ArcMissesNone(r, Start(r), a, b);
        assert Image(Point(a, b).x, Point(a, b).y, u, v);
      }
    }
  }

  lemma StartAt(r: int)
    requires r >= 1
    ensures Start(r).x == 0 && Nearest(r, 0, r)
  {
  }

  // ------------------------------------------------------------------ filled circles

  /** The pixels of a column, downwards from (x, y). */
  function Column(x: int, y: int, height: int): seq<Point>
    decreases height
  {
    if height <= 0 then [] else [Point(x, y)] + Column(x, y + 1, height - 1)
  }

  lemma {:induction false} ColumnIsExact(x: int, y: int, height: int, p: Point)
    ensures p in Column(x, y, height) <==> p.x == x && y <= p.y < y + height
    decreases height
  {
    if height <= 0 {
    } else {
      ColumnIsExact(x, y + 1, height - 1, p);
    }
  }

  /** draw_fast_v_line: the controller fills the range it was given from the top. */
  method DrawFastVLine(lcd: Lcd, x: int, y: int, height: int)
    requires height >= 0
    modifies lcd
    ensures lcd.drawn == old(lcd.drawn) + Column(x, y, height)
  {
    var left := height;
    while left > 0
      invariant 0 <= left <= height
      invariant lcd.drawn + Column(x, y + height - left, left) == old(lcd.drawn) + Column(x, y, height)
    {
      lcd.DrawPixel(x, y + height - left);
      left := left - 1;
    }
  }

  /** The four columns drawn for one visited point. */
  function Slices(c: Point, a: int, b: int): seq<Point> {
    Column(c.x + a, c.y - b, 2 * b + 1) + Column(c.x + b, c.y - a, 2 * a + 1)
    + Column(c.x - a, c.y - b, 2 * b + 1) + Column(c.x - b, c.y - a, 2 * a + 1)
  }

  function AllSlices(c: Point, m: Mid): seq<Point>
    decreases m.y - m.x
  {
    if m.x < m.y then Slices(c, Next(m).x, Next(m).y) + AllSlices(c, Next(m)) else []
  }

  /** All the pixels of a filled circle, in the order drawn. */
  function Disc(c: Point, r: int): seq<Point> {
    Column(c.x, c.y - r, 2 * r + 1) + AllSlices(c, Start(r))
  }

  method DrawSlices(lcd: Lcd, c: Point, a: nat, b: nat)
    modifies lcd
    ensures lcd.drawn == old(lcd.drawn) + Slices(c, a, b)
  {
    hide Column;
    DrawFastVLine(lcd, c.x + a, c.y - b, 2 * b + 1);
    DrawFastVLine(lcd, c.x + b, c.y - a, 2 * a + 1);
    DrawFastVLine(lcd, c.x - a, c.y - b, 2 * b + 1);
    DrawFastVLine(lcd, c.x - b, c.y - a, 2 * a + 1);
  }

  /** GFX_draw_circle with fill set: the middle column, then fill_circle on both sides. */
  method FillCircle(lcd: Lcd, c: Point, r: nat)
    modifies lcd
    ensures lcd.drawn == old(lcd.drawn) + Disc(c, r)
  {
    hide Slices, Column, MidInv, Disc;
    DrawFastVLine(lcd, c.x, c.y - r, 2 * r + 1);
    DiscStarts(c, r);
    var f, ddx, ddy, auxX, auxY := 1 - r, 1, -2 * r, 0, r;
    if r >= 1 {
      StartKeeps(r);
    }
    while auxX < auxY
      invariant auxX < auxY ==> MidInv(r, Mid(f, ddx, ddy, auxX, auxY))
      invariant lcd.drawn + AllSlices(c, Mid(f, ddx, ddy, auxX, auxY)) == old(lcd.drawn) + Disc(c, r)
      decreases auxY - auxX
    {
      ghost var m, before := Mid(f, ddx, ddy, auxX, auxY), lcd.drawn;
      NextKeeps(r, m);
      MidBounds(r, Next(m));
      if f >= 0 {
        auxY := auxY - 1;
        ddy := ddy + 2;
        f := f + ddy;
      }
      auxX := auxX + 1;
      ddx := ddx + 2;
      f := f + ddx;
      assert Next(m) == Mid(f, ddx, ddy, auxX, auxY);
      DrawSlices(lcd, c, auxX, auxY);
      assert lcd.drawn + AllSlices(c, Next(m)) == before + AllSlices(c, m);
    }
  }

  lemma DiscStarts(c: Point, r: int)
    ensures Disc(c, r) == Column(c.x, c.y - r, 2 * r + 1) + AllSlices(c, Mid(1 - r, 1, -2 * r, 0, r))
  {
  }

  lemma MidBounds(r: int, m: Mid)
    requires MidInv(r, m)
    ensures m.x >= 0 && m.y >= 0
  {
  }

  /** (u, v) lies in one of the four columns of (a, b). */
  predicate Covered(a: int, b: int, u: int, v: int) {
    (Abs(u) == Abs(a) && Abs(v) <= b) || (Abs(u) == Abs(b) && Abs(v) <= a)
  }

  lemma SlicesAreCovered(c: Point, a: int, b: int, u: int, v: int)
    ensures Point(c.x + u, c.y + v) in Slices(c, a, b) <==> Covered(a, b, u, v)
  {
    hide Column;
    var p := Point(c.x + u, c.y + v);
    ColumnIsExact(c.x + a, c.y - b, 2 * b + 1, p);
    ColumnIsExact(c.x + b, c.y - a, 2 * a + 1, p);
    ColumnIsExact(c.x - a, c.y - b, 2 * b + 1, p);
    ColumnIsExact(c.x - b, c.y - a, 2 * a + 1, p);
  }

  lemma {:induction false} AllSlicesAreCovered(c: Point, m: Mid, u: int, v: int)
    ensures Point(c.x + u, c.y + v) in AllSlices(c, m) <==> exists p :: p in Arc(m) && Covered(p.x, p.y, u, v)
    decreases m.y - m.x
  {
    hide Slices, Next, Covered;
    if m.x >= m.y {
    } else {
      var n := Next(m);
      SlicesAreCovered(c, n.x, n.y, u, v);
      NextProgress(m);
      AllSlicesAreCovered(c, n, u, v);
      assert Arc(m) == [Point(n.x, n.y)] + Arc(n);
      assert Point(n.x, n.y) in Arc(m);
      assert forall p :: p in Arc(n) ==> p in Arc(m);
    }
  }

  /** The outline has a pixel at this offset from its centre. */
  predicate OnOutline(c: Point, r: int, u: int, w: int) {
    Point(c.x + u, c.y + w) in Outline(c, r)
  }

  /**
   A filled circle is the outline with its inside: a pixel is drawn if and only if the
   outline has a pixel in the same column at least as far from the middle row.
   */
  lemma DiscFillsOutline(c: Point, r: int, u: int, v: int)
    requires r >= 0
    ensures Point(c.x + u, c.y + v) in Disc(c, r) <==> exists w :: OnOutline(c, r, u, w) && Abs(v) <= w
  {
    hide Outline, Disc;
    if Point(c.x + u, c.y + v) in Disc(c, r) {
      var w := DiscUnderOutline(c, r, u, v);
      assert OnOutline(c, r, u, w);
    }
    forall w | OnOutline(c, r, u, w) && Abs(v) <= w
      ensures Point(c.x + u, c.y + v) in Disc(c, r)
    {
      OutlineOverDisc(c, r, u, v, w);
    }
  }

  lemma DiscUnderOutline(c: Point, r: int, u: int, v: int) returns (w: int)
    requires r >= 0 && Point(c.x + u, c.y + v) in Disc(c, r)
    ensures Abs(v) <= w && Point(c.x + u, c.y + w) in Outline(c, r)
  {
    hide Column, AllSlices, Axes, Rings, Arc, Start;
    ColumnIsExact(c.x, c.y - r, 2 * r + 1, Point(c.x + u, c.y + v));
    AllSlicesAreCovered(c, Start(r), u, v);
    AxesAreExact(c, r, 0, r);
    if u == 0 && Abs(v) <= r {
      w := r;
    } else {
      var p :| p in Arc(Start(r)) && Covered(p.x, p.y, u, v);
      w := if Abs(u) == Abs(p.x) && Abs(v) <= p.y then p.y else p.x;
      RingsAreImages(c, Start(r), u, w);
      assert Image(p.x, p.y, u, w);
    }
  }

  lemma OutlineOverDisc(c: Point, r: int, u: int, v: int, w: int)
    requires r >= 0 && Abs(v) <= w && Point(c.x + u, c.y + w) in Outline(c, r)
    ensures Point(c.x + u, c.y + v) in Disc(c, r)
  {
    hide Column, AllSlices, Axes, Rings, Arc, Start;
    ColumnIsExact(c.x, c.y - r, 2 * r + 1, Point(c.x + u, c.y + v));
    AllSlicesAreCovered(c, Start(r), u, v);
    AxesAreExact(c, r, u, w);
    RingsAreImages(c, Start(r), u, w);
    if Point(c.x + u, c.y + w) in Axes(c, r) {
      if u != 0 {
        Widest(r);
        var p := Arc(Start(r))[0];
        assert Covered(p.x, p.y, u, v);
      }
    } else {
      NothingVisited(r);
      var p :| p in Arc(Start(r)) && Image(p.x, p.y, u, w);
      ArcNonNegative(r, p);
      assert Covered(p.x, p.y, u, v);
    }
  }

  lemma ArcNonNegative(r: int, p: Point)
    requires r >= 1 && p in Arc(Start(r))
    ensures p.x >= 0 && p.y >= 0
  {
    StartKeeps(r);
    hide Arc, MidInv, Nearest;
    var i :| 0 <= i < |Arc(Start(r))| && Arc(Start(r))[i] == p;
    ArcIsNearest(r, Start(r), i);
  }

  /** The first visited point reaches the full width. */
  lemma Widest(r: int)
    requires r >= 1
    ensures Arc(Start(r)) != []
    ensures var p := Arc(Start(r))[0]; p.x >= 0 && p.y >= 0 && (p.x == r || p.y == r)
  {
  }
}
