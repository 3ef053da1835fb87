/** What intersection over union means: counting the cells of a grid, and its values at the extremes
    (daemon/inference/bounding_box.h). */
module IouCells {
  import opened Nms

  /** A box with its corners on the lines of a grid. */
  datatype Cut = Cut(x1: int, y1: int, x2: int, y2: int)

  /** Where a grid line lies. */
  function Line(i: int, step: real): real { i as real * step }

  ghost predicate OnGrid(b: Box, c: Cut, step: real) {
    && b.x1 == Line(c.x1, step) && b.y1 == Line(c.y1, step) && b.x2 == Line(c.x2, step) && b.y2 == Line(c.y2, step)
  }

  /** The grid cells inside a box. */
  ghost function Cells(c: Cut): set<(int, int)> {
    set i, j | c.x1 <= i < c.x2 && c.y1 <= j < c.y2 :: (i, j)
  }

  lemma {:induction false} ColumnCount(x: int, y1: int, y2: int)
    requires y1 <= y2
    ensures |Cells(Cut(x, y1, x + 1, y2))| == y2 - y1
    decreases y2 - y1
  {
    var s := Cells(Cut(x, y1, x + 1, y2));
    if y1 == y2 {
      assert s == {};
    } else {
      ColumnCount(x, y1, y2 - 1);
      assert s == Cells(Cut(x, y1, x + 1, y2 - 1)) + {(x, y2 - 1)};
    }
  }

  lemma {:induction false} CellCount(c: Cut)
    requires c.x1 <= c.x2 && c.y1 <= c.y2
    ensures |Cells(c)| == (c.x2 - c.x1) * (c.y2 - c.y1)
    decreases c.x2 - c.x1
  {
    if c.x1 == c.x2 {
      assert Cells(c) == {};
    } else {
      var left, column := c.(x2 := c.x2 - 1), c.(x1 := c.x2 - 1);
      CellCount(left);
      ColumnCount(c.x2 - 1, c.y1, c.y2);
      assert Cells(c) == Cells(left) + Cells(column) && Cells(left) !! Cells(column);
      OneMore(c.x2 - c.x1, c.y2 - c.y1);
    }
  }

  lemma OneMore(w: int, h: int)
    ensures w * h == (w - 1) * h + h
  {}

  function Common(a: Cut, b: Cut): Cut {
    Cut(if a.x1 < b.x1 then b.x1 else a.x1, if a.y1 < b.y1 then b.y1 else a.y1,
        if b.x2 < a.x2 then b.x2 else a.x2, if b.y2 < a.y2 then b.y2 else a.y2)
  }

  lemma CommonCells(a: Cut, b: Cut)
    ensures Cells(a) * Cells(b) == Cells(Common(a, b))
  {}

  lemma UnionCount(a: set<(int, int)>, b: set<(int, int)>)
    ensures |a + b| + |a * b| == |a| + |b|
  {
    assert a + b == a + (b - a) && b == (b - a) + a * b;
  }

  lemma GridOrder(i: int, j: int, step: real)
    requires step > 0.0
    ensures i < j <==> Line(i, step) < Line(j, step)
    ensures i <= j <==> Line(i, step) <= Line(j, step)
  {
    var d := (j - i) as real;
    assert j as real * step == i as real * step + d * step;
    if i < j { assert d * step > 0.0; }
    if j < i { assert -d * step > 0.0; }
  }

  lemma GridArea(w: int, h: int, x: real, y: real, step: real)
    requires x == Line(w, step) && y == Line(h, step)
    ensures x * y == (w * h) as real * (step * step)
  {
    assert (w * h) as real == w as real * h as real;
    Products(w as real, h as real, step);
  }

  lemma Products(w: real, h: real, s: real)
    ensures (w * s) * (h * s) == (w * h) * (s * s)
  {
    assert (w * s) * (h * s) == w * (s * (h * s)) == w * (h * (s * s));
  }

  lemma AreaIsCells(b: Box, c: Cut, step: real)
    requires OnGrid(b, c, step) && c.x1 <= c.x2 && c.y1 <= c.y2
    ensures Area(b) == |Cells(c)| as real * (step * step)
  {
    hide Line, Cells;
    CellCount(c);
    SpanOnGrid(c.x1, c.x2, step);
    SpanOnGrid(c.y1, c.y2, step);
    GridArea(c.x2 - c.x1, c.y2 - c.y1, b.x2 - b.x1, b.y2 - b.y1, step);
  }

  lemma SpanOnGrid(i: int, j: int, step: real)
    ensures Line(j, step) - Line(i, step) == Line(j - i, step)
  {}

  lemma AreaIs(b: Box)
    ensures Area(b) == (b.x2 - b.x1) * (b.y2 - b.y1)
  {}

  lemma InterIsCells(a: Box, b: Box, c: Cut, d: Cut, step: real)
    requires step > 0.0 && OnGrid(a, c, step) && OnGrid(b, d, step)
    ensures Overlap(a, b) <==> Common(c, d).x1 < Common(c, d).x2 && Common(c, d).y1 < Common(c, d).y2
    ensures Overlap(a, b) ==> Inter(a, b) == |Cells(Common(c, d))| as real * (step * step)
    ensures Overlap(a, b) ==> c.x1 <= c.x2 && c.y1 <= c.y2 && d.x1 <= d.x2 && d.y1 <= d.y2
  {
    hide Line, Cells, Area;
    GridOrder(c.x1, d.x1, step);
    GridOrder(c.y1, d.y1, step);
    GridOrder(d.x2, c.x2, step);
    GridOrder(d.y2, c.y2, step);
    var e := Common(c, d);
    GridOrder(e.x1, e.x2, step);
    GridOrder(e.y1, e.y2, step);
    var both := Box(Max(a.x1, b.x1), Max(a.y1, b.y1), Min(a.x2, b.x2), Min(a.y2, b.y2), 0.0, 0);
    assert OnGrid(both, e, step);
    if Overlap(a, b) {
      AreaIsCells(both, e, step);
      AreaIs(both);
    }
  }

  /** The ratio is the number of cells in both boxes over the number in either, on every grid that both lie on. */
  lemma IouIsCells(a: Box, b: Box, c: Cut, d: Cut, step: real)
    requires step > 0.0 && OnGrid(a, c, step) && OnGrid(b, d, step)
    ensures Iou(a, b) * |Cells(c) + Cells(d)| as real == |Cells(c) * Cells(d)| as real
  {
    hide Cells, OnGrid, Inter, Area, Overlap;
    CommonCells(c, d);
    InterIsCells(a, b, c, d, step);
    if Overlap(a, b) {
      AreaIsCells(a, c, step);
      AreaIsCells(b, d, step);
      UnionCount(Cells(c), Cells(d));
      InterWithin(a, b);
      RatioOfSums(|Cells(c)|, |Cells(d)|, |Cells(c) * Cells(d)|, |Cells(c) + Cells(d)|, step * step,
                  Area(a), Area(b), Inter(a, b));
    } else {
      NoCells(Common(c, d));
    }
  }

  lemma RatioOfSums(k: nat, l: nat, both: nat, either: nat, s: real, a: real, b: real, n: real)
    requires s > 0.0 && k + l == both + either
    requires a == k as real * s && b == l as real * s && n == both as real * s && 0.0 < n <= a && n <= b
    ensures n / (a + b - n) * either as real == both as real
  {
    SumOfAreas(k as real, l as real, both as real, s);
    assert a + b - n == either as real * s;
    RatioScaled(both as real, either as real, s);
  }

  lemma NoCells(c: Cut)
    requires c.x1 >= c.x2 || c.y1 >= c.y2
    ensures |Cells(c)| == 0
  {
    assert Cells(c) == {};
  }

  lemma SumOfAreas(a: real, b: real, c: real, s: real)
    ensures a * s + b * s - c * s == (a + b - c) * s
  {}

  lemma RatioScaled(x: real, y: real, s: real)
    requires s > 0.0 && x * s > 0.0 && y * s > 0.0
    ensures x * s / (y * s) * y == x
  {
    var q := x * s / (y * s);
    assert q * (y * s) == x * s;
    assert q * y * s == x * s;
    assert (q * y - x) * s == 0.0;
  }

  predicate SameCorners(a: Box, b: Box) { a.x1 == b.x1 && a.y1 == b.y1 && a.x2 == b.x2 && a.y2 == b.y2 }

  predicate Lies(a: Box, b: Box) { b.x1 <= a.x1 && b.y1 <= a.y1 && a.x2 <= b.x2 && a.y2 <= b.y2 }

  predicate HasArea(b: Box) { b.x1 < b.x2 && b.y1 < b.y2 }

  /** Of a box inside another, the ratio is that of the areas. */
  lemma IouInside(a: Box, b: Box)
    requires HasArea(a) && Lies(a, b)
    ensures Area(b) > 0.0 && Iou(a, b) == Area(a) / Area(b)
  {
    InterWithin(a, b);
    assert Inter(a, b) == Area(a);
  }

  /** The ratio is 1 exactly of boxes with the same corners. */
  lemma IouOneIff(a: Box, b: Box)
    requires HasArea(a) && HasArea(b)
    ensures Iou(a, b) == 1.0 <==> SameCorners(a, b)
  {
    if SameCorners(a, b) { IouInside(a, b); }
    if Iou(a, b) == 1.0 {
      InterWithin(a, b);
      var n, u := Inter(a, b), Area(a) + Area(b) - Inter(a, b);
      RatioOne(n, u);
      assert n == Area(a) == Area(b);
      FullOverlap(Min(a.x2, b.x2) - Max(a.x1, b.x1), Min(a.y2, b.y2) - Max(a.y1, b.y1), a.x2 - a.x1, a.y2 - a.y1);
      FullOverlap(Min(a.x2, b.x2) - Max(a.x1, b.x1), Min(a.y2, b.y2) - Max(a.y1, b.y1), b.x2 - b.x1, b.y2 - b.y1);
    }
  }

  lemma RatioOne(n: real, u: real)
    requires u > 0.0 && n / u == 1.0
    ensures n == u
  {}

  lemma Gap(p: real, q: real, s: real)
    requires p <= q && s > 0.0
    ensures p * s <= q * s && (p * s == q * s ==> p == q)
  {
    assert (q - p) * s >= 0.0;
    if p < q { assert (q - p) * s > 0.0; }
  }

  lemma FullOverlap(w: real, h: real, x: real, y: real)
    requires 0.0 < w <= x && 0.0 < h <= y && w * h == x * y
    ensures w == x && h == y
  {
    Gap(w, x, h);
    Gap(h, y, x);
  }
}
