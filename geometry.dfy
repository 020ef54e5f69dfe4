/**
 * src/utils/geometry.ts: the rectangle and circle polygons, even-odd
 * point-in-polygon, rasterisation of a polygon over a fixed window of grid
 * cells, and the outer/inner polygon pair of a building. src/App.tsx carries
 * textual copies of the same helpers with the same constants; they are
 * modelled by these members.
 */
module Geometry {
  import opened Types

  /** `MARGIN`: how much the outer (collision) polygon is larger than the inner one. */
  const Margin: int := 1
  /** `GRID_SIZE`: canvas units per grid cell. */
  const GridSize: int := 10
  /** The sampling window is [WindowLo, WindowHi) on both axes: -GRID_WIDTH .. 2 * GRID_WIDTH. */
  const WindowLo: int := -100
  const WindowHi: int := 200
  /** Number of vertices of the circle approximation. */
  const Segments: nat := 32

  function Abs(k: int): (r: int)
    ensures r >= 0 && (r == k || r == -k)
  {
    if k < 0 then -k else k
  }

  /** `Math.round`: the nearest integer, a half rounded up, i.e. floor(v + 0.5). */
  function JsRound(v: real): (r: int)
    ensures r as real - 0.5 <= v < r as real + 0.5
  {
    (v + 0.5).Floor
  }

  /** Rounding is monotone. */
  lemma JsRoundMonotone(u: real, v: real)
    requires u <= v
    ensures JsRound(u) <= JsRound(v)
  {
  }

  /** `Math.round(w / 2)` of an integral w is (w + 1) div 2 (floor division). */
  lemma HalfOfInteger(w: int)
    ensures JsRound(w as real / 2.0) == (w + 1) / 2
  {
    var q := (w + 1) / 2;
    assert w + 1 == 2 * q || w + 1 == 2 * q + 1;
    assert q as real - 0.5 <= w as real / 2.0 < q as real + 0.5;
    var r := JsRound(w as real / 2.0);
    assert r as real - 0.5 <= w as real / 2.0 < r as real + 0.5;
    assert -1.0 < r as real - q as real < 1.0;
  }

  /**
   * `rectPoly(width, height)`: the four corners of the axis-aligned rectangle
   * centred at the origin with half-extents round(width / 2) and
   * round(height / 2), starting at the lower-left corner and turning
   * counter-clockwise (in y-up axes).
   */
  function RectPoly(width: real, height: real): (p: Polygon)
    ensures |p| == 4
    ensures p[2] == Point(JsRound(width / 2.0) as real, JsRound(height / 2.0) as real)
    ensures p[0] == Point(-p[2].x, -p[2].y) && p[1] == Point(p[2].x, -p[2].y) && p[3] == Point(-p[2].x, p[2].y)
  {
    var hw := JsRound(width / 2.0) as real;
    var hh := JsRound(height / 2.0) as real;
    [Point(-hw, -hh), Point(hw, -hh), Point(hw, hh), Point(-hw, hh)]
  }

  function Scale(p: Point, k: real): Point {
    Point(p.x * k, p.y * k)
  }

  /**
   * The value of `circlePoly(diameter)`. The trigonometry is passed in:
   * `unit(i)` stands for (cos(2 pi i / 32), sin(2 pi i / 32)).
   */
  function CirclePolygon(diameter: real, unit: nat -> Point): (p: Polygon)
    ensures |p| == Segments
    ensures forall i :: 0 <= i < Segments ==> p[i] == Scale(unit(i), diameter / 2.0)
  {
    seq(Segments, i requires 0 <= i => Scale(unit(i), diameter / 2.0))
  }

  /** `circlePoly(diameter)`: pushes the 32 vertices in angle order. */
  method CirclePoly(diameter: real, unit: nat -> Point) returns (points: Polygon)
    ensures |points| == Segments
    ensures points == CirclePolygon(diameter, unit)
  {
    var radius := diameter / 2.0;
    points := [];
    for i := 0 to Segments
      invariant |points| == i
      invariant forall k :: 0 <= k < i ==> points[k] == Scale(unit(k), radius)
    {
      points := points + [Scale(unit(i), radius)];
    }
  }

  /** When the trigonometry gives points on the unit circle, every vertex lies at distance diameter / 2. */
  lemma CircleVerticesOnCircle(diameter: real, unit: nat -> Point)
    requires forall i: nat :: unit(i).x * unit(i).x + unit(i).y * unit(i).y == 1.0
    ensures forall i :: 0 <= i < Segments ==>
      var v := CirclePolygon(diameter, unit)[i];
      v.x * v.x + v.y * v.y == (diameter / 2.0) * (diameter / 2.0)
  {
    var r := diameter / 2.0;
    forall i | 0 <= i < Segments
      ensures var v := CirclePolygon(diameter, unit)[i]; v.x * v.x + v.y * v.y == r * r
    {
      var u := unit(i);
      assert (u.x * r) * (u.x * r) + (u.y * r) * (u.y * r) == (u.x * u.x + u.y * u.y) * (r * r);
    }
  }

  /**
   * `tileToCoords(tile)`: a cell's offset in canvas units, a multiple of the
   * cell size from which the cell is read back by division.
   */
  function TileToCoords(tile: Tile): (c: Tile)
    ensures c.x % GridSize == 0 && c.y % GridSize == 0
    ensures Tile(c.x / GridSize, c.y / GridSize) == tile
  {
    Tile(tile.x * GridSize, tile.y * GridSize)
  }

  /** Canvas offsets are exact multiples of the cell size, and translating a tile translates its offset by whole cells. */
  lemma TileToCoordsTranslates(tile: Tile, dx: int, dy: int)
    ensures TileToCoords(tile).x % GridSize == 0 && TileToCoords(tile).y % GridSize == 0
    ensures TileToCoords(Tile(tile.x + dx, tile.y + dy))
         == Tile(TileToCoords(tile).x + dx * GridSize, TileToCoords(tile).y + dy * GridSize)
  {
  }

  // ---------------------------------------------------------------------------
  // Point in polygon

  /**
   * Whether the edge from a to b crosses the horizontal ray going right from p.
   * The first conjunct excludes horizontal edges, so the quotient never
   * divides by zero.
   */
  predicate CrossesEdge(p: Point, a: Point, b: Point) {
    (a.y > p.y) != (b.y > p.y) && p.x < RayMeetsEdge(p, a, b)
  }

  /** The x-coordinate at which the line through a and b meets the horizontal line through p. */
  function RayMeetsEdge(p: Point, a: Point, b: Point): real
    requires a.y != b.y
  {
    (b.x - a.x) * (p.y - a.y) / (b.y - a.y) + a.x
  }

  /** Edge i runs from vertex i back to vertex j = i - 1 (the last vertex for i = 0). */
  predicate Crosses(p: Point, vs: Polygon, i: nat)
    requires i < |vs|
  {
    CrossesEdge(p, vs[i], vs[if i == 0 then |vs| - 1 else i - 1])
  }

  /** A horizontal edge is never crossed. */
  lemma HorizontalEdge(p: Point, a: Point, b: Point)
    requires a.y == b.y
    ensures !CrossesEdge(p, a, b)
  {
  }

  /** A vertical edge is crossed iff p is strictly left of it and within its half-open y-span. */
  lemma VerticalEdge(p: Point, a: Point, b: Point)
    requires a.x == b.x
    ensures CrossesEdge(p, a, b) <==> (a.y > p.y) != (b.y > p.y) && p.x < a.x
  {
    if (a.y > p.y) != (b.y > p.y) {
      assert (b.x - a.x) * (p.y - a.y) / (b.y - a.y) == 0.0;
    }
  }

  /** The parity of the crossings of edges 0 .. n - 1. */
  function InsideAfter(p: Point, vs: Polygon, n: nat): bool
    requires n <= |vs|
  {
    if n == 0 then false else InsideAfter(p, vs, n - 1) != Crosses(p, vs, n - 1)
  }

  /** The even-odd rule: p is inside iff an odd number of edges cross its ray. */
  predicate Inside(p: Point, vs: Polygon) {
    InsideAfter(p, vs, |vs|)
  }

  /** `pointInPolygon(point, vs)`: toggles `inside` at each crossing edge. */
  method PointInPolygon(point: Point, vs: Polygon) returns (inside: bool)
    ensures inside == Inside(point, vs)
    ensures |vs| == 0 ==> !inside
  {
    var x, y := point.x, point.y;
    inside := false;
    var i, j := 0, |vs| - 1;
    while i < |vs|
      invariant 0 <= i <= |vs|
      invariant j == if i == 0 then |vs| - 1 else i - 1
      invariant inside == InsideAfter(point, vs, i)
    {
      var xi, yi := vs[i].x, vs[i].y;
      var xj, yj := vs[j].x, vs[j].y;
      var intersect := (yi > y) != (yj > y) && x < (xj - xi) * (y - yi) / (yj - yi) + xi;
      assert (yi > y) != (yj > y) ==> (xj - xi) * (y - yi) / (yj - yi) + xi == RayMeetsEdge(point, vs[i], vs[j]);
      assert intersect == CrossesEdge(point, vs[i], vs[j]);
      if intersect {
        inside := !inside;
      }
      j, i := i, i + 1;
    }
  }

  /** The absolute half-extent |round(d / 2)| of a rectangle dimension d. */
  function Half(d: real): int {
    Abs(JsRound(d / 2.0))
  }

  /**
   * Closed form for the rectangle: with a = |round(width / 2)| and
   * b = |round(height / 2)|, p is inside iff -a <= x < a and -b <= y < b. The
   * left edge counts points on it, the right edge does not (and likewise
   * bottom and top).
   */
  lemma RectInside(width: real, height: real, p: Point)
    ensures Inside(p, RectPoly(width, height)) <==>
      -(Half(width) as real) <= p.x < Half(width) as real &&
      -(Half(height) as real) <= p.y < Half(height) as real
  {
    var vs := RectPoly(width, height);
    var c0, c1, c2, c3 := Crosses(p, vs, 0), Crosses(p, vs, 1), Crosses(p, vs, 2), Crosses(p, vs, 3);
    HorizontalEdge(p, vs[1], vs[0]);
    HorizontalEdge(p, vs[3], vs[2]);
    VerticalEdge(p, vs[0], vs[3]);
    VerticalEdge(p, vs[2], vs[1]);
    assert InsideAfter(p, vs, 1) == c0;
    assert InsideAfter(p, vs, 2) == (c0 != c1);
    assert InsideAfter(p, vs, 3) == ((c0 != c1) != c2);
    assert InsideAfter(p, vs, 4) == (((c0 != c1) != c2) != c3);
  }

  /** For rectPoly(4, 4): (0, 0) is inside and (3, 3) is outside. */
  lemma RectFourByFourExamples()
    ensures Inside(Point(0.0, 0.0), RectPoly(4.0, 4.0))
    ensures !Inside(Point(3.0, 3.0), RectPoly(4.0, 4.0))
  {
    assert JsRound(2.0) == 2;
    RectInside(4.0, 4.0, Point(0.0, 0.0));
    RectInside(4.0, 4.0, Point(3.0, 3.0));
  }

  // ---------------------------------------------------------------------------
  // Rasterisation

  /** The centre of cell (x, y). */
  function Center(x: int, y: int): Point {
    Point(x as real + 0.5, y as real + 0.5)
  }

  /** The cells (x0 .. x1 - 1, y) whose centre is inside, in increasing x. */
  function RowTiles(poly: Polygon, y: int, x0: int, x1: int): seq<Tile>
    decreases x1 - x0
  {
    if x1 <= x0 then []
    else RowTiles(poly, y, x0, x1 - 1) + (if Inside(Center(x1 - 1, y), poly) then [Tile(x1 - 1, y)] else [])
  }

  /** The rows y0 .. y1 - 1 of cells in x0 .. x1 - 1 whose centre is inside, row after row. */
  function GridTiles(poly: Polygon, y0: int, y1: int, x0: int, x1: int): seq<Tile>
    decreases y1 - y0
  {
    if y1 <= y0 then [] else GridTiles(poly, y0, y1 - 1, x0, x1) + RowTiles(poly, y1 - 1, x0, x1)
  }

  /** What `polygonToGridTiles` returns: the inside cells of the window in row-major order. */
  function Raster(poly: Polygon): seq<Tile> {
    GridTiles(poly, WindowLo, WindowHi, WindowLo, WindowHi)
  }

  /** `polygonToGridTiles(polygon)`: tests every window cell's centre, rows outermost. */
  method PolygonToGridTiles(polygon: Polygon) returns (tiles: seq<Tile>)
    ensures tiles == Raster(polygon)
  {
    tiles := [];
    var y := WindowLo;
    while y < WindowHi
      invariant WindowLo <= y <= WindowHi
      invariant tiles == GridTiles(polygon, WindowLo, y, WindowLo, WindowHi)
    {
      ghost var done := tiles;
      var x := WindowLo;
      while x < WindowHi
        invariant WindowLo <= x <= WindowHi
        invariant tiles == done + RowTiles(polygon, y, WindowLo, x)
      {
        var inside := PointInPolygon(Point(x as real + 0.5, y as real + 0.5), polygon);
        ghost var row, cell := RowTiles(polygon, y, WindowLo, x), if inside then [Tile(x, y)] else [];
        assert RowTiles(polygon, y, WindowLo, x + 1) == row + cell;
        assert (done + row) + cell == done + (row + cell);
        if inside {
          tiles := tiles + [Tile(x, y)];
        }
        x := x + 1;
      }
      assert GridTiles(polygon, WindowLo, y + 1, WindowLo, WindowHi)
          == GridTiles(polygon, WindowLo, y, WindowLo, WindowHi) + RowTiles(polygon, y, WindowLo, WindowHi);
      y := y + 1;
    }
  }

  /** Row-major order: by row, then by column. */
  predicate RowMajorLess(s: Tile, t: Tile) {
    s.y < t.y || (s.y == t.y && s.x < t.x)
  }

  predicate RowMajor(s: seq<Tile>) {
    forall i, j :: 0 <= i < j < |s| ==> RowMajorLess(s[i], s[j])
  }

  lemma {:induction false} RowTilesSpec(poly: Polygon, y: int, x0: int, x1: int)
    ensures forall t :: t in RowTiles(poly, y, x0, x1) <==>
      t.y == y && x0 <= t.x < x1 && Inside(Center(t.x, t.y), poly)
    ensures RowMajor(RowTiles(poly, y, x0, x1))
    decreases x1 - x0
  {
    if x1 > x0 {
      RowTilesSpec(poly, y, x0, x1 - 1);
      var a := RowTiles(poly, y, x0, x1 - 1);
      var c := if Inside(Center(x1 - 1, y), poly) then [Tile(x1 - 1, y)] else [];
      assert RowTiles(poly, y, x0, x1) == a + c;
      forall i, j | 0 <= i < j < |a + c| ensures RowMajorLess((a + c)[i], (a + c)[j]) {
        if j >= |a| {
          assert a[i] in a;
        }
      }
    }
  }

  lemma {:induction false} GridTilesSpec(poly: Polygon, y0: int, y1: int, x0: int, x1: int)
    ensures forall t :: t in GridTiles(poly, y0, y1, x0, x1) <==>
      y0 <= t.y < y1 && x0 <= t.x < x1 && Inside(Center(t.x, t.y), poly)
    ensures RowMajor(GridTiles(poly, y0, y1, x0, x1))
    decreases y1 - y0
  {
    if y1 > y0 {
      GridTilesSpec(poly, y0, y1 - 1, x0, x1);
      RowTilesSpec(poly, y1 - 1, x0, x1);
      var a, b := GridTiles(poly, y0, y1 - 1, x0, x1), RowTiles(poly, y1 - 1, x0, x1);
      forall i, j | 0 <= i < j < |a + b| ensures RowMajorLess((a + b)[i], (a + b)[j]) {
        if j >= |a| && i < |a| {
          assert a[i] in a && b[j - |a|] in b;
        }
      }
    }
  }

  /**
   * The rasteriser returns exactly the window cells -100 <= x, y < 200 whose
   * centre (x + 0.5, y + 0.5) is inside the polygon, in row-major order, so no
   * cell occurs twice.
   */
  lemma RasterSpec(poly: Polygon)
    ensures forall t :: t in Raster(poly) <==>
      WindowLo <= t.x < WindowHi && WindowLo <= t.y < WindowHi && Inside(Center(t.x, t.y), poly)
    ensures RowMajor(Raster(poly))
    ensures forall i, j :: 0 <= i < j < |Raster(poly)| ==> Raster(poly)[i] != Raster(poly)[j]
  {
    GridTilesSpec(poly, WindowLo, WindowHi, WindowLo, WindowHi);
  }

  /** The number of integers in [lo, hi) ∩ [lo', hi'). */
  function Overlap(lo: int, hi: int, lo': int, hi': int): nat {
    var a := if lo < lo' then lo' else lo;
    var b := if hi < hi' then hi else hi';
    if a < b then b - a else 0
  }

  /** The inside cells of poly are exactly those with -a <= x < a and -b <= y < b. */
  ghost predicate CellBox(poly: Polygon, a: int, b: int) {
    forall x: int, y: int :: Inside(Center(x, y), poly) <==> -a <= x < a && -b <= y < b
  }

  /** The cells of a rectangle form the box of its half-extents. */
  lemma RectCellBox(width: real, height: real)
    ensures CellBox(RectPoly(width, height), Half(width), Half(height))
  {
    forall x: int, y: int
      ensures Inside(Center(x, y), RectPoly(width, height)) <==>
        -Half(width) <= x < Half(width) && -Half(height) <= y < Half(height)
    {
      RectInside(width, height, Center(x, y));
    }
  }

  lemma {:induction false} BoxRowCount(poly: Polygon, a: int, b: int, y: int, x0: int, x1: int)
    requires CellBox(poly, a, b) && x0 <= x1
    ensures |RowTiles(poly, y, x0, x1)| == if -b <= y < b then Overlap(x0, x1, -a, a) else 0
    decreases x1 - x0
  {
    if x1 > x0 {
      BoxRowCount(poly, a, b, y, x0, x1 - 1);
      assert Inside(Center(x1 - 1, y), poly) <==> -a <= x1 - 1 < a && -b <= y < b;
    }
  }

  lemma MulDistributes(r: int, d: int, w: int)
    ensures (r + d) * w == r * w + d * w
  {
  }

  lemma {:induction false} BoxGridCount(poly: Polygon, a: int, b: int, y0: int, y1: int, x0: int, x1: int)
    requires CellBox(poly, a, b) && y0 <= y1 && x0 <= x1
    ensures |GridTiles(poly, y0, y1, x0, x1)| == Overlap(y0, y1, -b, b) * Overlap(x0, x1, -a, a)
    decreases y1 - y0
  {
    if y1 > y0 {
      var w := Overlap(x0, x1, -a, a);
      BoxGridCount(poly, a, b, y0, y1 - 1, x0, x1);
      BoxRowCount(poly, a, b, y1 - 1, x0, x1);
      var rows := Overlap(y0, y1 - 1, -b, b);
      var d := if -b <= y1 - 1 < b then 1 else 0;
      assert Overlap(y0, y1, -b, b) == rows + d;
      MulDistributes(rows, d, w);
    }
  }

  lemma RectRasterMembers(width: real, height: real)
    ensures forall t :: t in Raster(RectPoly(width, height)) <==>
      WindowLo <= t.x < WindowHi && WindowLo <= t.y < WindowHi &&
      -Half(width) <= t.x < Half(width) && -Half(height) <= t.y < Half(height)
  {
    var poly, a, b := RectPoly(width, height), Half(width), Half(height);
    RectCellBox(width, height);
    RasterSpec(poly);
  }

  /** A centred span of half-width a <= 100 lies wholly inside the window. */
  lemma WindowOverlap(a: int)
    requires 0 <= a <= 100
    ensures Overlap(WindowLo, WindowHi, -a, a) == 2 * a
  {
  }

  lemma RectRasterCount(width: real, height: real)
    requires Half(width) <= 100 && Half(height) <= 100
    ensures |Raster(RectPoly(width, height))| == (2 * Half(width)) * (2 * Half(height))
  {
    var poly, a, b := RectPoly(width, height), Half(width), Half(height);
    RectCellBox(width, height);
    BoxGridCount(poly, a, b, WindowLo, WindowHi, WindowLo, WindowHi);
    WindowOverlap(a);
    WindowOverlap(b);
  }

  /**
   * Rasterising rectPoly(width, height) whose half-extents a = |round(width / 2)|
   * and b = |round(height / 2)| fit the window yields exactly the cells
   * -a <= x < a, -b <= y < b: (2a) * (2b) of them.
   */
  lemma RectRaster(width: real, height: real)
    requires Half(width) <= 100 && Half(height) <= 100
    ensures forall t :: t in Raster(RectPoly(width, height)) <==>
      -Half(width) <= t.x < Half(width) && -Half(height) <= t.y < Half(height)
    ensures |Raster(RectPoly(width, height))| == (2 * Half(width)) * (2 * Half(height))
  {
    RectRasterMembers(width, height);
    RectRasterCount(width, height);
  }

  /** An even non-negative dimension has half-extent exactly half of it. */
  lemma EvenHalf(w: int)
    requires 0 <= w && w % 2 == 0
    ensures 2 * Half(w as real) == w
  {
    HalfOfInteger(w);
    assert (w + 1) / 2 == w / 2;
  }

  /** For even W, H with 0 <= W, H <= 200 the rectangle rasterises to exactly W * H cells. */
  lemma EvenRectRaster(w: int, h: int)
    requires 0 <= w <= 200 && 0 <= h <= 200 && w % 2 == 0 && h % 2 == 0
    ensures |Raster(RectPoly(w as real, h as real))| == w * h
  {
    EvenHalf(w);
    EvenHalf(h);
    RectRaster(w as real, h as real);
  }

  // ---------------------------------------------------------------------------
  // Outer / inner polygon pair

  datatype PolygonPair = PolygonPair(outer: Polygon, inner: Polygon)

  /**
   * `createPolygons(shape, width, height)`: the inner polygon at the given
   * size, the outer one inflated by MARGIN (circles: diameter + MARGIN / 2;
   * rectangles: both dimensions + MARGIN). Circles ignore the height.
   */
  function CreatePolygons(shape: Shape, width: real, height: real, unit: nat -> Point): (r: PolygonPair)
    ensures shape == Circle ==> |r.inner| == Segments && |r.outer| == Segments
    ensures shape == Rectangle ==> |r.inner| == 4 && |r.outer| == 4
    ensures shape == Rectangle && width >= 0.0 && height >= 0.0 ==>
      0.0 <= r.inner[2].x <= r.outer[2].x && 0.0 <= r.inner[2].y <= r.outer[2].y
  {
    JsRoundMonotone(width / 2.0, (width + Margin as real) / 2.0);
    JsRoundMonotone(height / 2.0, (height + Margin as real) / 2.0);
    var inner := if shape == Circle then CirclePolygon(width, unit) else RectPoly(width, height);
    var outer := if shape == Circle then CirclePolygon(width + Margin as real / 2.0, unit)
                 else RectPoly(width + Margin as real, height + Margin as real);
    PolygonPair(outer, inner)
  }

  /** The circle pair does not depend on the height. */
  lemma CircleIgnoresHeight(width: real, h1: real, h2: real, unit: nat -> Point)
    ensures CreatePolygons(Circle, width, h1, unit) == CreatePolygons(Circle, width, h2, unit)
  {
  }

  /**
   * For an integral dimension w the outer half-extent round((w + 1) / 2) equals
   * the inner one round(w / 2) when w is odd and exceeds it by one when w is even.
   */
  lemma OuterHalfExtent(w: int)
    ensures JsRound((w + Margin) as real / 2.0) == JsRound(w as real / 2.0) + (if w % 2 == 0 then 1 else 0)
  {
    HalfOfInteger(w);
    HalfOfInteger(w + Margin);
  }

  /** Every point inside a rectangle's inner polygon is inside its outer polygon. */
  lemma RectOuterEnclosesInner(width: real, height: real, p: Point, unit: nat -> Point)
    requires width >= 0.0 && height >= 0.0
    ensures Inside(p, CreatePolygons(Rectangle, width, height, unit).inner) ==>
            Inside(p, CreatePolygons(Rectangle, width, height, unit).outer)
  {
    RectInside(width, height, p);
    RectInside(width + Margin as real, height + Margin as real, p);
  }
}
