/**
  Plate-corner geometry of the entry camera (app/cam.py): ordering the four
  vertices of a quadrilateral into top-left, top-right, bottom-right,
  bottom-left, and the size and destination rectangle of the perspective
  correction. Contour points are integers; a Euclidean length truncated by
  `int()` is the floor of the square root of the squared distance.
*/
module Geometry {

  /** An image coordinate: x grows to the right, y grows downwards. */
  datatype Point = Point(x: int, y: int)

  /** Four corners, in the order top-left, top-right, bottom-right, bottom-left. */
  datatype Quad = Quad(topLeft: Point, topRight: Point, bottomRight: Point, bottomLeft: Point)

  /** Width and height, in pixels, of the rectified plate image. */
  datatype Size = Size(width: int, height: int)

  /** The source corners, the destination corners and the output size handed
      to the perspective transform. */
  datatype Rectification = Rectification(source: Quad, destination: seq<Point>, size: Size)

  /** `puntos.sum(axis=1)` for one point. */
  function Sum(p: Point): int { p.x + p.y }

  /** `np.diff(puntos, axis=1)` for one point: second column minus first, y - x. */
  function Diff(p: Point): int { p.y - p.x }

  /** Index of the first smallest key, as numpy's `argmin` picks it. */
  function ArgMin(keys: seq<int>): (i: nat)
    requires |keys| > 0
    ensures i < |keys|
    ensures forall j :: 0 <= j < |keys| ==> keys[i] <= keys[j]
    ensures forall j :: 0 <= j < i ==> keys[i] < keys[j]
  {
    if |keys| == 1 then 0
    else
      var i := ArgMin(keys[..|keys| - 1]);
      if keys[|keys| - 1] < keys[i] then |keys| - 1 else i
  }

  /** Index of the first largest key, as numpy's `argmax` picks it. */
  function ArgMax(keys: seq<int>): (i: nat)
    requires |keys| > 0
    ensures i < |keys|
    ensures forall j :: 0 <= j < |keys| ==> keys[j] <= keys[i]
    ensures forall j :: 0 <= j < i ==> keys[j] < keys[i]
  {
    if |keys| == 1 then 0
    else
      var i := ArgMax(keys[..|keys| - 1]);
      if keys[i] < keys[|keys| - 1] then |keys| - 1 else i
  }

  function Sums(pts: seq<Point>): seq<int> {
    seq(|pts|, k requires 0 <= k < |pts| => Sum(pts[k]))
  }

  function Diffs(pts: seq<Point>): seq<int> {
    seq(|pts|, k requires 0 <= k < |pts| => Diff(pts[k]))
  }

  /**
    `ordenar_puntos`: top-left has the smallest x + y, bottom-right the largest;
    top-right has the smallest y - x, bottom-left the largest. Each corner is
    an input point, and ties go to the earliest input point. Nothing makes the
    four corners distinct: see DiamondRepeatsCorner.
  */
  function OrderPoints(pts: seq<Point>): (q: Quad)
    requires |pts| == 4
    ensures q.topLeft in pts && q.topRight in pts && q.bottomRight in pts && q.bottomLeft in pts
    ensures forall p :: p in pts ==> Sum(q.topLeft) <= Sum(p) <= Sum(q.bottomRight)
    ensures forall p :: p in pts ==> Diff(q.topRight) <= Diff(p) <= Diff(q.bottomLeft)
  {
    var sums, diffs := Sums(pts), Diffs(pts);
    var tl, br := ArgMin(sums), ArgMax(sums);
    var tr, bl := ArgMin(diffs), ArgMax(diffs);
    assert forall k :: 0 <= k < 4 ==> sums[k] == Sum(pts[k]) && diffs[k] == Diff(pts[k]);
    assert forall p :: p in pts ==> exists k :: 0 <= k < 4 && p == pts[k];
    Quad(pts[tl], pts[tr], pts[br], pts[bl])
  }

  /** Ties go to the earliest input point: each corner is an input point
      strictly better than every point before it. */
  lemma OrderPointsFirstOccurrence(pts: seq<Point>)
    requires |pts| == 4
    ensures exists i :: 0 <= i < 4 && OrderPoints(pts).topLeft == pts[i] && forall j :: 0 <= j < i ==> Sum(pts[i]) < Sum(pts[j])
    ensures exists i :: 0 <= i < 4 && OrderPoints(pts).bottomRight == pts[i] && forall j :: 0 <= j < i ==> Sum(pts[j]) < Sum(pts[i])
    ensures exists i :: 0 <= i < 4 && OrderPoints(pts).topRight == pts[i] && forall j :: 0 <= j < i ==> Diff(pts[i]) < Diff(pts[j])
    ensures exists i :: 0 <= i < 4 && OrderPoints(pts).bottomLeft == pts[i] && forall j :: 0 <= j < i ==> Diff(pts[j]) < Diff(pts[i])
  {
    var sums, diffs := Sums(pts), Diffs(pts);
    assert forall k :: 0 <= k < 4 ==> sums[k] == Sum(pts[k]) && diffs[k] == Diff(pts[k]);
    var tl, br := ArgMin(sums), ArgMax(sums);
    var tr, bl := ArgMin(diffs), ArgMax(diffs);
    assert OrderPoints(pts) == Quad(pts[tl], pts[tr], pts[br], pts[bl]);
  }

  function Square(n: int): nat { n * n }

  /** The largest natural number whose square does not exceed n. */
  function FloorSqrt(n: nat): (r: nat)
    ensures r * r <= n < (r + 1) * (r + 1)
  {
    if n == 0 then 0
    else
      var s := FloorSqrt(n - 1);
      if (s + 1) * (s + 1) <= n then s + 1 else s
  }

  lemma SquareMonotone(a: nat, b: nat)
    requires a <= b
    ensures a * a <= b * b
  {
    assert a * a <= a * b by { MultiplyMonotone(a, a, b); }
    assert a * b <= b * b by { MultiplyMonotone(b, a, b); }
  }

  lemma MultiplyMonotone(k: nat, a: nat, b: nat)
    requires a <= b
    ensures k * a <= k * b
  {
  }

  /** The floor square root is the only natural number bracketing n between
      its square and the next square. */
  lemma {:induction false} FloorSqrtUnique(n: nat, r: nat)
    requires r * r <= n < (r + 1) * (r + 1)
    ensures FloorSqrt(n) == r
  {
    var s := FloorSqrt(n);
    if s < r {
      SquareMonotone(s + 1, r);
    } else if r < s {
      SquareMonotone(r + 1, s);
    }
  }

  lemma FloorSqrtOfSquare(d: nat)
    ensures FloorSqrt(d * d) == d
  {
    assert d * d < (d + 1) * (d + 1);
    FloorSqrtUnique(d * d, d);
  }

  /** `int(np.linalg.norm(p - q))` over integer points. */
  function EdgeLength(p: Point, q: Point): nat {
    FloorSqrt(Square(p.x - q.x) + Square(p.y - q.y))
  }

  /** The edge length is exactly the truncated Euclidean distance: the one
      natural number whose square and next square bracket the squared
      distance. */
  lemma EdgeLengthExact(p: Point, q: Point, r: nat)
    requires r * r <= Square(p.x - q.x) + Square(p.y - q.y) < (r + 1) * (r + 1)
    ensures EdgeLength(p, q) == r
  {
    FloorSqrtUnique(Square(p.x - q.x) + Square(p.y - q.y), r);
  }

  /** Output size: the longer of the two horizontal edges and the longer of the
      two vertical edges, each truncated before the maximum is taken. */
  function TargetSize(q: Quad): (s: Size)
    ensures s.width >= EdgeLength(q.bottomRight, q.bottomLeft) && s.width >= EdgeLength(q.topRight, q.topLeft)
    ensures s.width == EdgeLength(q.bottomRight, q.bottomLeft) || s.width == EdgeLength(q.topRight, q.topLeft)
    ensures s.height >= EdgeLength(q.topRight, q.bottomRight) && s.height >= EdgeLength(q.topLeft, q.bottomLeft)
    ensures s.height == EdgeLength(q.topRight, q.bottomRight) || s.height == EdgeLength(q.topLeft, q.bottomLeft)
  {
    var w1, w2 := EdgeLength(q.bottomRight, q.bottomLeft), EdgeLength(q.topRight, q.topLeft);
    var h1, h2 := EdgeLength(q.topRight, q.bottomRight), EdgeLength(q.topLeft, q.bottomLeft);
    Size(if w1 >= w2 then w1 else w2, if h1 >= h2 then h1 else h2)
  }

  /** The destination corners (0,0), (w-1,0), (w-1,h-1), (0,h-1): the
      w-by-h pixel rectangle at the origin, listed TL, TR, BR, BL. */
  function Destination(s: Size): (r: seq<Point>)
    ensures r == Corners(0, 0, s.width - 1, s.height - 1)
    ensures s.width >= 1 && s.height >= 1 ==> forall k :: 0 <= k < |r| ==>
      0 <= r[k].x < s.width && 0 <= r[k].y < s.height
  {
    [Point(0, 0), Point(s.width - 1, 0), Point(s.width - 1, s.height - 1), Point(0, s.height - 1)]
  }

  /** app/cam.py has no guard for a zero width or height; the model asks the
      caller for a non-degenerate quadrilateral. */
  predicate Rectifiable(pts: seq<Point>) {
    |pts| == 4 && TargetSize(OrderPoints(pts)).width >= 1 && TargetSize(OrderPoints(pts)).height >= 1
  }

  /** The geometric part of `enderezar_imagen`, up to the foreign calls
      `getPerspectiveTransform` and `warpPerspective`. */
  function Straighten(pts: seq<Point>): (r: Rectification)
    requires Rectifiable(pts)
    ensures r.source == OrderPoints(pts)
    ensures r.size == TargetSize(r.source)
    ensures r.destination == Corners(0, 0, r.size.width - 1, r.size.height - 1)
    ensures r.size.width >= 1 && r.size.height >= 1
  {
    var q := OrderPoints(pts);
    var s := TargetSize(q);
    var d := Destination(s);
    Rectification(q, d, s)
  }

  /** The four corners of the axis-aligned rectangle [x0, x1] x [y0, y1]. */
  function Corners(x0: int, y0: int, x1: int, y1: int): seq<Point> {
    [Point(x0, y0), Point(x1, y0), Point(x1, y1), Point(x0, y1)]
  }

  /**
    An axis-aligned rectangle given in any order comes back as top-left,
    top-right, bottom-right, bottom-left, the output size is its side lengths
    and the destination is the rectangle of that size at the origin.
  */
  lemma AxisAlignedRectangle(pts: seq<Point>, x0: int, y0: int, x1: int, y1: int)
    requires x0 < x1 && y0 < y1
    requires |pts| == 4 && multiset(pts) == multiset(Corners(x0, y0, x1, y1))
    ensures OrderPoints(pts) == Quad(Point(x0, y0), Point(x1, y0), Point(x1, y1), Point(x0, y1))
    ensures Rectifiable(pts)
    ensures Straighten(pts).size == Size(x1 - x0, y1 - y0)
    ensures Straighten(pts).destination == Corners(0, 0, x1 - x0 - 1, y1 - y0 - 1)
  {
    SameElements(pts, Corners(x0, y0, x1, y1));
    RectangleCorners(pts, x0, y0, x1, y1);
    RectangleStraightened(pts, x0, y0, x1, y1);
  }

  lemma RectangleStraightened(pts: seq<Point>, x0: int, y0: int, x1: int, y1: int)
    requires x0 < x1 && y0 < y1
    requires |pts| == 4 && OrderPoints(pts) == Quad(Point(x0, y0), Point(x1, y0), Point(x1, y1), Point(x0, y1))
    ensures Rectifiable(pts)
    ensures Straighten(pts).size == Size(x1 - x0, y1 - y0)
    ensures Straighten(pts).destination == Corners(0, 0, x1 - x0 - 1, y1 - y0 - 1)
  {
    RectangleSize(OrderPoints(pts));
  }

  lemma RectangleCorners(pts: seq<Point>, x0: int, y0: int, x1: int, y1: int)
    requires x0 < x1 && y0 < y1
    requires |pts| == 4 && forall p :: p in pts <==> p in Corners(x0, y0, x1, y1)
    ensures OrderPoints(pts) == Quad(Point(x0, y0), Point(x1, y0), Point(x1, y1), Point(x0, y1))
  {
    var c := Corners(x0, y0, x1, y1);
    var q := OrderPoints(pts);
    assert q.topLeft == c[0] by {
      assert c[0] in pts;
      assert Sum(q.topLeft) <= Sum(c[0]);
      assert q.topLeft in c;
    }
    assert q.bottomRight == c[2] by {
      assert c[2] in pts;
      assert Sum(c[2]) <= Sum(q.bottomRight);
      assert q.bottomRight in c;
    }
    assert q.topRight == c[1] by {
      assert c[1] in pts;
      assert Diff(q.topRight) <= Diff(c[1]);
      assert q.topRight in c;
    }
    assert q.bottomLeft == c[3] by {
      assert c[3] in pts;
      assert Diff(c[3]) <= Diff(q.bottomLeft);
      assert q.bottomLeft in c;
    }
  }

  lemma SameElements<T>(s: seq<T>, t: seq<T>)
    requires multiset(s) == multiset(t)
    ensures forall p :: p in s <==> p in t
  {
    forall p ensures p in s <==> p in t {
      assert p in s <==> p in multiset(s);
      assert p in t <==> p in multiset(t);
    }
  }

  lemma RectangleSize(q: Quad)
    requires q.topLeft.y == q.topRight.y && q.bottomLeft.y == q.bottomRight.y
    requires q.topLeft.x == q.bottomLeft.x && q.topRight.x == q.bottomRight.x
    requires q.topLeft.x < q.topRight.x && q.topLeft.y < q.bottomLeft.y
    ensures TargetSize(q) == Size(q.topRight.x - q.topLeft.x, q.bottomLeft.y - q.topLeft.y)
  {
    HorizontalLength(q.bottomRight, q.bottomLeft);
    HorizontalLength(q.topRight, q.topLeft);
    VerticalLength(q.topRight, q.bottomRight);
    VerticalLength(q.topLeft, q.bottomLeft);
  }

  lemma HorizontalLength(p: Point, q: Point)
    requires p.y == q.y && q.x <= p.x
    ensures EdgeLength(p, q) == p.x - q.x
  {
    var d := p.x - q.x;
    assert Square(p.y - q.y) == 0;
    assert Square(p.x - q.x) + Square(p.y - q.y) == d * d;
    FloorSqrtOfSquare(d);
  }

  lemma VerticalLength(p: Point, q: Point)
    requires p.x == q.x && p.y <= q.y
    ensures EdgeLength(p, q) == q.y - p.y
  {
    var d := q.y - p.y;
    assert Square(p.x - q.x) == 0;
    assert Square(p.y - q.y) == d * d by { assert p.y - q.y == -d; }
    assert Square(p.x - q.x) + Square(p.y - q.y) == d * d;
    FloorSqrtOfSquare(d);
  }

  /** p is the only input point at the extreme of key (smallest when low). */
  ghost predicate UniqueExtreme(pts: seq<Point>, key: Point -> int, low: bool) {
    forall p, q :: p in pts && q in pts && Extreme(pts, key, low, p) && Extreme(pts, key, low, q) ==> p == q
  }

  ghost predicate Extreme(pts: seq<Point>, key: Point -> int, low: bool, p: Point) {
    forall r :: r in pts ==> if low then key(p) <= key(r) else key(r) <= key(p)
  }

  /** None of the four selections meets a tie between different points. */
  ghost predicate NoTies(pts: seq<Point>) {
    UniqueExtreme(pts, Sum, true) && UniqueExtreme(pts, Sum, false) &&
    UniqueExtreme(pts, Diff, true) && UniqueExtreme(pts, Diff, false)
  }

  /**
    When no extreme is tied, the corners do not depend on the order in which
    the contour lists its vertices (a rotation, a mirroring or any other
    permutation).
  */
  lemma OrderIgnoresInputOrder(s: seq<Point>, t: seq<Point>)
    requires |s| == 4 && |t| == 4 && multiset(s) == multiset(t)
    requires NoTies(s)
    ensures OrderPoints(s) == OrderPoints(t)
  {
    SameElements(s, t);
    var a, b := OrderPoints(s), OrderPoints(t);
    assert Extreme(s, Sum, true, a.topLeft) && Extreme(s, Sum, true, b.topLeft);
    assert Extreme(s, Sum, false, a.bottomRight) && Extreme(s, Sum, false, b.bottomRight);
    assert Extreme(s, Diff, true, a.topRight) && Extreme(s, Diff, true, b.topRight);
    assert Extreme(s, Diff, false, a.bottomLeft) && Extreme(s, Diff, false, b.bottomLeft);
  }

  /**
    A square standing on a corner ties both keys: the same vertex is taken as
    top-left and top-right, so the corners are not a permutation of the input.
  */
  lemma DiamondRepeatsCorner(a: int, b: int)
    ensures var pts := [Point(a + 1, b), Point(a + 2, b + 1), Point(a + 1, b + 2), Point(a, b + 1)];
      OrderPoints(pts) == Quad(Point(a + 1, b), Point(a + 1, b), Point(a + 2, b + 1), Point(a + 1, b + 2))
  {
    var pts := [Point(a + 1, b), Point(a + 2, b + 1), Point(a + 1, b + 2), Point(a, b + 1)];
    var sums, diffs := Sums(pts), Diffs(pts);
    assert sums == [a + b + 1, a + b + 3, a + b + 3, a + b + 1];
    assert diffs == [b - a - 1, b - a - 1, b - a + 1, b - a + 1];
    FirstExtremeIndex(sums, 0, true);
    FirstExtremeIndex(sums, 1, false);
    FirstExtremeIndex(diffs, 0, true);
    FirstExtremeIndex(diffs, 2, false);
    assert OrderPoints(pts) == Quad(pts[0], pts[0], pts[1], pts[2]);
  }

  /** The contracts of ArgMin and ArgMax determine the index they return. */
  lemma FirstExtremeIndex(keys: seq<int>, i: nat, low: bool)
    requires i < |keys|
    requires forall j :: 0 <= j < |keys| ==> if low then keys[i] <= keys[j] else keys[j] <= keys[i]
    requires forall j :: 0 <= j < i ==> if low then keys[i] < keys[j] else keys[j] < keys[i]
    ensures low ==> ArgMin(keys) == i
    ensures !low ==> ArgMax(keys) == i
  {
  }
}
