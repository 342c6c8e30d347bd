/** The integer geometry of `AdvancedImageProcessor` (utils/image_processor.py):
    ordering the four corners of a detected page (`order_points`) and the
    size of the rectangle the page is warped onto (`four_point_transform`).
    Corner coordinates are the integer pixel positions `approxPolyDP`
    returns. */
module ImageGeometry {

  datatype Point = Point(x: int, y: int)

  /** A row of `pts.sum(axis=1)`. */
  function CoordSum(p: Point): int { p.x + p.y }

  /** A row of `np.diff(pts, axis=1)`: y minus x. */
  function CoordDiff(p: Point): int { p.y - p.x }

  function SumKeys(pts: seq<Point>): (keys: seq<int>)
    ensures |keys| == |pts| && forall i :: 0 <= i < |pts| ==> keys[i] == CoordSum(pts[i])
  {
    if pts == [] then [] else [CoordSum(pts[0])] + SumKeys(pts[1..])
  }

  function DiffKeys(pts: seq<Point>): (keys: seq<int>)
    ensures |keys| == |pts| && forall i :: 0 <= i < |pts| ==> keys[i] == CoordDiff(pts[i])
  {
    if pts == [] then [] else [CoordDiff(pts[0])] + DiffKeys(pts[1..])
  }

  /** `np.argmin`: an index of a smallest key, the first one on ties. */
  function ArgMin(keys: seq<int>): (i: nat)
    requires |keys| > 0
    ensures i < |keys|
    ensures forall j :: 0 <= j < |keys| ==> keys[i] <= keys[j]
    ensures forall j :: 0 <= j < i ==> keys[i] < keys[j]
    decreases |keys|
  {
    if |keys| == 1 then 0
    else
      var init := keys[..|keys| - 1];
      var k := ArgMin(init);
      assert forall j :: 0 <= j < |init| ==> init[j] == keys[j];
      if keys[|keys| - 1] < keys[k] then |keys| - 1 else k
  }

  /** `np.argmax`: an index of a largest key, the first one on ties. */
  function ArgMax(keys: seq<int>): (i: nat)
    requires |keys| > 0
    ensures i < |keys|
    ensures forall j :: 0 <= j < |keys| ==> keys[j] <= keys[i]
    ensures forall j :: 0 <= j < i ==> keys[j] < keys[i]
    decreases |keys|
  {
    if |keys| == 1 then 0
    else
      var init := keys[..|keys| - 1];
      var k := ArgMax(init);
      assert forall j :: 0 <= j < |init| ==> init[j] == keys[j];
      if keys[|keys| - 1] > keys[k] then |keys| - 1 else k
  }

  /** The first index of a smallest key is the only index `ArgMin` can give. */
  lemma ArgMinUnique(keys: seq<int>, i: nat)
    requires i < |keys|
    requires forall j :: 0 <= j < |keys| ==> keys[i] <= keys[j]
    requires forall j :: 0 <= j < i ==> keys[i] < keys[j]
    ensures ArgMin(keys) == i
  {
    var m := ArgMin(keys);
    assert keys[m] <= keys[i] && keys[i] <= keys[m];
  }

  /** The first index of a largest key is the only index `ArgMax` can give. */
  lemma ArgMaxUnique(keys: seq<int>, i: nat)
    requires i < |keys|
    requires forall j :: 0 <= j < |keys| ==> keys[j] <= keys[i]
    requires forall j :: 0 <= j < i ==> keys[j] < keys[i]
    ensures ArgMax(keys) == i
  {
    var m := ArgMax(keys);
    assert keys[m] <= keys[i] && keys[i] <= keys[m];
  }

  /** The corner slots of `order_points`: top-left has the smallest x + y,
      bottom-right the largest; top-right has the smallest y - x,
      bottom-left the largest. Nothing keeps two slots from holding the
      same point. */
  function TopLeft(pts: seq<Point>): (p: Point)
    requires |pts| > 0
    ensures p in pts && forall j :: 0 <= j < |pts| ==> CoordSum(p) <= CoordSum(pts[j])
  {
    pts[ArgMin(SumKeys(pts))]
  }

  function BottomRight(pts: seq<Point>): (p: Point)
    requires |pts| > 0
    ensures p in pts && forall j :: 0 <= j < |pts| ==> CoordSum(pts[j]) <= CoordSum(p)
  {
    pts[ArgMax(SumKeys(pts))]
  }

  function TopRight(pts: seq<Point>): (p: Point)
    requires |pts| > 0
    ensures p in pts && forall j :: 0 <= j < |pts| ==> CoordDiff(p) <= CoordDiff(pts[j])
  {
    pts[ArgMin(DiffKeys(pts))]
  }

  function BottomLeft(pts: seq<Point>): (p: Point)
    requires |pts| > 0
    ensures p in pts && forall j :: 0 <= j < |pts| ==> CoordDiff(pts[j]) <= CoordDiff(p)
  {
    pts[ArgMax(DiffKeys(pts))]
  }

  /** The rectangle `order_points` returns: top-left, top-right,
      bottom-right, bottom-left. */
  function OrderedCorners(pts: seq<Point>): (rect: seq<Point>)
    requires |pts| == 4
    ensures |rect| == 4
    ensures forall k :: 0 <= k < 4 ==> rect[k] in pts
  {
    [TopLeft(pts), TopRight(pts), BottomRight(pts), BottomLeft(pts)]
  }

  /** `order_points`: a 4-slot array filled slot by slot. */
  method OrderPoints(pts: seq<Point>) returns (rect: array<Point>)
    requires |pts| == 4
    ensures fresh(rect)
    ensures rect[..] == OrderedCorners(pts)
  {
    rect := new Point[4];
    var s := SumKeys(pts);
    rect[0] := pts[ArgMin(s)];
    rect[2] := pts[ArgMax(s)];
    var diff := DiffKeys(pts);
    rect[1] := pts[ArgMin(diff)];
    rect[3] := pts[ArgMax(diff)];
  }

  /** The four corners of an upright rectangle, in `order_points` order. */
  function Corners(left: int, top: int, right: int, bottom: int): seq<Point> {
    [Point(left, top), Point(right, top), Point(right, bottom), Point(left, bottom)]
  }

  /** The same points as `c`, in some order. */
  predicate Rearranged(pts: seq<Point>, c: seq<Point>) {
    multiset(pts) == multiset(c)
  }

  lemma RearrangedMembers(pts: seq<Point>, c: seq<Point>)
    requires Rearranged(pts, c)
    ensures |pts| == |c|
    ensures forall p :: p in pts <==> p in c
  {
    assert |pts| == |multiset(pts)| == |multiset(c)| == |c|;
    forall p ensures p in pts <==> p in c {
      assert p in pts <==> p in multiset(pts);
      assert p in c <==> p in multiset(c);
    }
  }

  /** A point of an upright rectangle, known to be a corner. */
  predicate IsCorner(p: Point, left: int, top: int, right: int, bottom: int) {
    (p.x == left || p.x == right) && (p.y == top || p.y == bottom)
  }

  lemma CornersAreCorners(p: Point, left: int, top: int, right: int, bottom: int)
    requires p in Corners(left, top, right, bottom)
    ensures IsCorner(p, left, top, right, bottom)
  {
  }

  /** In a set of points that are all corners of one upright rectangle,
      each slot holds the corner it is named after, when that corner is
      present. */
  lemma TopLeftOfRectangle(pts: seq<Point>, left: int, top: int, right: int, bottom: int)
    requires left < right && top < bottom
    requires forall k :: 0 <= k < |pts| ==> IsCorner(pts[k], left, top, right, bottom)
    requires Point(left, top) in pts
    ensures TopLeft(pts) == Point(left, top)
  {
    var p := TopLeft(pts);
    var i :| 0 <= i < |pts| && pts[i] == p;
    var j :| 0 <= j < |pts| && pts[j] == Point(left, top);
    assert IsCorner(pts[i], left, top, right, bottom);
    assert CoordSum(p) <= CoordSum(pts[j]);
  }

  lemma TopRightOfRectangle(pts: seq<Point>, left: int, top: int, right: int, bottom: int)
    requires left < right && top < bottom
    requires forall k :: 0 <= k < |pts| ==> IsCorner(pts[k], left, top, right, bottom)
    requires Point(right, top) in pts
    ensures TopRight(pts) == Point(right, top)
  {
    var p := TopRight(pts);
    var i :| 0 <= i < |pts| && pts[i] == p;
    var j :| 0 <= j < |pts| && pts[j] == Point(right, top);
    assert IsCorner(pts[i], left, top, right, bottom);
    assert CoordDiff(p) <= CoordDiff(pts[j]);
  }

  lemma BottomRightOfRectangle(pts: seq<Point>, left: int, top: int, right: int, bottom: int)
    requires left < right && top < bottom
    requires forall k :: 0 <= k < |pts| ==> IsCorner(pts[k], left, top, right, bottom)
    requires Point(right, bottom) in pts
    ensures BottomRight(pts) == Point(right, bottom)
  {
    var p := BottomRight(pts);
    var i :| 0 <= i < |pts| && pts[i] == p;
    var j :| 0 <= j < |pts| && pts[j] == Point(right, bottom);
    assert IsCorner(pts[i], left, top, right, bottom);
    assert CoordSum(pts[j]) <= CoordSum(p);
  }

  lemma BottomLeftOfRectangle(pts: seq<Point>, left: int, top: int, right: int, bottom: int)
    requires left < right && top < bottom
    requires forall k :: 0 <= k < |pts| ==> IsCorner(pts[k], left, top, right, bottom)
    requires Point(left, bottom) in pts
    ensures BottomLeft(pts) == Point(left, bottom)
  {
    var p := BottomLeft(pts);
    var i :| 0 <= i < |pts| && pts[i] == p;
    var j :| 0 <= j < |pts| && pts[j] == Point(left, bottom);
    assert IsCorner(pts[i], left, top, right, bottom);
    assert CoordDiff(pts[j]) <= CoordDiff(p);
  }

  /** Given the corners of an upright rectangle in any order, the ordering
      recovers top-left, top-right, bottom-right and bottom-left. */
  lemma OrderedCornersOfRectangle(pts: seq<Point>, left: int, top: int, right: int, bottom: int)
    requires left < right && top < bottom
    requires Rearranged(pts, Corners(left, top, right, bottom))
    ensures |pts| == 4
    ensures OrderedCorners(pts) == Corners(left, top, right, bottom)
  {
    var c := Corners(left, top, right, bottom);
    RearrangedMembers(pts, c);
    forall k | 0 <= k < |pts| ensures IsCorner(pts[k], left, top, right, bottom) {
      CornersAreCorners(pts[k], left, top, right, bottom);
    }
    assert c[0] in pts && c[1] in pts && c[2] in pts && c[3] in pts;
    TopLeftOfRectangle(pts, left, top, right, bottom);
    TopRightOfRectangle(pts, left, top, right, bottom);
    BottomRightOfRectangle(pts, left, top, right, bottom);
    BottomLeftOfRectangle(pts, left, top, right, bottom);
  }

  /** A diamond (a square turned by 45 degrees), listed from its top vertex
      clockwise, shows the same point landing in two slots: the top vertex
      has both the smallest x + y (tied with the left one, and first) and
      the smallest y - x (tied with the right one, and first), and the left
      vertex is dropped. */
  lemma OrderedCornersOfDiamond(cx: int, cy: int, r: int)
    requires r > 0
    ensures OrderedCorners([Point(cx, cy - r), Point(cx + r, cy), Point(cx, cy + r), Point(cx - r, cy)])
         == [Point(cx, cy - r), Point(cx, cy - r), Point(cx + r, cy), Point(cx, cy + r)]
  {
    var pts := [Point(cx, cy - r), Point(cx + r, cy), Point(cx, cy + r), Point(cx - r, cy)];
    var sums, diffs := SumKeys(pts), DiffKeys(pts);
    var s, d := cx + cy, cy - cx;
    assert sums[0] == s - r && sums[1] == s + r && sums[2] == s + r && sums[3] == s - r;
    assert diffs[0] == d - r && diffs[1] == d - r && diffs[2] == d + r && diffs[3] == d + r;
    ArgMinUnique(sums, 0);
    ArgMaxUnique(sums, 1);
    ArgMinUnique(diffs, 0);
    ArgMaxUnique(diffs, 2);
  }

  // ---------------------------------------------------------------------
  // Destination size of the four-point warp
  // ---------------------------------------------------------------------

  lemma MulMonotone(a: nat, b: nat, c: nat)
    requires a <= b
    ensures c * a <= c * b
  {
  }

  lemma SquareMonotone(a: nat, b: nat)
    requires a <= b
    ensures a * a <= b * b
  {
    MulMonotone(a, b, a);
    MulMonotone(a, b, b);
  }

  /** `int(np.sqrt(n))` for a non-negative integer `n`. */
  function FloorSqrt(n: nat): (r: nat)
    ensures r * r <= n < (r + 1) * (r + 1)
    decreases n
  {
    if n == 0 then 0
    else
      var s := FloorSqrt(n - 1);
      assert (s + 2) * (s + 2) == (s + 1) * (s + 1) + 2 * s + 3;
      if (s + 1) * (s + 1) <= n then s + 1 else s
  }

  /** The floor square root of a perfect square is its root. */
  lemma FloorSqrtOfSquare(k: nat)
    ensures FloorSqrt(k * k) == k
  {
    RootUnique(FloorSqrt(k * k), k);
  }

  /** Only `k` itself brackets `k * k` between consecutive squares. */
  lemma RootUnique(r: nat, k: nat)
    requires r * r <= k * k < (r + 1) * (r + 1)
    ensures r == k
  {
    if r < k {
      SquareMonotone(r + 1, k);
    } else if r > k {
      SquareMonotone(k + 1, r);
    }
  }

  /** `int(np.sqrt((p[0] - q[0]) ** 2 + (p[1] - q[1]) ** 2))`. */
  function Distance(p: Point, q: Point): nat {
    var dx, dy := p.x - q.x, p.y - q.y;
    FloorSqrt(dx * dx + dy * dy)
  }

  function Max(a: int, b: int): int { if a >= b then a else b }

  /** `(maxWidth, maxHeight)` of `four_point_transform`: the longer of the
      two horizontal edges and the longer of the two vertical edges, each
      length truncated to an integer. */
  function DestinationSize(rect: seq<Point>): (size: (nat, nat))
    requires |rect| == 4
    ensures size.0 == Distance(rect[2], rect[3]) || size.0 == Distance(rect[1], rect[0])
    ensures size.0 >= Distance(rect[2], rect[3]) && size.0 >= Distance(rect[1], rect[0])
    ensures size.1 == Distance(rect[1], rect[2]) || size.1 == Distance(rect[0], rect[3])
    ensures size.1 >= Distance(rect[1], rect[2]) && size.1 >= Distance(rect[0], rect[3])
  {
    var (tl, tr, br, bl) := (rect[0], rect[1], rect[2], rect[3]);
    (Max(Distance(br, bl), Distance(tr, tl)), Max(Distance(tr, br), Distance(tl, bl)))
  }

  /** The `dst` corners: (0, 0), (W - 1, 0), (W - 1, H - 1), (0, H - 1). */
  function DestinationCorners(width: int, height: int): (dst: seq<Point>)
    ensures dst == Corners(0, 0, width - 1, height - 1)
  {
    [Point(0, 0), Point(width - 1, 0), Point(width - 1, height - 1), Point(0, height - 1)]
  }

  lemma DistanceAlongAxis(p: Point, q: Point)
    ensures p.y == q.y ==> Distance(p, q) == if p.x >= q.x then p.x - q.x else q.x - p.x
    ensures p.x == q.x ==> Distance(p, q) == if p.y >= q.y then p.y - q.y else q.y - p.y
  {
    var dx, dy := p.x - q.x, p.y - q.y;
    if p.y == q.y {
      var k: nat := if dx >= 0 then dx else -dx;
      assert dx * dx + dy * dy == k * k;
      FloorSqrtOfSquare(k);
    }
    if p.x == q.x {
      var k: nat := if dy >= 0 then dy else -dy;
      assert dx * dx + dy * dy == k * k;
      FloorSqrtOfSquare(k);
    }
  }

  function AbsInt(a: int): nat { if a >= 0 then a else -a }

  /** The truncated edge length is symmetric, at least either coordinate
      difference and at most their sum. */
  lemma DistanceBounds(p: Point, q: Point)
    ensures Distance(p, q) == Distance(q, p)
    ensures AbsInt(p.x - q.x) <= Distance(p, q) && AbsInt(p.y - q.y) <= Distance(p, q)
    ensures Distance(p, q) <= AbsInt(p.x - q.x) + AbsInt(p.y - q.y)
  {
    var a, b := AbsInt(p.x - q.x), AbsInt(p.y - q.y);
    SquareOfAbs(p.x - q.x);
    SquareOfAbs(q.x - p.x);
    SquareOfAbs(p.y - q.y);
    SquareOfAbs(q.y - p.y);
    var n := a * a + b * b;
    assert Distance(p, q) == FloorSqrt(n) == Distance(q, p);
    FloorSqrtOfSum(a, b, n);
  }

  lemma SquareOfAbs(d: int)
    ensures d * d == AbsInt(d) * AbsInt(d)
  {
  }

  /** The floor root of a sum of squares lies between either root and
      the sum of the roots. */
  lemma FloorSqrtOfSum(a: nat, b: nat, n: nat)
    requires n == a * a + b * b
    ensures a <= FloorSqrt(n) <= a + b && b <= FloorSqrt(n)
  {
    SumOfSquaresBetween(a, b);
    SumOfSquaresBetween(b, a);
    FloorSqrtAtLeast(n, a);
    FloorSqrtAtLeast(n, b);
    FloorSqrtAtMost(n, a + b);
  }

  lemma FloorSqrtAtLeast(n: nat, a: nat)
    requires a * a <= n
    ensures a <= FloorSqrt(n)
  {
    var r := FloorSqrt(n);
    if r < a {
      SquareMonotone(r + 1, a);
    }
  }

  lemma FloorSqrtAtMost(n: nat, c: nat)
    requires n <= c * c
    ensures FloorSqrt(n) <= c
  {
  }

  lemma SumOfSquaresBetween(a: nat, b: nat)
    ensures 0 <= a * a <= a * a + b * b <= (a + b) * (a + b)
  {
  }

  /** The warp of an upright rectangle keeps its width and height. */
  lemma DestinationSizeOfUpright(left: int, top: int, right: int, bottom: int)
    requires left < right && top < bottom
    ensures DestinationSize(Corners(left, top, right, bottom)) == (right - left, bottom - top)
  {
    var c := Corners(left, top, right, bottom);
    DistanceAlongAxis(c[2], c[3]);
    DistanceAlongAxis(c[1], c[0]);
    DistanceAlongAxis(c[1], c[2]);
    DistanceAlongAxis(c[0], c[3]);
  }

  /** An upright rectangle, found in any corner order, is warped onto a
      rectangle of its own width and height. */
  lemma DestinationSizeOfRectangle(pts: seq<Point>, left: int, top: int, right: int, bottom: int)
    requires left < right && top < bottom
    requires Rearranged(pts, Corners(left, top, right, bottom))
    ensures |pts| == 4
    ensures DestinationSize(OrderedCorners(pts)) == (right - left, bottom - top)
  {
    OrderedCornersOfRectangle(pts, left, top, right, bottom);
    DestinationSizeOfUpright(left, top, right, bottom);
  }
}
