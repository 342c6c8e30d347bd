/** `AdvancedImageProcessor` (utils/image_processor.py) with every OpenCV
    call left opaque. A `Raster` records how an image was obtained rather
    than its pixels; the detections OpenCV makes on a raster (contours,
    Hough lines, pixel statistics) come from a `Vision` value the caller
    supplies. What the model keeps is the logic the class owns: the order
    of the pipeline and its constants, the guards under which perspective
    and skew correction leave an image alone, the size of the canvases it
    warps onto, and the quality score. Floats are exact reals. */
module ImageProcessor {
  import opened Wrappers
  import opened Numeric
  import opened ImageGeometry

  /** The filters the pipeline applies, with the constants it passes. */
  datatype Stage =
    | Grayscale                                                  // cvtColor BGR2GRAY
    | Denoise(h: int, templateWindow: int, searchWindow: int)    // fastNlMeansDenoising
    | Clahe(clipLimit: real, tileRows: int, tileCols: int)       // createCLAHE(...).apply
    | Canny(low: int, high: int, aperture: int)                  // edge map
    | AdaptiveThreshold(maxValue: int, blockSize: int, c: int)   // Gaussian, binary
    | MorphClose(kernelRows: int, kernelCols: int)               // rectangular kernel

  const DenoiseStage := Denoise(10, 7, 21)
  const ClaheStage := Clahe(2.0, 8, 8)
  const EdgeStage := Canny(50, 150, 3)
  const ThresholdStage := AdaptiveThreshold(255, 11, 2)
  const CloseStage := MorphClose(3, 3)

  /** An image, by provenance. `colour` is `len(image.shape) == 3`. */
  datatype Raster =
    | Page(id: nat, width: nat, height: nat, colour: bool)
    | Filtered(src: Raster, stage: Stage)
    | Warped(src: Raster, from: seq<Point>, to: seq<Point>, width: nat, height: nat)
    | Rotated(src: Raster, matrix: seq<seq<real>>, width: nat, height: nat)

  function Width(r: Raster): nat {
    match r
    case Page(_, w, _, _) => w
    case Filtered(src, _) => Width(src)
    case Warped(_, _, _, w, _) => w
    case Rotated(_, _, w, _) => w
  }

  function Height(r: Raster): nat {
    match r
    case Page(_, _, h, _) => h
    case Filtered(src, _) => Height(src)
    case Warped(_, _, _, _, h) => h
    case Rotated(_, _, _, h) => h
  }

  /** Whether the raster has a channel axis: grayscale conversion and edge
      detection drop it, the other stages and the warps keep it. */
  function Colour(r: Raster): bool {
    match r
    case Page(_, _, _, c) => c
    case Filtered(src, stage) => !stage.Grayscale? && !stage.Canny? && Colour(src)
    case Warped(src, _, _, _, _) => Colour(src)
    case Rotated(src, _, _, _) => Colour(src)
  }

  type Contour = seq<Point>

  datatype HoughLine = HoughLine(rho: real, theta: real)

  /** What OpenCV computes on a raster, left opaque. */
  datatype Vision = Vision(
    findContours: Raster -> seq<Contour>,      // findContours(RETR_EXTERNAL, CHAIN_APPROX_SIMPLE)
    contourArea: Contour -> real,
    approxPolygon: Contour -> Contour,         // approxPolyDP(c, 0.02 * arcLength(c, True), True)
    houghLines: Raster -> Option<seq<HoughLine>>,  // HoughLines(edges, 1, pi / 180, 100)
    cosDeg: real -> real,                      // the cosine and sine getRotationMatrix2D uses
    sinDeg: real -> real,
    laplacianVariance: Raster -> real,         // Laplacian(image, CV_64F).var()
    stdDev: Raster -> real,                    // image.std()
    meanValue: Raster -> real,                 // image.mean()
    medianNoise: Raster -> real)               // mean |image - medianBlur(image, 5)|

  /** The single-channel image both the pipeline and the quality check
      work on. */
  function Gray(image: Raster): (g: Raster)
    ensures !Colour(g)
    ensures Width(g) == Width(image) && Height(g) == Height(image)
    ensures !Colour(image) ==> g == image
  {
    if Colour(image) then Filtered(image, Grayscale) else image
  }

  function Edges(image: Raster): Raster {
    Filtered(image, EdgeStage)
  }

  // ---------------------------------------------------------------------
  // Perspective correction
  // ---------------------------------------------------------------------

  /** `max(contours, key=cv2.contourArea)`: the index of the first contour
      of largest area. */
  function LargestIndex(v: Vision, contours: seq<Contour>): (i: nat)
    requires contours != []
    ensures i < |contours|
    ensures forall j :: 0 <= j < |contours| ==> v.contourArea(contours[j]) <= v.contourArea(contours[i])
    ensures forall j :: 0 <= j < i ==> v.contourArea(contours[j]) < v.contourArea(contours[i])
    decreases |contours|
  {
    if |contours| == 1 then 0
    else
      var init := contours[..|contours| - 1];
      var k := LargestIndex(v, init);
      assert forall j :: 0 <= j < |init| ==> init[j] == contours[j];
      var last := |contours| - 1;
      if v.contourArea(contours[last]) > v.contourArea(contours[k]) then last else k
  }

  /** `four_point_transform`: the page quadrilateral, ordered, is warped
      onto an upright rectangle as wide as its longer horizontal edge and
      as tall as its longer vertical edge. */
  function FourPointTransform(image: Raster, pts: seq<Point>): (r: Raster)
    requires |pts| == 4
    ensures r.Warped? && r.src == image
    ensures r.from == OrderedCorners(pts)
    ensures r.width == DestinationSize(r.from).0 && r.height == DestinationSize(r.from).1
    ensures r.to == DestinationCorners(r.width, r.height)
  {
    var rect := OrderedCorners(pts);
    var size := DestinationSize(rect);
    Warped(image, rect, DestinationCorners(size.0, size.1), size.0, size.1)
  }

  /** The quadrilateral `auto_perspective_correction` finds: the polygon
      approximating the largest contour of the edge map, if any. */
  function PageOutline(v: Vision, image: Raster): Option<Contour> {
    var contours := v.findContours(Edges(image));
    if contours == [] then None
    else Some(v.approxPolygon(contours[LargestIndex(v, contours)]))
  }

  /** `auto_perspective_correction`. */
  function PerspectiveCorrected(v: Vision, image: Raster): (r: Raster)
    ensures v.findContours(Edges(image)) == [] ==> r == image
    ensures PageOutline(v, image).Some? && |PageOutline(v, image).value| != 4 ==> r == image
    ensures PageOutline(v, image).Some? && |PageOutline(v, image).value| == 4 ==>
              r.Warped? && r.src == image && r.from == OrderedCorners(PageOutline(v, image).value)
    ensures Colour(r) == Colour(image)
  {
    match PageOutline(v, image)
    case None => image
    case Some(approx) => if |approx| == 4 then FourPointTransform(image, approx) else image
  }

  /** An upright rectangle, its corners given in any order, is cut out
      at exactly its own width and height. */
  lemma FourPointTransformOfRectangle(image: Raster, pts: seq<Point>, left: int, top: int, right: int, bottom: int)
    requires left < right && top < bottom
    requires Rearranged(pts, Corners(left, top, right, bottom))
    ensures |pts| == 4
    ensures FourPointTransform(image, pts)
         == Warped(image, Corners(left, top, right, bottom),
                   Corners(0, 0, right - left - 1, bottom - top - 1), right - left, bottom - top)
  {
    DestinationSizeOfRectangle(pts, left, top, right, bottom);
    OrderedCornersOfRectangle(pts, left, top, right, bottom);
    var r := FourPointTransform(image, pts);
    assert r.from == Corners(left, top, right, bottom);
    assert r.width == right - left && r.height == bottom - top;
    assert r.to == Corners(0, 0, right - left - 1, bottom - top - 1);
  }

  /** A page whose outline is an upright rectangle is cut out of the image
      at exactly that rectangle. */
  lemma PerspectiveOfUprightPage(v: Vision, image: Raster, left: int, top: int, right: int, bottom: int)
    requires left < right && top < bottom
    requires PageOutline(v, image).Some?
    requires Rearranged(PageOutline(v, image).value, Corners(left, top, right, bottom))
    ensures PerspectiveCorrected(v, image)
         == Warped(image, Corners(left, top, right, bottom),
                   Corners(0, 0, right - left - 1, bottom - top - 1), right - left, bottom - top)
  {
    var pts := PageOutline(v, image).value;
    FourPointTransformOfRectangle(image, pts, left, top, right, bottom);
    assert PerspectiveCorrected(v, image) == FourPointTransform(image, pts);
  }

  // ---------------------------------------------------------------------
  // Median of the line angles
  // ---------------------------------------------------------------------

  predicate Ascending(s: seq<real>) {
    forall i, j :: 0 <= i < j < |s| ==> s[i] <= s[j]
  }

  /** A value no larger than any element of an ascending sequence can
      be put in front of it. */
  lemma ConsAscending(h: real, t: seq<real>)
    requires Ascending(t)
    requires forall k :: 0 <= k < |t| ==> h <= t[k]
    ensures Ascending([h] + t)
  {
    var r := [h] + t;
    forall i, j | 0 <= i < j < |r| ensures r[i] <= r[j] {
      assert r[j] == t[j - 1];
      if i > 0 {
        assert r[i] == t[i - 1];
      }
    }
  }

  /** A lower bound of `s` and of `x` bounds every element of a sequence
      holding the same values as `s` plus `x`. */
  lemma BoundKept(lo: real, s: seq<real>, x: real, r: seq<real>)
    requires forall k :: 0 <= k < |s| ==> lo <= s[k]
    requires lo <= x && multiset(r) == multiset(s) + multiset{x}
    ensures forall k :: 0 <= k < |r| ==> lo <= r[k]
  {
    forall k | 0 <= k < |r| ensures lo <= r[k] {
      assert r[k] in multiset(r);
      if r[k] != x {
        assert r[k] in multiset(s);
      }
    }
  }

  function Insert(x: real, s: seq<real>): (r: seq<real>)
    requires Ascending(s)
    ensures Ascending(r)
    ensures multiset(r) == multiset(s) + multiset{x}
    decreases |s|
  {
    if s == [] || x <= s[0] then
      ConsAscending(x, s);
      [x] + s
    else
      assert Ascending(s[1..]);
      var rest := Insert(x, s[1..]);
      BoundKept(s[0], s[1..], x, rest);
      ConsAscending(s[0], rest);
      assert s == [s[0]] + s[1..];
      [s[0]] + rest
  }

  /** The ascending arrangement of `xs`, as `np.median` sorts it. */
  function Sorted(xs: seq<real>): (r: seq<real>)
    ensures Ascending(r)
    ensures multiset(r) == multiset(xs)
    ensures |r| == |xs|
    decreases |xs|
  {
    if xs == [] then []
    else
      assert xs == [xs[0]] + xs[1..];
      var r := Insert(xs[0], Sorted(xs[1..]));
      assert |r| == |multiset(r)| == |multiset(xs)| == |xs|;
      r
  }

  /** Two ascending sequences holding the same values are equal. */
  lemma {:induction false} AscendingUnique(s: seq<real>, t: seq<real>)
    requires Ascending(s) && Ascending(t)
    requires multiset(s) == multiset(t)
    ensures s == t
    decreases |s|
  {
    assert |s| == |multiset(s)| == |multiset(t)| == |t|;
    if s != [] {
      assert s[0] in multiset(t);
      assert t[0] in multiset(s);
      assert s[0] == t[0];
      assert s == [s[0]] + s[1..];
      assert t == [t[0]] + t[1..];
      assert multiset(s[1..]) == multiset(s) - multiset{s[0]};
      assert multiset(t[1..]) == multiset(t) - multiset{t[0]};
      AscendingUnique(s[1..], t[1..]);
    }
  }

  /** `np.median`: the middle value, or the mean of the two middle values. */
  function Median(xs: seq<real>): real
    requires xs != []
  {
    var s := Sorted(xs);
    var n := |s|;
    if n % 2 == 1 then s[n / 2] else (s[n / 2 - 1] + s[n / 2]) / 2.0
  }

  /** The median lies within any bounds all the values respect. */
  lemma MedianWithin(xs: seq<real>, lo: real, hi: real)
    requires xs != []
    requires forall k :: 0 <= k < |xs| ==> lo <= xs[k] <= hi
    ensures lo <= Median(xs) <= hi
  {
    var s := Sorted(xs);
    forall k | 0 <= k < |s| ensures lo <= s[k] <= hi {
      assert s[k] in multiset(xs);
    }
  }

  /** At least half of the sorted values lie at or below the median and at
      least half at or above it. */
  lemma MedianSplitsValues(xs: seq<real>)
    requires xs != []
    ensures forall k :: 0 <= k < (|xs| + 1) / 2 ==> Sorted(xs)[k] <= Median(xs)
    ensures forall k :: |xs| / 2 <= k < |xs| ==> Median(xs) <= Sorted(xs)[k]
  {
    var s := Sorted(xs);
    var n := |s|;
    var lo, hi := if n % 2 == 1 then n / 2 else n / 2 - 1, n / 2;
    assert s[lo] <= Median(xs) <= s[hi];
    AscendingAround(s, lo, hi, Median(xs));
  }

  /** In ascending values, a value between positions `lo` and `hi` is at
      least everything up to `lo` and at most everything from `hi`. */
  lemma AscendingAround(s: seq<real>, lo: nat, hi: nat, m: real)
    requires Ascending(s) && lo <= hi < |s| && s[lo] <= m <= s[hi]
    ensures forall k :: 0 <= k <= lo ==> s[k] <= m
    ensures forall k :: hi <= k < |s| ==> m <= s[k]
  {
    forall k | 0 <= k < lo ensures s[k] <= m {
      assert s[k] <= s[lo];
    }
    forall k | hi < k < |s| ensures m <= s[k] {
      assert s[hi] <= s[k];
    }
  }

  /** The median does not depend on the order of the values. */
  lemma MedianOrderFree(xs: seq<real>, ys: seq<real>)
    requires xs != [] && multiset(xs) == multiset(ys)
    ensures ys != []
    ensures Median(xs) == Median(ys)
  {
    assert |ys| == |multiset(ys)| == |multiset(xs)| == |xs|;
    var sx, sy := Sorted(xs), Sorted(ys);
    AscendingUnique(sx, sy);
    assert sx == sy;
  }

  // ---------------------------------------------------------------------
  // Skew correction
  // ---------------------------------------------------------------------

  /** `np.pi` */
  const Pi: real := 3.141592653589793

  /** `theta * 180 / np.pi - 90`: a line's tilt from horizontal, in degrees. */
  function LineAngle(line: HoughLine): (angle: real)
    ensures 0.0 <= line.theta < Pi ==> -90.0 <= angle < 90.0
    ensures angle == 0.0 <==> line.theta == Pi / 2.0
    ensures angle > 0.0 <==> line.theta > Pi / 2.0
  {
    line.theta * 180.0 / Pi - 90.0
  }

  function LineAngles(lines: seq<HoughLine>): (angles: seq<real>)
    ensures |angles| == |lines|
    ensures forall k :: 0 <= k < |lines| ==> angles[k] == LineAngle(lines[k])
  {
    if lines == [] then [] else [LineAngle(lines[0])] + LineAngles(lines[1..])
  }

  /** The lines `auto_deskew` detects; `None` from `HoughLines` is no line. */
  function DetectedLines(v: Vision, image: Raster): seq<HoughLine> {
    match v.houghLines(Edges(image))
    case None => []
    case Some(lines) => lines
  }

  /** Tilts up to half a degree either way are left alone. */
  predicate Significant(angle: real) {
    AbsReal(angle) > 0.5
  }

  /** `auto_deskew`: rotate by the median tilt of all detected lines when
      that tilt is significant, otherwise keep the image. (An empty array
      of lines has a NaN median, which is not significant either.) */
  function Deskewed(v: Vision, image: Raster): (r: Raster)
    ensures DetectedLines(v, image) == [] ==> r == image
    ensures DetectedLines(v, image) != [] ==>
              var tilt := Median(LineAngles(DetectedLines(v, image)));
              (Significant(tilt) ==> r == Rotation(v, image, tilt)) && (!Significant(tilt) ==> r == image)
    ensures Colour(r) == Colour(image)
  {
    var lines := DetectedLines(v, image);
    if lines == [] then image
    else
      var tilt := Median(LineAngles(lines));
      if Significant(tilt) then Rotation(v, image, tilt) else image
  }

  /** A page whose detected lines all lie within half a degree of
      horizontal is not rotated. */
  lemma DeskewKeepsLevelPage(v: Vision, image: Raster)
    requires forall k :: 0 <= k < |DetectedLines(v, image)| ==>
               -0.5 <= LineAngle(DetectedLines(v, image)[k]) <= 0.5
    ensures Deskewed(v, image) == image
  {
    var lines := DetectedLines(v, image);
    if lines != [] {
      MedianWithin(LineAngles(lines), -0.5, 0.5);
    }
  }

  /** `auto_deskew`, building the angle list line by line. */
  method AutoDeskew(v: Vision, image: Raster) returns (r: Raster)
    ensures r == Deskewed(v, image)
  {
    var detected := v.houghLines(Edges(image));
    if detected.None? {
      return image;
    }
    var lines := detected.value;
    var angles: seq<real> := [];
    var i := 0;
    while i < |lines|
      invariant 0 <= i <= |lines|
      invariant |angles| == i
      invariant forall k :: 0 <= k < i ==> angles[k] == LineAngle(lines[k])
    {
      angles := angles + [lines[i].theta * 180.0 / Pi - 90.0];
      i := i + 1;
    }
    assert angles == LineAngles(lines);
    if lines == [] {
      return image;
    }
    var tilt := Median(angles);
    if AbsReal(tilt) > 0.5 {
      r := RotateImage(v, image, tilt);
    } else {
      r := image;
    }
  }

  // ---------------------------------------------------------------------
  // Rotation
  // ---------------------------------------------------------------------

  /** `cv2.getRotationMatrix2D(center, angle, 1.0)`. */
  function RotationMatrix2D(v: Vision, cx: real, cy: real, angle: real): seq<seq<real>> {
    var a, b := v.cosDeg(angle), v.sinDeg(angle);
    [[a, b, (1.0 - a) * cx - b * cy], [-b, a, b * cx + (1.0 - a) * cy]]
  }

  /** Where an affine 2x3 matrix sends the point (x, y). */
  function Apply(m: seq<seq<real>>, x: real, y: real): (real, real)
    requires |m| == 2 && |m[0]| == 3 && |m[1]| == 3
  {
    (m[0][0] * x + m[0][1] * y + m[0][2], m[1][0] * x + m[1][1] * y + m[1][2])
  }

  /** The width and height of the canvas that holds an h-by-w image turned
      by an angle with the given cosine and sine. */
  function RotatedSize(w: nat, h: nat, cos: real, sin: real): (nat, nat) {
    ProductNonNegative(h as real, AbsReal(sin));
    ProductNonNegative(w as real, AbsReal(cos));
    ProductNonNegative(h as real, AbsReal(cos));
    ProductNonNegative(w as real, AbsReal(sin));
    ((h as real * AbsReal(sin) + w as real * AbsReal(cos)).Floor,
     (h as real * AbsReal(cos) + w as real * AbsReal(sin)).Floor)
  }

  /** The matrix of `getRotationMatrix2D` with its translation column
      shifted so that the centre lands at (nW / 2, nH / 2). */
  function Recentred(m: seq<seq<real>>, cx: real, cy: real, nW: nat, nH: nat): (adjusted: seq<seq<real>>)
    requires |m| == 2 && |m[0]| == 3 && |m[1]| == 3
    ensures |adjusted| == 2 && |adjusted[0]| == 3 && |adjusted[1]| == 3
    ensures adjusted[0][..2] == m[0][..2] && adjusted[1][..2] == m[1][..2]
    ensures Apply(m, cx, cy) == (cx, cy) ==> Apply(adjusted, cx, cy) == (nW as real / 2.0, nH as real / 2.0)
  {
    var adjusted := [[m[0][0], m[0][1], m[0][2] + (nW as real / 2.0 - cx)],
                     [m[1][0], m[1][1], m[1][2] + (nH as real / 2.0 - cy)]];
    assert adjusted[0][..2] == m[0][..2] && adjusted[1][..2] == m[1][..2];
    assert adjusted[0][0] == m[0][0] && adjusted[0][1] == m[0][1] && adjusted[1][0] == m[1][0] && adjusted[1][1] == m[1][1];
    assert Apply(adjusted, cx, cy).0 == Apply(m, cx, cy).0 + (nW as real / 2.0 - cx);
    assert Apply(adjusted, cx, cy).1 == Apply(m, cx, cy).1 + (nH as real / 2.0 - cy);
    adjusted
  }

  lemma RotationAlgebra(a: real, b: real, cx: real, cy: real)
    ensures a * cx + b * cy + ((1.0 - a) * cx - b * cy) == cx
    ensures -b * cx + a * cy + (b * cx + (1.0 - a) * cy) == cy
  {
  }

  /** The rotation matrix keeps its centre in place. */
  lemma RotationMatrixFixesCentre(v: Vision, cx: real, cy: real, angle: real)
    ensures Apply(RotationMatrix2D(v, cx, cy, angle), cx, cy) == (cx, cy)
  {
    var a, b := v.cosDeg(angle), v.sinDeg(angle);
    var m := RotationMatrix2D(v, cx, cy, angle);
    assert m[0][0] == a && m[0][1] == b && m[0][2] == (1.0 - a) * cx - b * cy;
    assert m[1][0] == -b && m[1][1] == a && m[1][2] == b * cx + (1.0 - a) * cy;
    RotationAlgebra(a, b, cx, cy);
    assert Apply(m, cx, cy).0 == cx;
    assert Apply(m, cx, cy).1 == cy;
  }

  /** `rotate_image`: turn about the pixel centre (w // 2, h // 2) onto a
      canvas large enough for the turned image, with the centre moved to
      the centre of the new canvas. */
  function Rotation(v: Vision, image: Raster, angle: real): (r: Raster)
    ensures r.Rotated? && r.src == image && Colour(r) == Colour(image)
    ensures |r.matrix| == 2 && |r.matrix[0]| == 3 && |r.matrix[1]| == 3
    ensures r.matrix[0][..2] == [v.cosDeg(angle), v.sinDeg(angle)]
    ensures r.matrix[1][..2] == [-v.sinDeg(angle), v.cosDeg(angle)]
    ensures (r.width, r.height) == RotatedSize(Width(image), Height(image), v.cosDeg(angle), v.sinDeg(angle))
    ensures Apply(r.matrix, (Width(image) / 2) as real, (Height(image) / 2) as real)
         == (r.width as real / 2.0, r.height as real / 2.0)
  {
    var w, h := Width(image), Height(image);
    var cx, cy := (w / 2) as real, (h / 2) as real;
    var m := RotationMatrix2D(v, cx, cy, angle);
    var size := RotatedSize(w, h, m[0][0], m[0][1]);
    RotationMatrixFixesCentre(v, cx, cy, angle);
    Rotated(image, Recentred(m, cx, cy, size.0, size.1), size.0, size.1)
  }

  /** `rotate_image`, adjusting the translation column of the matrix in
      place. */
  method RotateImage(v: Vision, image: Raster, angle: real) returns (rotated: Raster)
    ensures rotated == Rotation(v, image, angle)
  {
    var h, w := Height(image), Width(image);
    var cx, cy := (w / 2) as real, (h / 2) as real;
    var spec := RotationMatrix2D(v, cx, cy, angle);
    var m := new real[2, 3];
    m[0, 0], m[0, 1], m[0, 2] := spec[0][0], spec[0][1], spec[0][2];
    m[1, 0], m[1, 1], m[1, 2] := spec[1][0], spec[1][1], spec[1][2];
    var size := RotatedSize(w, h, m[0, 0], m[0, 1]);
    var nW, nH := size.0, size.1;
    m[0, 2] := m[0, 2] + (nW as real / 2.0 - cx);
    m[1, 2] := m[1, 2] + (nH as real / 2.0 - cy);
    ghost var adjusted := Recentred(spec, cx, cy, nW, nH);
    assert [m[0, 0], m[0, 1], m[0, 2]] == adjusted[0];
    assert [m[1, 0], m[1, 1], m[1, 2]] == adjusted[1];
    rotated := Rotated(image, [[m[0, 0], m[0, 1], m[0, 2]], [m[1, 0], m[1, 1], m[1, 2]]], nW, nH);
  }

  /** With cosine 1 and sine 0 the canvas keeps the input size. */
  lemma RotatedSizeUnturned(w: nat, h: nat)
    ensures RotatedSize(w, h, 1.0, 0.0) == (w, h)
  {
  }

  /** For any proper cosine and sine, the canvas is in each direction at
      least the shorter side of the image and at most the sum of its
      sides. */
  lemma RotatedSizeBounds(w: nat, h: nat, cos: real, sin: real)
    requires cos * cos + sin * sin == 1.0
    ensures var m := if w <= h then w else h;
      m <= RotatedSize(w, h, cos, sin).0 <= w + h && m <= RotatedSize(w, h, cos, sin).1 <= w + h
  {
    AbsSquare(cos);
    AbsSquare(sin);
    UnitPairBounds(AbsReal(cos), AbsReal(sin));
    CanvasBounds(w, h, cos, sin);
  }

  lemma CanvasBounds(w: nat, h: nat, cos: real, sin: real)
    requires AbsReal(cos) <= 1.0 && AbsReal(sin) <= 1.0 && AbsReal(cos) + AbsReal(sin) >= 1.0
    ensures var m := if w <= h then w else h;
      m <= RotatedSize(w, h, cos, sin).0 <= w + h && m <= RotatedSize(w, h, cos, sin).1 <= w + h
  {
    var c, s := AbsReal(cos), AbsReal(sin);
    var m := if w <= h then w else h;
    CanvasSide(w, h, s, c, m);
    CanvasSide(w, h, c, s, m);
    RotatedSizeParts(w, h, cos, sin, h as real * s + w as real * c, h as real * c + w as real * s);
  }

  /** One side of the canvas: `⌊h·a + w·b⌋` for weights in [0, 1] adding
      up to at least 1. */
  lemma CanvasSide(w: nat, h: nat, a: real, b: real, m: nat)
    requires 0.0 <= a <= 1.0 && 0.0 <= b <= 1.0 && a + b >= 1.0
    requires m <= w && m <= h
    ensures m <= (h as real * a + w as real * b).Floor <= w + h
  {
    BlendBounds(h as real, w as real, a, b, m as real);
    FloorBetween(h as real * a + w as real * b, m, w + h);
  }

  lemma RotatedSizeParts(w: nat, h: nat, cos: real, sin: real, x: real, y: real)
    requires x == h as real * AbsReal(sin) + w as real * AbsReal(cos)
    requires y == h as real * AbsReal(cos) + w as real * AbsReal(sin)
    ensures RotatedSize(w, h, cos, sin) == (x.Floor, y.Floor)
  {
  }

  lemma AbsSquare(x: real)
    ensures AbsReal(x) * AbsReal(x) == x * x
  {
  }

  lemma FloorBetween(x: real, lo: int, hi: int)
    requires lo as real <= x <= hi as real
    ensures lo <= x.Floor <= hi
  {
  }

  /** The absolute cosine and sine are each at most 1 and together at
      least 1. */
  lemma UnitPairBounds(c: real, s: real)
    requires c >= 0.0 && s >= 0.0 && c * c + s * s == 1.0
    ensures c <= 1.0 && s <= 1.0 && c + s >= 1.0
  {
    if c + s < 1.0 {
      assert (c + s) * (c + s) == 1.0 + 2.0 * (c * s);
      ProductNonNegative(c, s);
      ProductNonNegative(c + s, 1.0 - (c + s));
    }
  }

  /** `x·a + y·b` with weights in [0, 1] adding up to at least 1 lies
      between the smaller of `x`, `y` and `x + y`. */
  lemma BlendBounds(x: real, y: real, a: real, b: real, m: real)
    requires x >= 0.0 && y >= 0.0 && 0.0 <= a <= 1.0 && 0.0 <= b <= 1.0 && a + b >= 1.0
    requires m <= x && m <= y && m >= 0.0
    ensures m <= x * a + y * b <= x + y
  {
    ProductNonNegative(x - m, a);
    ProductNonNegative(y - m, b);
    ProductNonNegative(m, a + b - 1.0);
    ProductNonNegative(x, 1.0 - a);
    ProductNonNegative(y, 1.0 - b);
  }

  /** With cosine 0 and sine 1 (a quarter turn) width and height swap. */
  lemma RotatedSizeQuarterTurn(w: nat, h: nat)
    ensures RotatedSize(w, h, 0.0, 1.0) == (h, w)
  {
  }

  /** For an even-sized image and a zero turn, the adjusted matrix is the
      identity. */
  lemma RotationUnturnedEven(v: Vision, image: Raster, angle: real)
    requires v.cosDeg(angle) == 1.0 && v.sinDeg(angle) == 0.0
    requires Width(image) % 2 == 0 && Height(image) % 2 == 0
    ensures Rotation(v, image, angle).matrix == [[1.0, 0.0, 0.0], [0.0, 1.0, 0.0]]
    ensures Rotation(v, image, angle).width == Width(image)
    ensures Rotation(v, image, angle).height == Height(image)
  {
    RotatedSizeUnturned(Width(image), Height(image));
  }

  // ---------------------------------------------------------------------
  // The preprocessing pipeline
  // ---------------------------------------------------------------------

  /** `advanced_preprocessing`: grayscale, denoise, perspective correction,
      contrast equalisation, skew correction, binarisation, closing. */
  function Preprocessed(v: Vision, image: Raster): (r: Raster)
    ensures r.Filtered? && r.stage == CloseStage
    ensures r.src.Filtered? && r.src.stage == ThresholdStage
    ensures !Colour(r)
  {
    var denoised := Filtered(Gray(image), DenoiseStage);
    var enhanced := Filtered(PerspectiveCorrected(v, denoised), ClaheStage);
    Filtered(Filtered(Deskewed(v, enhanced), ThresholdStage), CloseStage)
  }

  /** When no page outline and no line is found, the pipeline only
      filters: the result has the input's size. */
  lemma PreprocessedKeepsSizeWithoutGeometry(v: Vision, image: Raster)
    requires v.findContours(Edges(Filtered(Gray(image), DenoiseStage))) == []
    requires DetectedLines(v, Filtered(Filtered(Gray(image), DenoiseStage), ClaheStage)) == []
    ensures Width(Preprocessed(v, image)) == Width(image)
    ensures Height(Preprocessed(v, image)) == Height(image)
  {
    var denoised := Filtered(Gray(image), DenoiseStage);
    assert PerspectiveCorrected(v, denoised) == denoised;
    var enhanced := Filtered(denoised, ClaheStage);
    assert Deskewed(v, enhanced) == enhanced;
    var r := Preprocessed(v, image);
    assert r == Filtered(Filtered(enhanced, ThresholdStage), CloseStage);
    assert Width(r) == Width(enhanced) == Width(denoised) == Width(Gray(image));
    assert Height(r) == Height(enhanced) == Height(denoised) == Height(Gray(image));
  }

  /** `advanced_preprocessing`, step by step. */
  method AdvancedPreprocessing(v: Vision, image: Raster) returns (cleaned: Raster)
    ensures cleaned == Preprocessed(v, image)
  {
    var gray := if Colour(image) then Filtered(image, Grayscale) else image;
    var denoised := Filtered(gray, DenoiseStage);
    var corrected := PerspectiveCorrected(v, denoised);
    var enhanced := Filtered(corrected, ClaheStage);
    var deskewed := AutoDeskew(v, enhanced);
    var binary := Filtered(deskewed, ThresholdStage);
    cleaned := Filtered(binary, CloseStage);
  }

  // ---------------------------------------------------------------------
  // Quality assessment
  // ---------------------------------------------------------------------

  /** `calculate_sharpness`: Laplacian variance over 1000, capped at 1. */
  function Sharpness(laplacianVariance: real): (s: real)
    ensures s <= 1.0
    ensures laplacianVariance >= 0.0 ==> 0.0 <= s
    ensures s == 1.0 <==> laplacianVariance >= 1000.0
  {
    MinReal(1.0, laplacianVariance / 1000.0)
  }

  /** `calculate_contrast`: four times the standard deviation over 255,
      capped at 1. */
  function Contrast(stdDev: real): (c: real)
    ensures c <= 1.0
    ensures stdDev >= 0.0 ==> 0.0 <= c
    ensures c == 1.0 <==> stdDev >= 63.75
  {
    MinReal(1.0, stdDev / 255.0 * 4.0)
  }

  /** `calculate_brightness`: 1 at mid-grey, falling linearly to 0 at pure
      black and pure white. */
  function Brightness(mean: real): (b: real)
    ensures 0.0 <= mean <= 255.0 ==> 0.0 <= b <= 1.0
    ensures b == 1.0 <==> mean == 127.5
    ensures mean == 0.0 || mean == 255.0 ==> b == 0.0
  {
    1.0 - AbsReal(mean / 255.0 - 0.5) * 2.0
  }

  /** Dark and light images are penalised alike. */
  lemma BrightnessSymmetric(mean: real)
    ensures Brightness(255.0 - mean) == Brightness(mean)
  {
  }

  /** `calculate_noise`: mean deviation from the median-blurred image over
      50, capped at 1. */
  function Noise(meanAbsDiff: real): (n: real)
    ensures n <= 1.0
    ensures meanAbsDiff >= 0.0 ==> 0.0 <= n
    ensures n == 1.0 <==> meanAbsDiff >= 50.0
  {
    MinReal(1.0, meanAbsDiff / 50.0)
  }

  /** The weighted combination before clamping. */
  function QualityBlend(sharpness: real, contrast: real, brightness: real, noise: real): real {
    sharpness * 0.4 + contrast * 0.3 + brightness * 0.2 + (1.0 - noise) * 0.1
  }

  /** `assess_image_quality` from the four statistics OpenCV measures on
      the grayscale image: Laplacian variance, standard deviation, mean,
      and mean deviation from the median-blurred image. */
  function AssessedQuality(laplacianVariance: real, stdDev: real, mean: real, meanAbsDiff: real): (q: real)
    ensures 0.0 <= q <= 1.0
  {
    Clamp01(QualityBlend(Sharpness(laplacianVariance), Contrast(stdDev), Brightness(mean), Noise(meanAbsDiff)))
  }

  /** `assess_image_quality` on an image, converted to grayscale first when
      it has colour channels. */
  function ImageQuality(v: Vision, image: Raster): (q: real)
    ensures 0.0 <= q <= 1.0
    ensures !Colour(image) ==>
              q == AssessedQuality(v.laplacianVariance(image), v.stdDev(image), v.meanValue(image), v.medianNoise(image))
  {
    var gray := Gray(image);
    AssessedQuality(v.laplacianVariance(gray), v.stdDev(gray), v.meanValue(gray), v.medianNoise(gray))
  }

  /** Statistics any real image has: non-negative spreads and a mean grey
      level within the 8-bit range. */
  predicate Plausible(laplacianVariance: real, stdDev: real, mean: real, meanAbsDiff: real) {
    laplacianVariance >= 0.0 && stdDev >= 0.0 && 0.0 <= mean <= 255.0 && meanAbsDiff >= 0.0
  }

  /** For plausible statistics every sub-score is in [0, 1], so the blend
      already is and the clamp changes nothing. */
  lemma AssessedQualityUnclamped(laplacianVariance: real, stdDev: real, mean: real, meanAbsDiff: real)
    requires Plausible(laplacianVariance, stdDev, mean, meanAbsDiff)
    ensures AssessedQuality(laplacianVariance, stdDev, mean, meanAbsDiff)
         == QualityBlend(Sharpness(laplacianVariance), Contrast(stdDev), Brightness(mean), Noise(meanAbsDiff))
  {
  }

  /** A sharp, high-contrast, mid-grey, noiseless image scores 1; a flat
      black or white image with heavy noise scores 0. */
  lemma AssessedQualityExtremes(laplacianVariance: real, stdDev: real, mean: real, meanAbsDiff: real)
    ensures laplacianVariance >= 1000.0 && stdDev >= 63.75 && mean == 127.5 && meanAbsDiff == 0.0
            ==> AssessedQuality(laplacianVariance, stdDev, mean, meanAbsDiff) == 1.0
    ensures laplacianVariance == 0.0 && stdDev == 0.0 && (mean == 0.0 || mean == 255.0) && meanAbsDiff >= 50.0
            ==> AssessedQuality(laplacianVariance, stdDev, mean, meanAbsDiff) == 0.0
  {
  }

  /** Sharper and more contrasted images never score lower, noisier ones
      never score higher. */
  lemma AssessedQualityMonotone(lv: real, lv': real, sd: real, sd': real, mean: real, nz: real, nz': real)
    requires lv <= lv' && sd <= sd' && nz' <= nz
    ensures AssessedQuality(lv, sd, mean, nz) <= AssessedQuality(lv', sd', mean, nz')
  {
  }
}
