/** Colour segmentation, mask refinement, spatial moments and the
    detection gate: the part of `AWebCamReader::DoProcessing` that turns an
    HSV frame into a marker position. */
module Imaging {

  /** An 8-bit channel value. */
  newtype byte = x: int | 0 <= x < 256

  /** One pixel of the HSV frame that `cvtColor(..., COLOR_BGR2HSV)` produces
      (8-bit hue in 0..179, saturation and value in 0..255). */
  datatype Hsv = Hsv(h: byte, s: byte, v: byte)

  /** The six bounds `iLowH` .. `iHighV`. */
  datatype ColorRange = ColorRange(lowH: int, highH: int, lowS: int, highS: int, lowV: int, highV: int)

  /** The bounds `initHSVvalues` installs: a green armband. */
  function DefaultRange(): (r: ColorRange)
    ensures 0 <= r.lowH <= r.highH <= 179
    ensures 0 <= r.lowS <= r.highS <= 255 && 0 <= r.lowV <= r.highV <= 255
  {
    ColorRange(53, 83, 60, 255, 60, 255)
  }

  /** `inRange`'s per-pixel test: every channel within its inclusive bounds. */
  predicate InColorRange(p: Hsv, r: ColorRange) {
    && r.lowH <= p.h as int <= r.highH
    && r.lowS <= p.s as int <= r.highS
    && r.lowV <= p.v as int <= r.highV
  }

  /** A mask whose every pixel is background (0) or foreground (255). */
  predicate IsBinary(mask: seq<int>) {
    forall i :: 0 <= i < |mask| ==> mask[i] == 0 || mask[i] == 255
  }

  /** `inRange(src, low, high, dst)`: one mask byte per pixel, 255 exactly
      where the pixel lies in the range and 0 elsewhere. */
  function Threshold(img: seq<Hsv>, r: ColorRange): (mask: seq<int>)
    ensures |mask| == |img| && IsBinary(mask)
    ensures forall i :: 0 <= i < |img| ==> (mask[i] == 255 <==> InColorRange(img[i], r))
  {
    seq(|img|, i requires 0 <= i < |img| => if InColorRange(img[i], r) then 255 else 0)
  }

  lemma DefaultRangeAcceptsPureGreen()
    ensures InColorRange(Hsv(60, 255, 255), DefaultRange())
    ensures !InColorRange(Hsv(0, 255, 255), DefaultRange())
    ensures !InColorRange(Hsv(60, 59, 255), DefaultRange())
  {
  }

  /** OpenCV's `erode` and `dilate` with the 5x5 elliptic structuring
      element. Their pixel loops and border handling belong to the library
      and are not modelled: only the contract below is relied on. */
  datatype Morphology = Morphology(erode: seq<int> -> seq<int>, dilate: seq<int> -> seq<int>)

  /** A mask filter that keeps the mask's size and keeps a binary mask binary. */
  ghost predicate KeepsBinaryMask(f: seq<int> -> seq<int>) {
    forall m :: |f(m)| == |m| && (IsBinary(m) ==> IsBinary(f(m)))
  }

  ghost predicate ValidMorphology(morph: Morphology) {
    KeepsBinaryMask(morph.erode) && KeepsBinaryMask(morph.dilate)
  }

  /** Opening (erode, dilate) followed by closing (dilate, erode). */
  function Refine(mask: seq<int>, morph: Morphology): (refined: seq<int>)
    requires ValidMorphology(morph)
    ensures |refined| == |mask|
    ensures IsBinary(mask) ==> IsBinary(refined)
  {
    morph.erode(morph.dilate(morph.dilate(morph.erode(mask))))
  }

  /* Spatial moments of a mask laid out row by row, `w` pixels per row:
     pixel i sits at column i % w and row i / w. */

  /** m00: the sum of the pixel values. */
  function Area(m: seq<int>): int {
    if m == [] then 0 else Area(m[..|m| - 1]) + m[|m| - 1]
  }

  /** m10: the sum of column times value. */
  function MomentX(m: seq<int>, w: int): int
    requires w > 0
  {
    if m == [] then 0 else MomentX(m[..|m| - 1], w) + ((|m| - 1) % w) * m[|m| - 1]
  }

  /** m01: the sum of row times value. */
  function MomentY(m: seq<int>, w: int): int
    requires w > 0
  {
    if m == [] then 0 else MomentY(m[..|m| - 1], w) + ((|m| - 1) / w) * m[|m| - 1]
  }

  /** The number of foreground (nonzero) pixels. */
  function Foreground(m: seq<int>): nat {
    if m == [] then 0 else Foreground(m[..|m| - 1]) + (if m[|m| - 1] != 0 then 1 else 0)
  }

  /** The sum of the columns of the foreground pixels. */
  function SumX(m: seq<int>, w: int): int
    requires w > 0
  {
    if m == [] then 0 else SumX(m[..|m| - 1], w) + (if m[|m| - 1] != 0 then (|m| - 1) % w else 0)
  }

  /** The sum of the rows of the foreground pixels. */
  function SumY(m: seq<int>, w: int): int
    requires w > 0
  {
    if m == [] then 0 else SumY(m[..|m| - 1], w) + (if m[|m| - 1] != 0 then (|m| - 1) / w else 0)
  }

  /** On a 0/255 mask, m00 is 255 times the foreground count. */
  lemma {:induction false} BinaryArea(m: seq<int>)
    requires IsBinary(m)
    ensures Area(m) == 255 * Foreground(m)
  {
    if m != [] {
      var p := m[..|m| - 1];
      assert IsBinary(p) by {
        forall i | 0 <= i < |p| ensures p[i] == 0 || p[i] == 255 { assert p[i] == m[i]; }
      }
      BinaryArea(p);
    }
  }

  /** On a 0/255 mask, m10 and m01 are 255 times the foreground coordinate sums. */
  lemma {:induction false} BinaryFirstMoments(m: seq<int>, w: int)
    requires w > 0 && IsBinary(m)
    ensures MomentX(m, w) == 255 * SumX(m, w)
    ensures MomentY(m, w) == 255 * SumY(m, w)
  {
    if m != [] {
      var p := m[..|m| - 1];
      assert IsBinary(p) by {
        forall i | 0 <= i < |p| ensures p[i] == 0 || p[i] == 255 { assert p[i] == m[i]; }
      }
      BinaryFirstMoments(p, w);
    }
  }

  /** Every foreground pixel of a mask of at most w*h pixels lies in
      [0, w) x [0, h), so the coordinate sums are bounded by the count. */
  lemma {:induction false} ForegroundSumBounds(m: seq<int>, w: int, h: int)
    requires w > 0 && h >= 0 && |m| <= w * h
    ensures 0 <= SumX(m, w) <= (w - 1) * Foreground(m)
    ensures 0 <= SumY(m, w) <= (h - 1) * Foreground(m)
  {
    if m != [] {
      var i := |m| - 1;
      var p := m[..i];
      ForegroundSumBounds(p, w, h);
      RowBelowHeight(i, w, h);
      var n := Foreground(p);
      if m[i] != 0 {
        assert Foreground(m) == n + 1;
        assert SumX(m, w) == SumX(p, w) + i % w;
        assert SumY(m, w) == SumY(p, w) + i / w;
        MulStep(w - 1, n);
        MulStep(h - 1, n);
      } else {
        assert Foreground(m) == n;
      }
    }
  }

  lemma MulStep(c: int, n: int)
    ensures c * (n + 1) == c * n + c
  {
  }

  lemma RowBelowHeight(i: int, w: int, h: int)
    requires w > 0 && 0 <= i < w * h
    ensures 0 <= i % w < w && 0 <= i / w < h
  {
  }

  /** Cancelling a common positive factor does not change an integer quotient. */
  lemma DivCancel(a: int, b: int, k: int)
    requires a >= 0 && b > 0 && k > 0
    ensures (k * a) / (k * b) == a / b
  {
    var q, r := a / b, a % b;
    assert a == b * q + r;
    assert k * a == (k * b) * q + k * r;
    assert 0 <= k * r < k * b;
    DivUnique(k * a, k * b, q, k * r);
  }

  lemma DivUnique(a: int, b: int, q: int, r: int)
    requires b > 0 && a == b * q + r && 0 <= r < b
    ensures a / b == q
  {
    var q' := a / b;
    assert a == b * q' + a % b;
    MulStep(b, q);
    MulStep(b, q');
    MulCancelLess(b, q', q + 1);
    MulCancelLess(b, q, q' + 1);
  }

  lemma MulCancelLess(b: int, x: int, y: int)
    requires b > 0 && b * x < b * y
    ensures x < y
  {
  }

  lemma DivAtMost(a: int, b: int, c: int)
    requires 0 <= a <= c * b && b > 0
    ensures 0 <= a / b <= c
  {
  }

  datatype Point = Point(x: int, y: int)

  /** The marker position `(int)(m10 / m00), (int)(m01 / m00)`. All three
      moments are non-negative, so C++'s truncation is Dafny's division. On
      a refined (0/255) mask it is the mean column and mean row of the
      foreground, and it always lies inside the frame. */
  function Centroid(m: seq<int>, w: int, h: int): (p: Point)
    requires w > 0 && h >= 0 && |m| == w * h
    requires IsBinary(m) && Area(m) > 0
    ensures 0 <= p.x < w && 0 <= p.y < h
    ensures Foreground(m) > 0
    ensures p.x == SumX(m, w) / Foreground(m) && p.y == SumY(m, w) / Foreground(m)
  {
    BinaryArea(m);
    BinaryFirstMoments(m, w);
    ForegroundSumBounds(m, w, h);
    DivCancel(SumX(m, w), Foreground(m), 255);
    DivCancel(SumY(m, w), Foreground(m), 255);
    DivAtMost(SumX(m, w), Foreground(m), w - 1);
    DivAtMost(SumY(m, w), Foreground(m), h - 1);
    Point(MomentX(m, w) / Area(m), MomentY(m, w) / Area(m))
  }

  /** Below this m00 the mask is treated as noise. */
  const AreaThreshold := 10000

  /** The gate `dArea > 10000`: strict, so an area of exactly 10000 is no detection. */
  predicate Detected(m: seq<int>) {
    Area(m) > AreaThreshold
  }

  /** On a 0/255 mask the gate passes exactly when at least 40 pixels are
      foreground (39 * 255 = 9945, 40 * 255 = 10200). */
  lemma DetectedIffFortyPixels(m: seq<int>)
    requires IsBinary(m)
    ensures Detected(m) <==> Foreground(m) >= 40
  {
    BinaryArea(m);
  }

  /** The gate and the centroid together: a position exactly when the gate
      passes, and then one inside the frame. */
  function Locate(m: seq<int>, w: int, h: int): (p: Option<Point>)
    requires w >= 0 && h >= 0 && |m| == w * h && IsBinary(m)
    ensures p.Some? <==> Detected(m)
    ensures p.Some? ==> 0 <= p.value.x < w && 0 <= p.value.y < h
    ensures p.Some? ==> w > 0 && Area(m) > 0 && p.value == Centroid(m, w, h)
  {
    if Detected(m) then
      assert m != [];
      assert w > 0;
      Some(Centroid(m, w, h))
    else None
  }

  datatype Option<T> = None | Some(value: T)
}
