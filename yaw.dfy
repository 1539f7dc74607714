/** The yaw estimator `AWebCamReader::calculateYaw`: two scans of the mask
    from the flat index one past the centroid, one to the right and one to
    the left, and a rule that turns the two foreground counts into a yaw. */
module YawEstimator {
  import Imaging

  /** How many indices each scan covers (the `200` of `DoProcessing`). */
  const ScanDistance := 200

  /** The flat index both scans start from: `y * W + x + 1`. */
  function Origin(x: int, y: int, w: int): (o: int)
    ensures 0 <= x < w && 0 <= y ==> o >= 1
  {
    y * w + x + 1
  }

  /** The origin of a pixel of a W x H frame lies in 1 .. W*H: it can be the
      index one past the mask, which happens exactly for the bottom-right
      pixel. */
  lemma OriginInFrame(x: int, y: int, w: int, h: int)
    requires 0 <= x < w && 0 <= y < h
    ensures 1 <= Origin(x, y, w) <= w * h
    ensures Origin(x, y, w) == w * h <==> x == w - 1 && y == h - 1
  {
    assert y * w + w == (y + 1) * w;
    if y < h - 1 {
      assert (y + 1) * w <= (h - 1) * w;
      assert (h - 1) * w + w == w * h;
    } else {
      assert (y + 1) * w == w * h;
    }
  }

  /** A half-open range [lo, hi) of flat mask indices. */
  datatype Window = Window(lo: int, hi: int)

  function Min(a: int, b: int): int { if a <= b then a else b }
  function Max(a: int, b: int): int { if a <= b then b else a }

  /** The indices the right scan reads. It steps from `origin` up to
      `origin + distance - 1` and stops at the first index that is negative
      or above `last`; the index is flat, so a scan may run on into the next
      row. */
  function RightWindow(origin: int, distance: int, last: int): (win: Window)
    requires last >= -1
    ensures 0 <= win.lo <= win.hi <= last + 1
    ensures win.hi - win.lo <= Max(distance, 0)
    ensures win.lo < win.hi ==> win.lo == origin
  {
    if origin < 0 || origin > last || distance <= 0 then Window(0, 0)
    else Window(origin, Min(origin + distance, last + 1))
  }

  /** The indices the left scan reads: from `origin` down to
      `origin - distance + 1`, with the same stopping rule. It includes
      `origin` too, so the two scans share that index. */
  function LeftWindow(origin: int, distance: int, last: int): (win: Window)
    requires last >= -1
    ensures 0 <= win.lo <= win.hi <= last + 1
    ensures win.hi - win.lo <= Max(distance, 0)
    ensures win.lo < win.hi ==> win.hi == origin + 1
  {
    if origin < 0 || origin > last || distance <= 0 then Window(0, 0)
    else Window(Max(origin - distance + 1, 0), origin + 1)
  }

  /** The number of nonzero mask bytes in a window. */
  function CountNonzero(mask: seq<int>, win: Window): (c: nat)
    requires 0 <= win.lo <= win.hi <= |mask|
    ensures c <= win.hi - win.lo
    ensures c == 0 <==> forall i :: win.lo <= i < win.hi ==> mask[i] == 0
    ensures c == win.hi - win.lo <==> forall i :: win.lo <= i < win.hi ==> mask[i] != 0
    decreases win.hi - win.lo
  {
    if win.lo == win.hi then 0
    else CountNonzero(mask, Window(win.lo, win.hi - 1)) + (if mask[win.hi - 1] != 0 then 1 else 0)
  }

  /** A window can also be counted from its low end. */
  lemma {:induction false} CountFromLow(mask: seq<int>, win: Window)
    requires 0 <= win.lo < win.hi <= |mask|
    ensures CountNonzero(mask, win)
            == CountNonzero(mask, Window(win.lo + 1, win.hi)) + (if mask[win.lo] != 0 then 1 else 0)
    decreases win.hi - win.lo
  {
    if win.lo + 1 < win.hi {
      CountFromLow(mask, Window(win.lo, win.hi - 1));
    }
  }

  /** The right-hand counting loop. `last` is the largest index the loop's
      bounds test lets through; the mask must hold that index. */
  method CountRight(mask: seq<int>, origin: int, distance: int, last: int) returns (counterR: int)
    requires -1 <= last < |mask|
    ensures counterR == CountNonzero(mask, RightWindow(origin, distance, last))
    ensures 0 <= counterR <= Max(distance, 0)
  {
    var next := origin;
    var stop := origin + distance;
    counterR := 0;
    while next < stop
      invariant origin <= next
      invariant next > origin ==> 0 <= origin && next - 1 <= last && next <= stop
      invariant counterR == if next > origin then CountNonzero(mask, Window(origin, next)) else 0
    {
      if next < 0 || next > last {
        break;
      }
      if mask[next] != 0 {
        counterR := counterR + 1;
      }
      next := next + 1;
    }
  }

  /** The left-hand counting loop, stepping down from `origin`. */
  method CountLeft(mask: seq<int>, origin: int, distance: int, last: int) returns (counterL: int)
    requires -1 <= last < |mask|
    ensures counterL == CountNonzero(mask, LeftWindow(origin, distance, last))
    ensures 0 <= counterL <= Max(distance, 0)
  {
    var next := origin;
    var stop := origin - distance;
    counterL := 0;
    while next > stop
      invariant next <= origin
      invariant next < origin ==> origin <= last && 0 <= next + 1 && stop <= next
      invariant counterL == if next < origin then CountNonzero(mask, Window(next + 1, origin + 1)) else 0
    {
      if next < 0 || next > last {
        break;
      }
      CountFromLow(mask, Window(next, origin + 1));
      if mask[next] != 0 {
        counterL := counterL + 1;
      }
      next := next - 1;
    }
  }

  /** The yaw `calculateYaw` derives from the left and right counts. More
      foreground on the left gives a negative yaw: -60 when the right count
      is 0, else -2 times the truncated ratio left / right. Otherwise the
      yaw is positive: 80 when the left count is 0 (both counts 0
      included), else 2 times the truncated ratio right / left. The result
      is then clamped to [-60, 80]. Equal nonzero counts give 2. */
  function YawFromCounts(counterL: nat, counterR: nat): (yaw: int)
    ensures -60 <= yaw <= 80 && yaw % 2 == 0 && yaw != 0
    ensures yaw < 0 <==> counterL > counterR
    ensures counterL > counterR && counterR == 0 ==> yaw == -60
    ensures counterL == 0 ==> yaw == 80
    ensures counterL > counterR > 0 ==>
      var k := -yaw / 2;
      k * counterR <= counterL && (k == 30 || counterL < (k + 1) * counterR)
    ensures counterR >= counterL > 0 ==>
      var k := yaw / 2;
      k * counterL <= counterR && (k == 40 || counterR < (k + 1) * counterL)
  {
    var raw := RawYaw(counterL, counterR);
    if counterL > counterR && counterR > 0 then
      ScaledRatio(counterL, counterR, 30);
      Clamp(raw)
    else if counterR >= counterL > 0 then
      ScaledRatio(counterR, counterL, 40);
      Clamp(raw)
    else
      Clamp(raw)
  }

  /** The yaw before clamping: saturated values for a one-sided scan,
      otherwise the truncated ratio of the larger count to the smaller,
      scaled by 2, negative when the left count is larger. */
  function RawYaw(counterL: nat, counterR: nat): int {
    if counterL > counterR then
      if counterR == 0 then -60 else (counterL / counterR) * -2
    else
      if counterL == 0 then 80 else (counterR / counterL) * 2
  }

  /** `if (yaw > 80) yaw = 80; else if (yaw < -60) yaw = -60;` */
  function Clamp(raw: int): (c: int)
    ensures -60 <= c <= 80
    ensures -60 <= raw <= 80 ==> c == raw
  {
    if raw > 80 then 80 else if raw < -60 then -60 else raw
  }

  /** The truncated ratio of a larger count a to a smaller nonzero count b,
      capped at `cap`, is the k with k*b <= a < (k+1)*b, or `cap` itself. */
  lemma ScaledRatio(a: nat, b: nat, cap: nat)
    requires a >= b > 0 && cap >= 1
    ensures var k := if a / b > cap then cap else a / b;
      1 <= k <= cap && k * b <= a && (k == cap || a < (k + 1) * b)
  {
    var q := a / b;
    RatioBounds(a, b);
    if q > cap {
      MulGrows(cap, q, b);
    }
  }

  lemma MulGrows(x: int, y: int, b: int)
    requires 0 <= x <= y && b >= 0
    ensures x * b <= y * b
  {
  }

  /** Worked values: equal nonzero counts, one-sided scans, a ratio that
      truncates, and ratios beyond the clamps. */
  lemma YawExamples()
    ensures YawFromCounts(7, 7) == 2
    ensures YawFromCounts(5, 0) == -60 && YawFromCounts(0, 5) == 80 && YawFromCounts(0, 0) == 80
    ensures YawFromCounts(11, 4) == -4 && YawFromCounts(4, 11) == 4
    ensures YawFromCounts(200, 3) == -60 && YawFromCounts(1, 200) == 80
  {
  }

  /** The truncated quotient of counts, read without division. */
  lemma RatioBounds(a: nat, b: nat)
    ensures b > 0 ==> (a / b) * b <= a < (a / b + 1) * b
    ensures b > 0 && a >= b ==> a / b >= 1
  {
  }

  /** The yaw `calculateYaw` computes from a mask and a scan origin, when
      its bounds test admits indices up to `last`. */
  function YawAt(mask: seq<int>, origin: int, distance: int, last: int): (yaw: int)
    requires -1 <= last < |mask|
    ensures -60 <= yaw <= 80
    ensures (forall i :: LeftWindow(origin, distance, last).lo <= i < LeftWindow(origin, distance, last).hi ==> mask[i] == 0)
            ==> yaw == 80
    ensures yaw == -60 <== (forall i :: RightWindow(origin, distance, last).lo <= i < RightWindow(origin, distance, last).hi ==> mask[i] == 0)
                           && (exists i :: LeftWindow(origin, distance, last).lo <= i < LeftWindow(origin, distance, last).hi && mask[i] != 0)
  {
    YawFromCounts(CountNonzero(mask, LeftWindow(origin, distance, last)),
                  CountNonzero(mask, RightWindow(origin, distance, last)))
  }

  /** The bounds test `next > W*H` admits the index W*H, one past the last
      pixel of a W x H mask: a right scan that starts within `distance` of
      the end of the mask reads that byte. */
  lemma SourceTestReadsPastMask(w: int, h: int, origin: int, distance: int)
    requires w >= 0 && h >= 0
    requires 0 <= origin <= w * h < origin + distance
    ensures RightWindow(origin, distance, w * h).hi == w * h + 1
  {
  }

  /** For a frame at least `distance` wide, a right scan from a pixel's
      origin reaches the index W*H only when the pixel is on the bottom row;
      it then reads that index. */
  lemma PastMaskReadNeedsBottomRow(x: int, y: int, w: int, h: int, distance: int)
    requires 0 <= x < w && 0 <= y < h && 0 < distance <= w
    requires w * h < Origin(x, y, w) + distance
    ensures y == h - 1
    ensures RightWindow(Origin(x, y, w), distance, w * h).hi == w * h + 1
  {
    assert w * (h - 2) < w * y by {
      assert w * (h - 2) == w * h - w - w;
      assert y * w + x + 1 <= y * w + w;
    }
    Imaging.MulCancelLess(w, h - 2, y);
    OriginInFrame(x, y, w, h);
    SourceTestReadsPastMask(w, h, Origin(x, y, w), distance);
  }

  /** A centroid at (200, 239), on the bottom row of a 320 x 240 mask: the
      right scan runs from 76681 through 76800 = 320 * 240, one past the
      mask; the left scan stays inside. */
  lemma SourceTestReadsPastMaskExample()
    ensures Origin(200, 239, 320) == 76681
    ensures RightWindow(Origin(200, 239, 320), ScanDistance, 320 * 240) == Window(76681, 76801)
    ensures LeftWindow(Origin(200, 239, 320), ScanDistance, 320 * 240) == Window(76482, 76682)
  {
  }

  /** With the test `next >= W*H` instead, every index either scan reads is
      a pixel of the mask. */
  lemma CorrectedTestStaysInMask(mask: seq<int>, w: int, h: int, origin: int, distance: int)
    requires w >= 0 && h >= 0 && |mask| == w * h
    ensures RightWindow(origin, distance, w * h - 1).hi <= |mask|
    ensures LeftWindow(origin, distance, w * h - 1).hi <= |mask|
  {
  }
}
