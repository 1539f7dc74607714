/** `AWebCamReader`: the actor whose fields carry the tracking state from
    one frame to the next. Only the fields the tracking core reads or
    writes are modelled. */
module WebCam {
  import opened Imaging
  import opened YawEstimator
  import opened Overlay
  import opened Modes
  import opened CInt

  const Int32Max := 0x7fff_ffff

  class WebCamReader {
    /** `OperationMode`: 0 tracks the colour marker. */
    var operationMode: int
    /** `isStreamOpen`. */
    var isStreamOpen: bool
    /** `VideoSize.X` and `VideoSize.Y`: the frame's width and height. */
    var width: int
    var height: int
    /** `Data`: the display texture, one texel per pixel. */
    var data: array<Color>
    /** `iLowH` .. `iHighV`. */
    var hsvRange: ColorRange
    /** `posX`, `posY`: the last marker position found. */
    var posX: int
    var posY: int
    /** `rotation.Yaw`: the last yaw estimate. */
    var yaw: int

    /** The texture always has one texel per frame pixel. */
    ghost predicate Valid()
      reads this
    {
      width >= 0 && height >= 0 && data.Length == width * height
    }

    /** The constructor: mode 3, no stream, an empty texture, the default
        green range, and position and yaw 0. */
    constructor ()
      ensures Valid()
      ensures operationMode == StartMode && !isStreamOpen
      ensures width == 0 && height == 0 && data.Length == 0
      ensures hsvRange == DefaultRange()
      ensures posX == 0 && posY == 0 && yaw == 0
    {
      operationMode := StartMode;
      isStreamOpen := false;
      width, height := 0, 0;
      data := new Color[0];
      hsvRange := DefaultRange();
      posX, posY := 0, 0;
      yaw := 0;
    }

    /** The part of `BeginPlay` that runs once the camera has opened and
        delivered a first frame of w x h pixels: the stream is marked open,
        `VideoSize` is recorded and `Data` is filled with opaque black. */
    method BeginPlay(w: int, h: int)
      requires w >= 0 && h >= 0
      modifies this`isStreamOpen, this`width, this`height, this`data
      ensures Valid() && fresh(data)
      ensures isStreamOpen && width == w && height == h
      ensures data[..] == seq(w * h, _ => Cleared())
    {
      isStreamOpen := true;
      width, height := w, h;
      data := new Color[w * h](_ => Cleared());
    }

    /** `ChangeOperation`: advance the mode counter. The increment of the
        32-bit field must not overflow. */
    method ChangeOperation()
      requires operationMode < Int32Max
      modifies this`operationMode
      ensures operationMode == NextMode(old(operationMode))
    {
      operationMode := TruncRem(operationMode + 1, 3);
    }

    /** `calculateYaw(mask, distance)`: scan right and left from the stored
        position and store the resulting yaw in `rotation.Yaw`. The scans
        stop before index W*H (see `SourceTestReadsPastMask`). */
    method CalculateYaw(mask: seq<int>, distance: int) returns (result: int)
      requires Valid() && |mask| == width * height
      modifies this`yaw
      ensures yaw == result
      ensures result == YawAt(mask, Origin(posX, posY, width), distance, width * height - 1)
    {
      var origin := posY * width + posX + 1;
      var last := width * height - 1;
      var counterR := CountRight(mask, origin, distance, last);
      var counterL := CountLeft(mask, origin, distance, last);
      result := YawFromCounts(counterL, counterR);
      yaw := result;
    }

    /** `DoProcessing` on the HSV conversion of the current frame. In the
        tracking mode it thresholds the frame, refines the mask, and, when
        the gate passes, stores the centroid and the yaw measured from it.
        In any other mode, or when the gate fails, position and yaw keep
        their previous values. */
    method DoProcessing(hsv: seq<Hsv>, morph: Morphology)
      requires Valid() && |hsv| == width * height && ValidMorphology(morph)
      modifies this`posX, this`posY, this`yaw
      ensures var mask := Refine(Threshold(hsv, hsvRange), morph);
        match (if operationMode == ColorTracking then Locate(mask, width, height) else None)
        case Some(c) =>
          posX == c.x && posY == c.y
          && yaw == YawAt(mask, Origin(c.x, c.y, width), ScanDistance, width * height - 1)
        case None =>
          posX == old(posX) && posY == old(posY) && yaw == old(yaw)
    {
      if operationMode == ColorTracking {
        var mask := Threshold(hsv, hsvRange);
        mask := morph.erode(mask);
        mask := morph.dilate(mask);
        mask := morph.dilate(mask);
        mask := morph.erode(mask);
        if Area(mask) > AreaThreshold {
          assert mask != [];
          assert width > 0;
          posX := MomentX(mask, width) / Area(mask);
          posY := MomentY(mask, width) / Area(mask);
          var _ := CalculateYaw(mask, ScanDistance);
        }
      }
    }

    /** `UpdateTexture` with the current frame's BGR bytes (empty when the
        frame holds no data): copy the frame into the texture, then draw the
        debug line from the marker position 200 texels to the right in red. */
    method UpdateTexture(frame: seq<byte>)
      requires Valid() && (|frame| == 0 || |frame| >= 3 * (width * height))
      modifies data
      ensures data[..] ==
        if isStreamOpen && |frame| > 0 then
          Draw(Blit(old(data[..]), frame, width * height), width, height,
               posX, posY, posX + 200, posY, 200, Bgr(0, 0, 255))
        else old(data[..])
    {
      if isStreamOpen && |frame| > 0 {
        CopyFrame(frame);
        DrawLine(posX, posY, posX + 200, posY, 0, 0, 255, 200);
      }
    }

    /** The copy loop of `UpdateTexture`: texel `x + y * W` takes B, G, R from
        bytes 3i, 3i+1, 3i+2 of the frame, row by row. */
    method CopyFrame(frame: seq<byte>)
      requires Valid() && |frame| >= 3 * (width * height)
      modifies data
      ensures data[..] == Blit(old(data[..]), frame, width * height)
    {
      ghost var before := data[..];
      ghost var row := 0;
      var y := 0;
      while y < height
        invariant 0 <= y <= height && row == y * width && 0 <= row <= data.Length
        invariant data[..] == Blit(before, frame, row)
      {
        RowsFit(y, width, height);
        CopyRow(frame, y, row, before);
        row := row + width;
        y := y + 1;
      }
      assert row == data.Length;
    }

    /** One pass of the inner loop: row y of the frame, whose first texel
        is `row`. */
    method CopyRow(frame: seq<byte>, y: int, ghost row: int, ghost before: seq<Color>)
      requires 0 <= width && row == y * width && 0 <= row && row + width <= data.Length
      requires 3 * data.Length <= |frame| && |before| == data.Length
      requires data[..] == Blit(before, frame, row)
      modifies data
      ensures data[..] == Blit(before, frame, row + width)
    {
      var x := 0;
      while x < width
        invariant 0 <= x <= width
        invariant data[..] == Blit(before, frame, row + x)
      {
        var i := x + y * width;
        BlitStep(before, frame, i);
        data[i] := data[i].(b := frame[i * 3 + 0], g := frame[i * 3 + 1], r := frame[i * 3 + 2]);
        x := x + 1;
      }
    }

    /** `drawLineOnTexture(orgX, orgY, endX, endY, blue, green, red)`, with
        `length` the rounded-down length of the segment the caller computes
        first; a zero length would divide by zero. */
    method DrawLine(orgX: int, orgY: int, endX: int, endY: int, blue: int, green: int, red: int, length: int)
      requires Valid() && length > 0
      requires IsFloorSqrt(length, Square(endX - orgX) + Square(endY - orgY))
      modifies data
      ensures data[..] == Draw(old(data[..]), width, height, orgX, orgY, endX, endY, length, Bgr(blue, green, red))
    {
      var unitX := TruncDiv(endX - orgX, length);
      var unitY := TruncDiv(endY - orgY, length);
      var unit := unitY * width + unitX;
      var next := orgY * width + orgX + 1;

      if endX < 0 || endX > width || endY < 0 || endY > height {
        return;
      }
      var line := Line(next, unit, length);
      if !LineFits(line, data.Length) {
        return;
      }
      ghost var before := data[..];
      var g := 0;
      while g < length
        invariant 0 <= g <= length
        invariant next == LinePoint(line, g)
        invariant data[..] == Stroke(before, line, g, Bgr(blue, green, red))
      {
        StrokeStep(before, line, g, Bgr(blue, green, red));
        next := next + unit;
        data[next] := data[next].(b := ToByte(blue), g := ToByte(green), r := ToByte(red));
        g := g + 1;
      }
    }

    /** `drawLineOnTexture(orgX, orgY, endX, endY, blue, green, red, thickness)`. */
    method DrawThickLine(orgX: int, orgY: int, endX: int, endY: int, blue: int, green: int, red: int,
                         thickness: int, length: int)
      requires Valid() && (thickness <= 0 || length > 0)
      requires IsFloorSqrt(length, Square(endX - orgX) + Square(endY - orgY))
      modifies data
      ensures data[..] == ThickDraw(old(data[..]), width, height, orgX, orgY, endX, endY, length,
                                    Bgr(blue, green, red), thickness)
    {
      var x := endX - orgX;
      var y := endY - orgY;
      ghost var before := data[..];
      var i := 0;
      if x < y {
        while i < thickness
          invariant 0 <= i <= Max(thickness, 0)
          invariant data[..] == ThickDraw(before, width, height, orgX, orgY, endX, endY, length, Bgr(blue, green, red), i)
        {
          assert (endX + i) - (orgX + i) == x;
          DrawLine(orgX + i, orgY, endX + i, endY, blue, green, red, length);
          i := i + 1;
        }
      } else {
        while i < thickness
          invariant 0 <= i <= Max(thickness, 0)
          invariant data[..] == ThickDraw(before, width, height, orgX, orgY, endX, endY, length, Bgr(blue, green, red), i)
        {
          assert (endY + i) - (orgY + i) == y;
          DrawLine(orgX, orgY + i, endX, endY + i, blue, green, red, length);
          i := i + 1;
        }
      }
    }
  }

  /** Rows 0 .. y of a w x h frame cover at most w*h pixels. */
  lemma RowsFit(y: int, w: int, h: int)
    requires 0 <= y < h && w >= 0
    ensures (y + 1) * w == y * w + w <= w * h
  {
  }
}
