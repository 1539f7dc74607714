/** The display texture `Data`: the BGR copy of the camera frame that
    `UpdateTexture` makes, and the debug lines `drawLineOnTexture` paints
    into it. */
module Overlay {
  import opened Imaging
  import opened CInt

  /** One `FColor` texel. */
  datatype Color = Color(b: byte, g: byte, r: byte, a: byte)

  /** The texel `Data.Init` fills the texture with: opaque black. */
  function Cleared(): Color {
    Color(0, 0, 0, 255)
  }

  /** An `int` stored into an 8-bit channel keeps its value modulo 256. */
  function ToByte(v: int): (c: byte)
    ensures 0 <= v < 256 ==> c as int == v
  {
    (v % 256) as byte
  }

  /** The blue, green and red arguments of `drawLineOnTexture`. */
  datatype Bgr = Bgr(blue: int, green: int, red: int)

  /** A texel recoloured by a line: B, G and R replaced, alpha kept. */
  function Paint(c: Color, col: Bgr): (p: Color)
    ensures p.a == c.a
    ensures 0 <= col.blue < 256 && 0 <= col.green < 256 && 0 <= col.red < 256 ==>
      p.b as int == col.blue && p.g as int == col.green && p.r as int == col.red
  {
    c.(b := ToByte(col.blue), g := ToByte(col.green), r := ToByte(col.red))
  }

  /* ---- The copy loop of UpdateTexture ---- */

  /** Texel i takes bytes 3i, 3i+1, 3i+2 of the BGR frame as B, G, R. */
  function CopyPixel(c: Color, frame: seq<byte>, i: int): Color
    requires 0 <= i && 3 * i + 2 < |frame|
  {
    c.(b := frame[3 * i], g := frame[3 * i + 1], r := frame[3 * i + 2])
  }

  /** The texture after the copy loop has handled texels 0 .. k-1, in order. */
  function Blit(d: seq<Color>, frame: seq<byte>, k: nat): (out: seq<Color>)
    requires k <= |d| && 3 * |d| <= |frame|
    ensures |out| == |d|
  {
    if k == 0 then d
    else
      var s := Blit(d, frame, k - 1);
      s[k - 1 := CopyPixel(s[k - 1], frame, k - 1)]
  }

  lemma BlitStep(d: seq<Color>, frame: seq<byte>, k: nat)
    requires k < |d| && 3 * |d| <= |frame|
    ensures Blit(d, frame, k + 1) == Blit(d, frame, k)[k := CopyPixel(Blit(d, frame, k)[k], frame, k)]
  {
  }

  /** After k steps exactly the texels below k hold the frame's colour; each
      keeps its alpha, and the others are untouched. */
  lemma {:induction false} BlitAt(d: seq<Color>, frame: seq<byte>, k: nat, i: int)
    requires k <= |d| && 3 * |d| <= |frame| && 0 <= i < |d|
    ensures Blit(d, frame, k)[i] == if i < k then CopyPixel(d[i], frame, i) else d[i]
  {
    if k > 0 {
      BlitAt(d, frame, k - 1, i);
      if i == k - 1 {
        BlitAt(d, frame, k - 1, k - 1);
      }
    }
  }

  /** The B, G, R bytes of the texture, texel by texel. */
  function Channels(d: seq<Color>): (bytes: seq<byte>)
    ensures |bytes| == 3 * |d|
  {
    if d == [] then [] else Channels(d[..|d| - 1]) + [d[|d| - 1].b, d[|d| - 1].g, d[|d| - 1].r]
  }

  /** Bytes 3i, 3i+1 and 3i+2 of the channels are texel i's B, G and R. */
  lemma {:induction false} ChannelsAt(d: seq<Color>, i: int, c: int)
    requires 0 <= i < |d| && 0 <= c < 3
    ensures Channels(d)[3 * i + c] == if c == 0 then d[i].b else if c == 1 then d[i].g else d[i].r
  {
    var n := |d| - 1;
    if i < n {
      ChannelsAt(d[..n], i, c);
      assert Channels(d)[3 * i + c] == Channels(d[..n])[3 * i + c];
      assert d[..n][i] == d[i];
    }
  }

  /** A full copy reproduces the frame: reading the B, G, R channels of the
      texture back gives exactly the frame's bytes. */
  lemma BlitRoundTrip(d: seq<Color>, frame: seq<byte>)
    requires |frame| == 3 * |d|
    ensures Channels(Blit(d, frame, |d|)) == frame
  {
    var out := Blit(d, frame, |d|);
    forall j | 0 <= j < |frame| ensures Channels(out)[j] == frame[j] {
      RoundTripAt(d, frame, j);
    }
  }

  lemma RoundTripAt(d: seq<Color>, frame: seq<byte>, j: int)
    requires |frame| == 3 * |d| && 0 <= j < |frame|
    ensures Channels(Blit(d, frame, |d|))[j] == frame[j]
  {
    var i, c := ThirdOf(j, |d|);
    BlitAt(d, frame, |d|, i);
    CopiedChannel(Blit(d, frame, |d|), frame, i, c);
  }

  /** A texel that holds its frame colour yields the frame's bytes back. */
  lemma CopiedChannel(out: seq<Color>, frame: seq<byte>, i: int, c: int)
    requires 0 <= i < |out| && 0 <= c < 3 && 3 * i + 2 < |frame|
    requires out[i].b == frame[3 * i] && out[i].g == frame[3 * i + 1] && out[i].r == frame[3 * i + 2]
    ensures Channels(out)[3 * i + c] == frame[3 * i + c]
  {
    ChannelsAt(out, i, c);
  }

  /** Byte j of the channels is channel c of texel i. */
  lemma ThirdOf(j: int, n: int) returns (i: int, c: int)
    requires 0 <= j < 3 * n
    ensures 0 <= i < n && 0 <= c < 3 && j == 3 * i + c
  {
    i, c := j / 3, j % 3;
  }

  /* ---- drawLineOnTexture ---- */

  /** `length` is `(int)Sqrt(dx*dx + dy*dy)`: the integer square root, rounded down. */
  predicate IsFloorSqrt(root: int, n: int) {
    0 <= root && root * root <= n < (root + 1) * (root + 1)
  }

  function Square(x: int): int { x * x }

  /** A rasterised line: a flat start index, a flat step and a step count. */
  datatype Line = Line(origin: int, unit: int, length: int)

  /** The texel the line writes at step k. */
  function LinePoint(l: Line, k: int): int {
    l.origin + k * l.unit
  }

  /** The line from (orgX, orgY) towards (endX, endY): the start is the flat
      index `orgY * W + orgX + 1`, and the step is the direction divided by
      `length` with C++ truncation, flattened to `unitY * W + unitX`. */
  function LineOf(w: int, orgX: int, orgY: int, endX: int, endY: int, length: int): Line
    requires length > 0
  {
    Line(orgY * w + orgX + 1, TruncDiv(endY - orgY, length) * w + TruncDiv(endX - orgX, length), length)
  }

  /** Because `length` is at least as long as either coordinate span, each
      per-axis step is -1, 0 or 1: the direction is quantised to the eight
      neighbours, or to no movement at all. */
  lemma UnitStepsAreSmall(dx: int, dy: int, length: int)
    requires length > 0 && IsFloorSqrt(length, Square(dx) + Square(dy))
    ensures -1 <= TruncDiv(dx, length) <= 1
    ensures -1 <= TruncDiv(dy, length) <= 1
  {
    SpanAtMostRoot(dx, Square(dy), length);
    SpanAtMostRoot(dy, Square(dx), length);
    StepOfShortSpan(dx, length);
    StepOfShortSpan(dy, length);
  }

  lemma SpanAtMostRoot(x: int, rest: int, root: int)
    requires rest >= 0 && root >= 0 && Square(x) + rest < (root + 1) * (root + 1)
    ensures -root <= x <= root
  {
    var a := if x >= 0 then x else -x;
    assert a * a == x * x;
    if a > root {
      SquareGrows(root + 1, a);
    }
  }

  lemma SquareGrows(a: int, b: int)
    requires 0 <= a <= b
    ensures a * a <= b * b
  {
  }

  lemma StepOfShortSpan(x: int, length: int)
    requires length > 0 && -length <= x <= length
    ensures -1 <= TruncDiv(x, length) <= 1
  {
  }

  /** The test at the head of `drawLineOnTexture`, as written: it admits an
      end point with `endX == W` or `endY == H`. */
  predicate EndpointPasses(endX: int, endY: int, w: int, h: int) {
    !(endX < 0 || endX > w || endY < 0 || endY > h)
  }

  /** Every texel the line writes is an index of a texture of n texels. The
      step index is linear in k, so its first and last values decide. */
  predicate LineFits(l: Line, n: int) {
    l.length >= 1 && 0 <= LinePoint(l, 1) < n && 0 <= LinePoint(l, l.length) < n
  }

  lemma LineFitsAll(l: Line, n: int, k: int)
    requires LineFits(l, n) && 1 <= k <= l.length
    ensures 0 <= LinePoint(l, k) < n
  {
    assert LinePoint(l, k) == LinePoint(l, 1) + (k - 1) * l.unit;
    assert LinePoint(l, l.length) == LinePoint(l, 1) + (l.length - 1) * l.unit;
    if l.unit >= 0 {
      MulMono(k - 1, l.length - 1, l.unit);
    } else {
      MulMono(k - 1, l.length - 1, -l.unit);
    }
  }

  lemma MulMono(a: int, b: int, c: int)
    requires 0 <= a <= b && c >= 0
    ensures 0 <= a * c <= b * c
  {
  }

  /** The texture after the drawing loop has made k steps. */
  function Stroke(d: seq<Color>, l: Line, k: int, col: Bgr): (out: seq<Color>)
    requires LineFits(l, |d|) && 0 <= k <= l.length
    ensures |out| == |d|
  {
    if k == 0 then d
    else
      var s := Stroke(d, l, k - 1, col);
      var p := LinePoint(l, k);
      LineFitsAll(l, |d|, k);
      s[p := Paint(s[p], col)]
  }

  lemma StrokeStep(d: seq<Color>, l: Line, k: int, col: Bgr)
    requires LineFits(l, |d|) && 0 <= k < l.length
    ensures 0 <= LinePoint(l, k + 1) < |d|
    ensures LinePoint(l, k + 1) == LinePoint(l, k) + l.unit
    ensures Stroke(d, l, k + 1, col)
            == Stroke(d, l, k, col)[LinePoint(l, k + 1) := Paint(Stroke(d, l, k, col)[LinePoint(l, k + 1)], col)]
  {
    LineFitsAll(l, |d|, k + 1);
  }

  /** Texel i is one of the first k points of the line. */
  ghost predicate OnLine(l: Line, k: int, i: int) {
    exists j :: 1 <= j <= k && LinePoint(l, j) == i
  }

  /** After k steps exactly the texels at points 1 .. k of the line are
      painted (a texel met twice is painted once), and nothing else changes. */
  lemma {:induction false} StrokeAt(d: seq<Color>, l: Line, k: int, col: Bgr, i: int)
    requires LineFits(l, |d|) && 0 <= k <= l.length && 0 <= i < |d|
    ensures Stroke(d, l, k, col)[i] == if OnLine(l, k, i) then Paint(d[i], col) else d[i]
  {
    if k > 0 {
      StrokeAt(d, l, k - 1, col, i);
      if LinePoint(l, k) == i {
        assert OnLine(l, k, i);
      } else if OnLine(l, k - 1, i) {
        var j :| 1 <= j <= k - 1 && LinePoint(l, j) == i;
        assert OnLine(l, k, i);
      } else {
        assert !OnLine(l, k, i) by {
          forall j | 1 <= j <= k ensures LinePoint(l, j) != i {
            if j < k {
              assert !(1 <= j <= k - 1 && LinePoint(l, j) == i);
            }
          }
        }
      }
    }
  }

  /** `drawLineOnTexture(orgX, orgY, endX, endY, blue, green, red)` on a
      W x H texture. An end point the test rejects leaves the texture as it
      was; so does, in this model, a line some of whose points fall outside
      the texture (the source writes out of bounds there). */
  function Draw(d: seq<Color>, w: int, h: int, orgX: int, orgY: int, endX: int, endY: int, length: int, col: Bgr): (out: seq<Color>)
    requires length > 0
    ensures |out| == |d|
  {
    if !EndpointPasses(endX, endY, w, h) then d
    else
      var l := LineOf(w, orgX, orgY, endX, endY, length);
      if LineFits(l, |d|) then Stroke(d, l, length, col) else d
  }

  /** An end point outside the texture makes the call a no-op. */
  lemma DrawOutsideIsNoOp(d: seq<Color>, w: int, h: int, orgX: int, orgY: int, endX: int, endY: int, length: int, col: Bgr)
    requires length > 0
    requires endX < 0 || endX > w || endY < 0 || endY > h
    ensures Draw(d, w, h, orgX, orgY, endX, endY, length, col) == d
  {
  }

  /** The call draws, and texel i is one of the points it paints. */
  ghost predicate Draws(n: int, w: int, h: int, orgX: int, orgY: int, endX: int, endY: int, length: int, i: int)
    requires length > 0
  {
    var l := LineOf(w, orgX, orgY, endX, endY, length);
    EndpointPasses(endX, endY, w, h) && LineFits(l, n) && OnLine(l, length, i)
  }

  /** What a call changes: when it draws, exactly the `length` texels
      `origin + k * unit` for k = 1 .. length are painted; every other texel,
      and every alpha, is left alone. */
  lemma DrawAt(d: seq<Color>, w: int, h: int, orgX: int, orgY: int, endX: int, endY: int, length: int, col: Bgr, i: int)
    requires length > 0 && 0 <= i < |d|
    ensures Draw(d, w, h, orgX, orgY, endX, endY, length, col)[i]
        == if Draws(|d|, w, h, orgX, orgY, endX, endY, length, i) then Paint(d[i], col) else d[i]
  {
    var l := LineOf(w, orgX, orgY, endX, endY, length);
    if EndpointPasses(endX, endY, w, h) && LineFits(l, |d|) {
      StrokeAt(d, l, length, col, i);
    }
  }

  /** The debug line `UpdateTexture` draws from the marker position (x, y),
      200 texels to the right, passes the end-point test when x = W - 200
      and y = H - 1, yet its last step lands on texel W*H + 1 of a texture
      of W*H texels. */
  lemma EndpointTestAdmitsOverrun(w: int, h: int)
    requires w >= 200 && h >= 1
    ensures var x, y := w - 200, h - 1;
      EndpointPasses(x + 200, y, w, h)
      && LinePoint(LineOf(w, x, y, x + 200, y, 200), 200) == w * h + 1
      && !LineFits(LineOf(w, x, y, x + 200, y, 200), w * h)
  {
    var x, y := w - 200, h - 1;
    assert TruncDiv(200, 200) == 1 && TruncDiv(0, 200) == 0;
    assert LinePoint(LineOf(w, x, y, x + 200, y, 200), 200) == y * w + x + 1 + 200;
    assert y * w + w == w * h;
  }

  /** `drawLineOnTexture(..., thickness)`: `thickness` copies of the line,
      copy i shifted by i along x when `endX - orgX < endY - orgY` and along
      y otherwise, drawn in order. Every copy has the same span, so the same
      `length`. */
  function ThickDraw(d: seq<Color>, w: int, h: int, orgX: int, orgY: int, endX: int, endY: int,
                     length: int, col: Bgr, t: int): (out: seq<Color>)
    requires t <= 0 || length > 0
    ensures |out| == |d|
    decreases t
  {
    if t <= 0 then d
    else
      var prev := ThickDraw(d, w, h, orgX, orgY, endX, endY, length, col, t - 1);
      var i := t - 1;
      if endX - orgX < endY - orgY then Draw(prev, w, h, orgX + i, orgY, endX + i, endY, length, col)
      else Draw(prev, w, h, orgX, orgY + i, endX, endY + i, length, col)
  }

  lemma PaintTwice(c: Color, col: Bgr)
    ensures Paint(Paint(c, col), col) == Paint(c, col)
  {
  }

  /** Copy c of a thick line paints texel i: copy c is the line shifted by c
      along x when `endX - orgX < endY - orgY`, and along y otherwise. */
  ghost predicate CopyPaints(n: int, w: int, h: int, orgX: int, orgY: int, endX: int, endY: int,
                             length: int, c: int, i: int)
  {
    length > 0 &&
    if endX - orgX < endY - orgY then Draws(n, w, h, orgX + c, orgY, endX + c, endY, length, i)
    else Draws(n, w, h, orgX, orgY + c, endX, endY + c, length, i)
  }

  /** Some copy c < t paints texel i. */
  ghost predicate SomeCopyPaints(n: int, w: int, h: int, orgX: int, orgY: int, endX: int, endY: int,
                                 length: int, t: int, i: int)
  {
    exists c :: 0 <= c < t && CopyPaints(n, w, h, orgX, orgY, endX, endY, length, c, i)
  }

  /** Copy t - 1, drawn last, paints texel i exactly when it is on that copy. */
  lemma ThickStep(d: seq<Color>, w: int, h: int, orgX: int, orgY: int, endX: int, endY: int,
                  length: int, col: Bgr, t: int, i: int)
    requires t > 0 && length > 0 && 0 <= i < |d|
    ensures var prev := ThickDraw(d, w, h, orgX, orgY, endX, endY, length, col, t - 1);
      ThickDraw(d, w, h, orgX, orgY, endX, endY, length, col, t)[i]
        == if CopyPaints(|d|, w, h, orgX, orgY, endX, endY, length, t - 1, i) then Paint(prev[i], col) else prev[i]
  {
    var prev := ThickDraw(d, w, h, orgX, orgY, endX, endY, length, col, t - 1);
    var k := t - 1;
    if endX - orgX < endY - orgY {
      DrawAt(prev, w, h, orgX + k, orgY, endX + k, endY, length, col, i);
    } else {
      DrawAt(prev, w, h, orgX, orgY + k, endX, endY + k, length, col, i);
    }
  }

  /** What a thick line changes: texel i is painted exactly when one of the
      `t` copies paints it (a texel met by several copies is painted once);
      every other texel, and every alpha, is left alone. */
  lemma {:induction false} ThickDrawAt(d: seq<Color>, w: int, h: int, orgX: int, orgY: int, endX: int, endY: int,
                                       length: int, col: Bgr, t: int, i: int)
    requires (t <= 0 || length > 0) && 0 <= i < |d|
    ensures ThickDraw(d, w, h, orgX, orgY, endX, endY, length, col, t)[i]
      == if SomeCopyPaints(|d|, w, h, orgX, orgY, endX, endY, length, t, i) then Paint(d[i], col) else d[i]
    decreases t
  {
    if t > 0 {
      var n, k := |d|, t - 1;
      ThickDrawAt(d, w, h, orgX, orgY, endX, endY, length, col, k, i);
      ThickStep(d, w, h, orgX, orgY, endX, endY, length, col, t, i);
      PaintTwice(d[i], col);
      if CopyPaints(n, w, h, orgX, orgY, endX, endY, length, k, i) {
        assert SomeCopyPaints(n, w, h, orgX, orgY, endX, endY, length, t, i);
      } else if SomeCopyPaints(n, w, h, orgX, orgY, endX, endY, length, k, i) {
        var c :| 0 <= c < k && CopyPaints(n, w, h, orgX, orgY, endX, endY, length, c, i);
        assert SomeCopyPaints(n, w, h, orgX, orgY, endX, endY, length, t, i);
      } else {
        assert !SomeCopyPaints(n, w, h, orgX, orgY, endX, endY, length, t, i) by {
          forall c | 0 <= c < t
            ensures !CopyPaints(n, w, h, orgX, orgY, endX, endY, length, c, i)
          {
            if c < k {
              assert !(0 <= c < k && CopyPaints(n, w, h, orgX, orgY, endX, endY, length, c, i));
            }
          }
        }
      }
    }
  }
}
