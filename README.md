# Colour-marker tracking in `AWebCamReader`

This project models the per-frame tracking core of the `AWebCamReader` actor (WebCamReader.cpp) and proves properties of it. The actor finds a green armband in each webcam frame. Tracking runs only while `OperationMode` is 0. It thresholds the HSV frame against six bounds, then cleans the binary mask with erode, dilate, dilate, erode using a 5×5 ellipse. It takes the mask's spatial moments and accepts a detection only when m00 exceeds 10000. It then stores the centroid in `posX`/`posY`, counts foreground bytes to the right and to the left of the centroid, and turns the two counts into a yaw stored in `rotation.Yaw`. Separately, `UpdateTexture` copies the BGR frame into the display texture `Data` and draws a red debug line from the tracked position. `ChangeOperation` cycles the mode counter.

Modules:

- `CInt` (cint.dfy): C++'s truncating `/` and `%`. Dafny's own operators are Euclidean.
- `Imaging` (imaging.dfy): pixels, the colour range and its defaults, thresholding, and the erode/dilate contract. Also the moments m00, m10 and m01, the centroid, and the area gate.
- `YawEstimator` (yaw.dfy): the two scan loops, the windows of indices they read, and the rule that turns the counts into a yaw.
- `Overlay` (overlay.dfy): texels, the frame copy, line rasterisation and the thick-line wrapper.
- `Modes` (modes.dfy): the operation-mode counter.
- `WebCam` (webcam_reader.dfy): the class `WebCamReader`. Its fields are `OperationMode`, `isStreamOpen`, `VideoSize`, `Data`, the HSV bounds, `posX`, `posY` and `rotation.Yaw`. Its methods update these fields in place. Each is proved against the pure functions above.

Erode and dilate are OpenCV library calls, so `DoProcessing` receives them as a `Morphology` value. Its contract is that each call keeps the mask's length and keeps a 0/255 mask 0/255. The HSV conversion is also a library call, so `DoProcessing` receives the converted frame. `UpdateTexture` receives the frame's BGR bytes. The frame's size is passed to `BeginPlay`.

## Model

| member | source | states |
|---|---|---|
| `CInt.TruncDiv` | WebCamReader.cpp:314-315 | C++ division by a positive length truncates toward zero: quotient and dividend have the same sign, and the quotient has the largest magnitude whose multiple does not pass the dividend |
| `CInt.TruncRem` | WebCamReader.cpp:85 | C++ remainder: dividend = quotient × divisor + remainder, and the remainder has the sign of the dividend |
| `Modes.NextMode` | WebCamReader.cpp:82-86 | the new mode is congruent to mode + 1 modulo 3; it lies in 0..2 when mode + 1 ≥ 0 and in −2..0 when mode + 1 < 0 |
| `Modes.ModeCycle` | WebCamReader.cpp:82-86 | within 0..2 the counter cycles 0 → 1 → 2 → 0, has no fixed point, and returns after three changes |
| `Modes.FromStartMode` | WebCamReader.cpp:20 | from the constructor's mode 3 the first change selects mode 1; tracking (mode 0) is reached only after the third change |
| `WebCam.WebCamReader.constructor` | WebCamReader.cpp:13-31 | mode 3, no stream, empty texture, default HSV bounds, position (0, 0) and yaw 0 |
| `WebCam.WebCamReader.BeginPlay` | WebCamReader.cpp:43-52 | after the stream opens: stream flagged open, `VideoSize` = frame size, `Data` = W·H texels of opaque black |
| `WebCam.WebCamReader.ChangeOperation` | WebCamReader.cpp:82-86 | the mode becomes `NextMode` of the old mode; nothing else changes |
| `Imaging.DefaultRange` | WebCamReader.cpp:231-242 | the bounds `initHSVvalues` installs form a non-empty range on each channel within 8-bit HSV: hue within 0..179, saturation and value within 0..255 |
| `Imaging.InColorRange` | WebCamReader.cpp:114 | `inRange`'s per-pixel test: each of H, S and V lies between its low and high bound, both inclusive |
| `Imaging.DefaultRangeAcceptsPureGreen` | WebCamReader.cpp:231-242 | the default bounds H 53..83, S 60..255, V 60..255 accept pure green and reject red and low saturation |
| `Imaging.Threshold` | WebCamReader.cpp:113-114 | the mask has one byte per pixel, is 0/255, and a byte is 255 exactly when all three channels lie within their inclusive bounds |
| `Imaging.Refine` | WebCamReader.cpp:116-122 | opening then closing (erode, dilate, dilate, erode) keeps the mask's length and keeps a 0/255 mask 0/255 |
| `Imaging.Area` | WebCamReader.cpp:125-129 | m00 of the mask: the sum of its values |
| `Imaging.MomentX` | WebCamReader.cpp:125-128 | m10 of the mask: the sum of column × value, the column of flat index i being i mod W |
| `Imaging.MomentY` | WebCamReader.cpp:125-128 | m01 of the mask: the sum of row × value, the row of flat index i being i div W |
| `Imaging.BinaryArea` | WebCamReader.cpp:125-129 | on a 0/255 mask, m00 = 255 × the number of foreground pixels |
| `Imaging.BinaryFirstMoments` | WebCamReader.cpp:125-128 | on a 0/255 mask, m10 and m01 are 255 × the sums of the foreground columns and rows |
| `Imaging.ForegroundSumBounds` | WebCamReader.cpp:125-136 | every foreground pixel lies inside the frame, so the coordinate sums are at most (W−1) and (H−1) times the foreground count |
| `Imaging.Centroid` | WebCamReader.cpp:134-136 | `(int)(m10/m00), (int)(m01/m00)` is the mean column and mean row of the foreground, truncated, and lies in [0, W) × [0, H) |
| `Imaging.Detected` | WebCamReader.cpp:131-132 | the strict gate `dArea > 10000` on m00 |
| `Imaging.DetectedIffFortyPixels` | WebCamReader.cpp:131-132 | the strict gate `m00 > 10000` passes on a 0/255 mask exactly when at least 40 pixels are foreground |
| `Imaging.Locate` | WebCamReader.cpp:131-137 | a position is produced exactly when the gate passes; it is then the centroid of the mask and lies inside the frame |
| `WebCam.WebCamReader.DoProcessing` | WebCamReader.cpp:103-145 | in mode 0 with the gate passed: position = centroid of the refined mask and yaw = the yaw measured from it with distance 200; in any other mode or with the gate failed: position and yaw unchanged |
| `YawEstimator.Origin` | WebCamReader.cpp:253 | the flat index `y·W + x + 1` both scans start from; it is at least 1 for a pixel of the frame |
| `YawEstimator.OriginInFrame` | WebCamReader.cpp:253 | for a pixel of a W×H frame the origin lies in 1..W·H, and equals W·H exactly for the bottom-right pixel |
| `YawEstimator.RightWindow` | WebCamReader.cpp:253-263 | the right scan reads a run of at most `distance` indices starting at the origin, all within [0, last] |
| `YawEstimator.LeftWindow` | WebCamReader.cpp:266-276 | the left scan reads a run of at most `distance` indices ending at the origin, all within [0, last] |
| `YawEstimator.CountNonzero` | WebCamReader.cpp:258-276 | the count is at most the window size; it is 0 exactly when the window is all background and equals the window size exactly when it is all foreground |
| `YawEstimator.CountFromLow` | WebCamReader.cpp:271-276 | counting a window from its low end, as the descending left loop does, gives the same count |
| `YawEstimator.CountRight` | WebCamReader.cpp:253-263 | `counterR` is the number of nonzero bytes at origin, origin+1, …, up to `distance` of them, stopping at the first index outside [0, last]; 0 ≤ `counterR` ≤ `distance` |
| `YawEstimator.CountLeft` | WebCamReader.cpp:266-276 | `counterL` is the number of nonzero bytes at origin, origin−1, …, with the same stopping rule; 0 ≤ `counterL` ≤ `distance` |
| `YawEstimator.RawYaw` | WebCamReader.cpp:279-297 | the yaw before clamping, branch by branch: −60 or 80 for a one-sided count, otherwise ∓2 × the truncated ratio of the larger count to the smaller |
| `YawEstimator.Clamp` | WebCamReader.cpp:302-304 | the clamp keeps the yaw within [−60, 80] and leaves a yaw already in that range unchanged |
| `YawEstimator.YawFromCounts` | WebCamReader.cpp:279-306 | the yaw is even, nonzero and in [−60, 80], and negative exactly when the left count is larger; −60 when only the left side has foreground; 80 when the left count is 0; otherwise −2·min(L/R, 30) or 2·min(R/L, 40) with truncated ratios, stated without division |
| `YawEstimator.ScaledRatio` | WebCamReader.cpp:287-296 | the truncated ratio of the larger count to the smaller, capped by the clamp, is the k with k·b ≤ a < (k+1)·b, or the cap itself |
| `YawEstimator.YawExamples` | WebCamReader.cpp:279-306 | equal counts give 2; (5, 0) gives −60; (0, 5) and (0, 0) give 80; 11 against 4 gives ∓4; ratios past the clamps saturate |
| `YawEstimator.YawAt` | WebCamReader.cpp:245-307 | the yaw from a mask lies in [−60, 80]; it is 80 when the left window holds no foreground, and −60 when only the left window holds foreground |
| `WebCam.WebCamReader.CalculateYaw` | WebCamReader.cpp:245-308 | the result equals `YawAt` of the mask at origin `posY·W + posX + 1` and is stored in `rotation.Yaw`; position and mask are unchanged |
| `YawEstimator.SourceTestReadsPastMask` | WebCamReader.cpp:260 | the test `next > W*H` lets the right scan read index W·H whenever the origin lies within `distance` of the end of the mask |
| `YawEstimator.PastMaskReadNeedsBottomRow` | WebCamReader.cpp:253-263 | in a frame at least `distance` wide, the right scan from a pixel's origin reaches index W·H only when the pixel is on the bottom row, and then it reads W·H |
| `YawEstimator.SourceTestReadsPastMaskExample` | WebCamReader.cpp:253-276 | a centroid at (200, 239) in a 320×240 frame gives origin 76681; the right scan then covers 76681..76800, and 76800 = W·H is one past the mask, while the left scan covers 76482..76681 |
| `YawEstimator.CorrectedTestStaysInMask` | WebCamReader.cpp:260 | with the test `next >= W*H`, both windows lie inside the mask |
| `Overlay.Cleared` | WebCamReader.cpp:52 | the texel `Data.Init` fills the texture with: opaque black |
| `Overlay.CopyPixel` | WebCamReader.cpp:159-161 | texel i takes frame bytes 3i, 3i+1 and 3i+2 as B, G and R, and keeps its alpha |
| `Overlay.BlitAt` | WebCamReader.cpp:154-164 | after the copy has handled texels 0..k−1, texel i < k has B, G, R = frame bytes 3i, 3i+1, 3i+2 and its old alpha; every other texel is unchanged |
| `Overlay.BlitRoundTrip` | WebCamReader.cpp:154-164 | reading the B, G, R channels back out of the copied texture gives exactly the frame's bytes |
| `WebCam.WebCamReader.CopyFrame` | WebCamReader.cpp:154-164 | the nested loop leaves `Data` equal to the full copy of the frame |
| `WebCam.WebCamReader.CopyRow` | WebCamReader.cpp:156-163 | one pass of the inner loop extends the copy by row y |
| `WebCam.WebCamReader.UpdateTexture` | WebCamReader.cpp:149-172 | with an open stream and frame data: copy the frame, then draw the red line from (posX, posY) to (posX+200, posY); otherwise `Data` is unchanged |
| `Overlay.Paint` | WebCamReader.cpp:325-327 | a recoloured texel keeps its alpha, and takes the given B, G, R exactly when each lies in 0..255 |
| `Overlay.ToByte` | WebCamReader.cpp:325-327 | an `int` colour stored in an 8-bit channel keeps its value when it is already in 0..255 |
| `Overlay.LineOf` | WebCamReader.cpp:313-317 | the line's start index `orgY·W + orgX + 1` and its flat step `unitY·W + unitX`, each per-axis step being the span divided by `length` with C++ truncation |
| `Overlay.UnitStepsAreSmall` | WebCamReader.cpp:313-315 | with `length` the rounded-down segment length, each per-axis step is −1, 0 or 1 |
| `Overlay.LineFitsAll` | WebCamReader.cpp:321-328 | if the first and last steps land inside the texture, every step does |
| `Overlay.StrokeAt` | WebCamReader.cpp:321-328 | after k steps, texel i is painted exactly when it is `origin + j·unit` for some j in 1..k; everything else, alpha included, is unchanged |
| `Overlay.Draw` | WebCamReader.cpp:311-329 | the texture keeps its size; it is the line's stroke when the end-point test passes and the line fits, and unchanged otherwise |
| `Overlay.EndpointPasses` | WebCamReader.cpp:319 | the end-point test as written: it passes for 0 ≤ endX ≤ W and 0 ≤ endY ≤ H, both ends inclusive |
| `Overlay.DrawOutsideIsNoOp` | WebCamReader.cpp:319 | an end point with endX < 0, endX > W, endY < 0 or endY > H leaves the texture unchanged |
| `Overlay.DrawAt` | WebCamReader.cpp:317-328 | texel i changes exactly when the call draws and i = `orgY·W + orgX + 1 + k·unit` for some k in 1..length; it then takes the given B, G, R and keeps its alpha |
| `Overlay.EndpointTestAdmitsOverrun` | WebCamReader.cpp:311-329 | the debug line from (W−200, H−1) passes the end-point test, yet its last step is texel W·H+1, outside `Data` |
| `WebCam.WebCamReader.DrawLine` | WebCamReader.cpp:311-329 | the texture becomes `Draw` of the old texture |
| `Overlay.ThickDraw` | WebCamReader.cpp:332-351 | `thickness` copies of the line, each shifted along x when endX−orgX < endY−orgY and along y otherwise; the texture keeps its size, and with thickness ≤ 0 nothing is drawn, whatever the segment's length |
| `Overlay.ThickDrawAt` | WebCamReader.cpp:332-351 | after a thick line, texel i has the line's B, G, R and its own alpha exactly when some copy c < thickness passes the end-point test, fits, and has i among its points; every other texel is unchanged |
| `WebCam.WebCamReader.DrawThickLine` | WebCamReader.cpp:332-351 | the texture becomes `ThickDraw` of the old texture; a thickness ≤ 0 is accepted for any segment, a zero-length one included, and leaves the texture as it was |

## Findings

| source | as written | input that shows it | evidently intended | confidence | as-written member | corrected member |
|---|---|---|---|---|---|---|
| WebCamReader.cpp:260 | both scans break only on `next > W*H`, so index W·H is read, one past the last byte of the W×H mask | a centroid on the bottom row with posX ≥ W−200, in a frame at least 200 wide: for example (200, 239) in a 320×240 frame, whose right scan covers 76681..76800. `calculateYaw` runs right after the centroid is stored, and a truncated mean row of H−1 needs every foreground pixel on the bottom row, at least 40 of them by the gate. Whether erode and dilate can leave such a mask is not settled by the model | break on `next >= W*H`, so only pixels of the mask are counted | not executed; the out-of-range read follows from the index arithmetic, but whether `DoProcessing` can produce such a centroid is unverified | `YawEstimator.SourceTestReadsPastMask` | `WebCam.WebCamReader.CalculateYaw` |
| WebCamReader.cpp:317-328 | only the end point is checked, and `endX == W` and `endY == H` pass; the start index adds 1, so the last write can land past `Data` | the debug line of `UpdateTexture` from posX = W−200, posY = H−1 writes texel W·H+1, and from posX = W−201 it writes texel W·H. `posX` and `posY` are Blueprint-writable (WebCamReader.h:112-115), and `UpdateTexture` reads them on every tick, so a script can set such a position | skip a line any of whose texels would fall outside `Data`, since an out-of-range draw is meant to be a no-op | not executed; the index arithmetic shows the write | `Overlay.EndpointTestAdmitsOverrun` | `Overlay.Draw` |

The yaw scans are loops over a `last` parameter: the largest index they let through. `CountRight(mask, origin, distance, W*H)` is the source as written, and its precondition `last < |mask|` then needs a mask one byte longer than the frame. `CalculateYaw` passes W·H−1.

## Behaviour the model keeps from the code

- The scans include the origin index itself. `CountRight` and `CountLeft` with `last` = W·H follow the code's test and stop outside [0, W·H]. The class's `CalculateYaw` uses the corrected test instead and stops outside [0, W·H) (see Findings).
- A zero-length line divides by zero before any check (WebCamReader.cpp:313-315), so `Draw` and `DrawLine` require `length > 0`. The thick-line overload makes no inner call when `thickness` ≤ 0, so `ThickDraw` and `DrawThickLine` accept that case for any segment, a zero-length one included.
- There is no `valid` flag. A failed gate simply leaves `posX`, `posY` and `rotation.Yaw` as they were. `Imaging.Locate` returns `None` in that case.
- The yaw is stored in a float but is always an integer. The model keeps it as `int`.

## Left out

- Camera capture (`stream.open`, `UpdateFrame`, `cv::resize`) is device I/O. Of the first-frame calls in `BeginPlay`, `UpdateFrame` is device I/O and `OnNextVideoFrame` is a Blueprint event with no body in C++. `DoProcessing` and `UpdateTexture` are left out of `BeginPlay` because the model exposes them as separate methods of the class, which a caller invokes after `BeginPlay`.
- `startPosX`/`startPosY` are computed but never used.
- `ShouldResize`: the source indexes the resized frame with the original `VideoSize`. The model requires the frame to have `VideoSize`'s dimensions.
- `Tick`'s refresh timer is float time driven by the engine.
- `UpdateTextureRegions` is a render-thread command over GPU calls.
- The `AddOnScreenDebugMessage` log line is display only. Setting a zero count to 1 before it affects only the message.
- The internals of `cvtColor`, `erode`, `dilate` and `getStructuringElement` are library code. The model keeps their order and the contract in `Imaging.ValidMorphology`.
- `moments` accumulates in `double`. The model's sums are exact integers. For camera-sized frames the sums stay below 2^53, so the truncated quotients agree.
- `FMath::Sqrt`/`FMath::Pow` are floating point. `length` is a parameter with a rounded-down-square-root precondition.
- `VideoSize` is a float vector. Index arithmetic at camera sizes is exact, so the model uses integers. 32-bit overflow of index arithmetic is not modelled, because it cannot occur at camera sizes. The one overflow modelled is `OperationMode++` at `INT32_MAX`, which is a precondition of `ChangeOperation`.
- `WebCam.WebCamReader.CalculateYaw`: scans with `last` = W·H−1, not the source's W·H (see Findings). It therefore never counts the byte past the mask.
- `Overlay.Draw`: it also skips a line whose texels leave the texture, where the source writes out of bounds (see Findings).
- Idempotence of mask refinement and the centroids of concrete masks are not modelled. They depend on how erode and dilate work inside, which the model does not fix.
