# siot-qrcode: a Dafny model of the masks and the compositing core

siot-qrcode puts decorations on a QR code bitmap that an external encoder
produces. It can recolour the dark modules with a fill picture, draw a
rounded avatar in the centre, lay the result over a background picture, and
round the corners of the final image. This project models the parts of that
code that are its own logic and proves properties of them:

- the two lazy mask views of `utils.go`, `CircleMask` and `RoundMask`. An
  image is a value of the datatype `Masks.Image`: a materialised raster
  (`Grid`) or a mask view over another image. `Masks.At` and `Masks.Bounds`
  follow `At` and `Bounds()` through nested views;
- the in-place recolouring loop of `ForegroundImage.Create`. It is a method
  over two `array2` RGBA buffers, `Foreground.Recolour`, proved against the
  pure function `Foreground.Recoloured`;
- the centring offset of `Avatar.Create`, using Go's truncating division
  (`GoImage.Half`, `Avatar.Offset`);
- the `QrCode` configuration object with its setters, and `QrCode.Image`,
  which applies the optional stages in a fixed order, stops at the first
  error and rounds the corners last (`Compositing`).

Files: `goimage.dfy` (colours, points, rectangles, Go's `n / 2`),
`wrappers.dfy` (`Option`, `Result`), `masks.dfy` (utils.go), `foreground.dfy`,
`avatar.dfy` and `compositing.dfy` (qrcode.go).

Modelling choices:

- Colours are values of `GoImage.Color`: `RGBA`, `Alpha16` or `Gray16`. In Go,
  an RGBA pixel is compared with the background colour as an interface
  value, so the dynamic types must match too. The encoder's default white is
  a `Gray16`, so it never matches an RGBA pixel. The masks return
  `Alpha16(0)` (`GoImage.Transparent`).
- `CircleMask.At` computes `sqrt((x-c)^2 + (y-c)^2) > d/2` in floating point,
  where `c` is Go's `d / 2`. The model uses the exact integer condition:
  `d < 0 || 4*((x-c)^2 + (y-c)^2) > d*d`. A negative `d` makes the float
  right-hand side negative, so every pixel is cut. For realistic image sizes
  the float test and the exact test agree; the model assumes they do.
- The QR bitmap comes from the external encoder. `QrCode.Image` takes it as
  the parameter `encode`. The three overlay stages are abstract functions
  `(EncoderSettings, Image) -> Result<Image>`, which models the `IImage`
  interface.
- The recolouring buffers start at the origin, as `image.NewRGBA` of the
  encoder's bitmap does. So the loop bound `img.Bounds().Max.X` is the buffer
  width `m.Length1`. Reading outside a buffer gives `RGBA{}` and writing
  outside it does nothing, as with Go's `image.RGBA`.

Quirks of the code that the model keeps:

- The recolouring loop uses the image's `Max.X` as the bound for both rows
  and columns. So only rows `y < width` are scanned, and the rows of a tall
  image from `width` down keep their colour. The model keeps this.
- The avatar offset is computed from the `Max` corners of the two bounds:
  `((W - w) / 2, (H - h) / 2)` with truncating division.
- The centre of a circle mask is visible only for a non-negative diameter.
  With a negative diameter every pixel is transparent.
- A radius of zero leaves `RoundMask` as the identity in bounds for a source
  whose top-left corner has coordinates 0 or 1, such as one anchored at the
  origin (`Masks.RoundMaskZeroRadius`), but not for every source
  (`Masks.RoundMaskNeedsOrigin`).
- The centre of a circle mask is Go's `d / 2`, so for an even `d >= 2` the disk
  reaches the column `d`, one past the view's bounds
  (`Masks.CircleReachesPastBounds`).
- The four corner tests exclude each other when `2r <= w` and `2r <= h`
  (`Masks.CornerCutsDisjoint`), and need that bound: with `w = 2` and
  `r = 2`, pixel (1, 0) is caught by both top tests
  (`Masks.CornerCutsOverlap`). All four return the same
  transparent colour, so their order never matters to the result.
- The right and bottom disks are centred at `w - r` and `h - r`, not at the
  mirror images `w - 1 - r` and `h - 1 - r`. So on an image anchored
  at the origin the rounding is not mirror-symmetric
  (`Masks.RoundMaskNotMirrored`).

## Model

| member | source | states |
|---|---|---|
| `GoImage.Rectangle` | utils.go:34-36 | `image.Rect` gives a well-formed rectangle whose x and y extents are the given corner coordinates, swapped where needed |
| `GoImage.Translate` | qrcode.go:53 | `Rectangle.Add` keeps width and height, and a point is inside the moved rectangle iff the point moved back is inside the original |
| `GoImage.Half` | qrcode.go:47 | Go's `n / 2` truncates toward zero: the remainder is in [0, 1] for `n >= 0` and in [-1, 0] for `n < 0` |
| `Masks.Bounds` | utils.go:34-36 | a circle view is a well-formed square whose side is the absolute value of `d`, with a corner at the origin (a RoundMask's bounds are its source's, stated by `Masks.NewRoundMask`) |
| `Masks.CircleCut` | utils.go:40-41 | the test cuts every pixel for a negative `d`, and for `d >= 0` cuts exactly when the squared distance from `(d/2, d/2)` exceeds the real `(d/2)^2`, the squared form of `sqrt(...) > float64(d)/2` |
| `Masks.TopLeftCut` | utils.go:79-81 | the top-left test: `x <= r`, `y <= r` and squared distance from `(r, r)` above `r*r` |
| `Masks.TopRightCut` | utils.go:82-84 | the top-right test: `x > w - r`, `y <= r` and outside the disk at `(w - r, r)` |
| `Masks.BottomLeftCut` | utils.go:85-87 | the bottom-left test: `x <= r`, `y > h - r` and outside the disk at `(r, h - r)` |
| `Masks.BottomRightCut` | utils.go:88-90 | the bottom-right test: `x > w - r`, `y > h - r` and outside the disk at `(w - r, h - r)` |
| `Masks.At` | utils.go:38-94 | every pixel of a nested mask view is the transparent colour or a colour held by the underlying raster |
| `Masks.NewCircleMask` | utils.go:9-11 | the view is `[0,d) x [0,d)` for `d >= 0`, and each pixel is transparent or the source pixel shifted by the offset point |
| `Masks.DefaultCircleMask` | utils.go:13-22 | the mask wraps the image with offset (0, 0), and for non-negative `w`, `h` its diameter is the largest `k` with `2k <= min(w, h)` |
| `Masks.CircleCentreVisible` | utils.go:38-46 | for `d >= 0` the centre `(d/2, d/2)` shows the source pixel at the offset centre |
| `Masks.CircleBoundaryKept` | utils.go:40-41 | a pixel exactly at distance d/2 is kept; only strictly larger distances are cut |
| `Masks.CircleNegativeDiameter` | utils.go:40-43 | with a negative diameter every pixel is transparent |
| `Masks.CircleCornerCut` | utils.go:38-46 | for `d >= 0`, pixel (0, 0) is cut iff `d == 2` or `d >= 4` |
| `Masks.CircleVisibleWithin` | utils.go:34-46 | every visible pixel lies in `[0,d] x [0,d]` |
| `Masks.CircleReachesPastBounds` | utils.go:34-46 | for an even `d >= 2` the pixel `(d, d/2)` lies outside the view's bounds yet shows the shifted source pixel |
| `Masks.NewRoundMask` | utils.go:49-67 | the view has exactly the source's bounds, and each pixel is transparent or the source pixel at the same point |
| `Masks.RoundMaskCorners` | utils.go:75-90 | a pixel in a corner cell and outside that corner's disk, centred at (r,r), (w-r,r), (r,h-r) or (w-r,h-r), is transparent |
| `Masks.RoundMaskPassThrough` | utils.go:91-92 | a pixel caught by none of the four tests is the source pixel |
| `Masks.RoundMaskZeroRadius` | utils.go:79-92 | with `r = 0` every in-bounds pixel of a source whose top-left corner has coordinates 0 or 1 is the source pixel |
| `Masks.RoundMaskNeedsOrigin` | utils.go:70-92 | for a raster at (5,5), radius 0 already cuts the in-bounds pixel (14,14) |
| `Masks.CornerCutsDisjoint` | utils.go:79-90 | when `2r <= w` and `2r <= h` no two corner tests hold at once |
| `Masks.CornerCutsOverlap` | utils.go:79-85 | with `w = 2` and `r = 2` both top tests hold at (1, 0) |
| `Masks.RoundMaskIdempotent` | utils.go:65-92 | masking twice with the same radius yields the same pixel as masking once, at every point |
| `Masks.RoundMaskCornerPixels` | utils.go:79-90 | for `r >= 2` the top-left, top-right and bottom-left corner pixels of an origin-anchored image are transparent; the bottom-right one is for `r >= 4` |
| `Masks.RoundMaskNotMirrored` | utils.go:76-88 | on an image anchored at the origin and at least 4 by 4, with `r = 2` the top-left pixel is cut but the bottom-right pixel shows the source |
| `Masks.RoundMaskBands` | utils.go:79-92 | for an origin-anchored source and `r >= 0`, in-bounds pixels with `r <= x <= w-r` or `r <= y <= h-r` show the source |
| `Foreground.Kept` | qrcode.go:134-140 | the pixels the loop skips: opaque white or equal to the background colour; with a background colour that is not an RGBA value, only opaque white |
| `Foreground.Recoloured` | qrcode.go:130-145 | same shape as the input; opaque-white and background pixels unchanged; other scanned pixels become the fill pixel at the same point; rows and columns at or past `width` unchanged |
| `Foreground.RecolouredIdempotent` | qrcode.go:130-145 | running the pass a second time changes nothing |
| `Foreground.BufferAt` | qrcode.go:134 | `m.At(x, y)` on an RGBA buffer is the buffer's pixel inside it and the zero colour outside, as read from its rows |
| `Foreground.Recolour` | qrcode.go:130-145 | the in-place nested loop leaves `m` equal to `Recoloured` of its old rows, the fill rows, the background colour and width `m.Length1` |
| `Avatar.Offset` | qrcode.go:47 | when the avatar fits, the offset is non-negative and leaves at most one more pixel after it than before it; otherwise it is non-positive and splits the overhang rounding toward zero |
| `Avatar.Target` | qrcode.go:53 | the avatar's rectangle keeps its width and height and its top-left corner moves by the offset |
| `Avatar.AvatarCentredInside` | qrcode.go:44-53 | with both rectangles anchored at the origin, an avatar no larger than the base is drawn inside the base, with margins differing by at most one pixel |
| `Avatar.OffsetTruncatesTowardZero` | qrcode.go:47 | a 13-pixel avatar on a 10-pixel base is placed at -1, where floor division would give -2 |
| `Compositing.Then` | qrcode.go:212-228 | one optional stage: an earlier error passes through unchanged, an absent stage changes nothing, and no stage turns an error into an image |
| `Compositing.Render` | qrcode.go:208-233 | the result of `Image` for a given base bitmap; it can fail only when some stage is set |
| `Compositing.RenderNoStages` | qrcode.go:208-233 | with no stage set, the result is the base bitmap inside a RoundMask of the configured radius |
| `Compositing.RenderOrder` | qrcode.go:212-230 | foreground sees the base, avatar sees the foreground's output, background sees the avatar's, and the last output is rounded |
| `Compositing.ForegroundErrorStops` | qrcode.go:212-216 | a failing foreground stage's error is the result, whatever the later stages are |
| `Compositing.AvatarErrorStops` | qrcode.go:218-222 | a failing avatar stage's error is the result, whatever the background stage is |
| `Compositing.BackgroundErrorStops` | qrcode.go:224-228 | a failing background stage's error is the result, with no image |
| `Compositing.RenderIsRounded` | qrcode.go:230-232 | the render succeeds iff every stage that is set succeeds; a successful result is a RoundMask of the configured radius with the last stage's bounds |
| `Compositing.QrCode.constructor` | qrcode.go:167-170 | a new QrCode holds the encoder settings, radius 0 and no stages |
| `Compositing.QrCode.SetRound` | qrcode.go:174-176 | sets the radius and nothing else |
| `Compositing.QrCode.SetAvatar` | qrcode.go:179-181 | sets the avatar stage and nothing else |
| `Compositing.QrCode.SetBackgroundImage` | qrcode.go:184-186 | sets the background stage and nothing else |
| `Compositing.QrCode.SetBackgroundColor` | qrcode.go:189-191 | changes only the encoder's background colour |
| `Compositing.QrCode.SetForegroundImage` | qrcode.go:194-196 | sets the foreground stage and nothing else |
| `Compositing.QrCode.SetForegroundColor` | qrcode.go:199-201 | changes only the encoder's foreground colour |
| `Compositing.QrCode.DisableBorder` | qrcode.go:203-205 | changes only the encoder's border flag |
| `Compositing.QrCode.Image` | qrcode.go:208-233 | the early-return method yields `Render` of the current settings, radius and stages on the encoder's bitmap, so the radius is the last one given to `SetRound` |

## Left out

- File opening, `image.Decode`, PNG encoding and `Write`, `WriteFile` and `PNG`: these are I/O and standard-library codecs.
- `resize.Resize` (Lanczos3, floating point): an external library.
- `draw.Draw` with `draw.Src` and `draw.Over` (alpha-over blending): library code. So `Avatar.Create` is modelled only through its offset and target rectangle, and `BackgroundImage.Create` only as an abstract stage.
- `ForegroundImage.Create` around the loop: decoding the fill picture, resizing it when its size differs, and copying both images into RGBA buffers are library steps. `Foreground.Recolour` starts from the two buffers and takes the background colour as a parameter.
- QR symbol encoding, recovery levels and the encoder construction in `New`: delegated to the external encoder. The base bitmap is a parameter of `QrCode.Image`.
- `ColorModel()` of both masks: it returns the source's colour model, and the model has no colour models.
- The floating-point `math.Sqrt` test of `CircleMask.At`: it is replaced by the exact integer condition, and IEEE rounding is not modelled.
- Go's 64-bit `int`: integers are unbounded here. The squared distances overflow only for coordinates beyond about 2^31.
- Colour values of other dynamic types, such as `*color.RGBA` pointers, have no `Color` constructor. Like `Gray16`, such a background colour never equals an RGBA pixel.
- `Bytes(size)` is declared by `IQrCode` in types.go but no type defines it; `QrCode` has `PNG` instead. The interface and constants of types.go hold nothing else to model.
- qrcode_test.go only writes images to disk.
