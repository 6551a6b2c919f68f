# bg-gen placement geometry and colour clamp, in Dafny

bg-gen turns arbitrary images into fixed-size desktop backgrounds. For each
source image `bg_centered_crop` fills a `width x height` canvas with a muted
version of the image's dominant colour. When the border is on, it paints a
white rectangle. It then pastes the image, rescaled, centred on the canvas.
The rescale fixes the image's long side to a share of the canvas, so a small
source is enlarged and a large one shrunk.

This project models what that function decides before any pixel is touched:

- `Geometry` (geometry.dfy) holds the scale ratio, the truncated crop size,
  the crop rectangle centred on `(width // 2, height // 2)`, and the border
  rectangle grown around it.
- `Color` (color.dfy) holds `clamp` and the HSV adjustment that
  `get_dominant_color` applies to the sampled colour. The hue is kept,
  saturation is clamped into `[0.25, 0.45]` and value into `[0.65, 0.85]`.
- `Composer` (composer.dfy) holds `CenteredCrop`, which puts the two together
  into one `Placement` (fill colour, resize size, crop rectangle, optional
  border rectangle), and the lemmas about it, including a 1000x500
  example.

Modelling choices:

- Python floats are idealised as exact reals. The literal `0.45` is 9/20 and
  `0.7` is 7/10. Under that reading, a landscape crop is exactly
  `floor(0.45 * canvas width)` wide (`LandscapeCropSize`), and a portrait or
  square crop is exactly `floor(0.7 * canvas height)` tall (`PortraitCropSize`).
- `int(x)` is truncation toward zero (`Trunc`). `a // b` is floor division
  (`FloorDiv`); for a positive divisor it agrees with Dafny's `/`.
- The source reads the border width from the global `args.border`, not from
  `config.border` (bg-gen.py:35). The script passes `args` as `config`, so the
  two are the same value. The model takes the border as an explicit parameter.
- A decoded image's dimensions are non-negative integers. The code does not
  guard the 0x0 image: it takes the portrait branch and divides by a zero
  height. The model returns `Err(ZeroDivision)` for exactly that input,
  following the code rather than giving a zero-size crop. A zero-height
  image that is wider than 0 takes the landscape branch and does get a
  zero-height crop.
- The canvas dimensions are arbitrary integers in the geometry. The lemmas
  that bound the crop ask for a canvas of non-negative size.

## Model

| member | source | states |
|---|---|---|
| Geometry.Trunc | bg-gen.py:19 | `int(x)` drops the fractional part toward zero: for `x >= 0` the result is the largest integer not above `x`, and for `x < 0` the smallest not below it |
| Geometry.FloorDiv | bg-gen.py:21-22 | `a // b` for a positive divisor is the quotient rounded down: `q*b <= a < q*b + b` |
| Geometry.Center | bg-gen.py:12 | the centre is `(width // 2, height // 2)`: twice each coordinate is the canvas side or one less |
| Geometry.Ratio | bg-gen.py:15-18 | the ratio exists for every image except 0x0, where the portrait branch divides by zero |
| Geometry.RatioSpansShare | bg-gen.py:15-18 | a landscape source (`width > height`) has `ratio * width == 0.45 * canvas width`; every other source, square included, has `ratio * height == 0.7 * canvas height`; the ratio is non-negative on a non-negative canvas |
| Geometry.CropSize | bg-gen.py:19 | `crop_size` fails exactly when the ratio does (the 0x0 image) |
| Geometry.LandscapeCropSize | bg-gen.py:15-19 | for a landscape source the crop is `(floor(9*W/20), floor(9*W*h/(20*w)))` in integer arithmetic: its width is exactly `floor(0.45*W)` |
| Geometry.PortraitCropSize | bg-gen.py:15-19 | for a portrait or square source the crop is `(floor(7*H*w/(10*h)), floor(7*H/10))`: its height is exactly `floor(0.7*H)` |
| Geometry.CropSizeFitsLongSide | bg-gen.py:15-19 | on a non-negative canvas both crop sides are non-negative, the long side is at most the matching canvas side, and the short side is at most the long side |
| Geometry.CropRect | bg-gen.py:20-29 | `crop_position` has exactly the crop size (`x1 - x0 == crop width`, `y1 - y0 == crop height`), and its midpoint is the canvas centre or half a pixel right of or below it: `0 <= (x0 + x1) - 2*(W//2) <= 1`, likewise for y |
| Geometry.CropRectUnique | bg-gen.py:20-29 | those size and centring facts pin the rectangle down: any rectangle satisfying them is `crop_position`, so `x0 == W//2 - w//2` and `y0 == H//2 - h//2` |
| Geometry.BorderRect | bg-gen.py:35-45 | no border rectangle when `border <= 0`; otherwise it contains the crop, has size `(crop width + 2*border, crop height + 2*border)` and the same midpoint, so each side lies `border` pixels outside the crop's |
| Color.Min | bg-gen.py:60 | Python's `min` of two values is at most both and equal to one of them |
| Color.Max | bg-gen.py:60 | Python's `max` of two values is at least both and equal to one of them |
| Color.Clamp | bg-gen.py:59-60 | for `lo <= hi` the result lies in `[lo, hi]`, is the point of `[lo, hi]` nearest to `x`, and is `x` itself when `x` is already inside; for `hi < lo` it is `lo` |
| Color.ClampIdempotent | bg-gen.py:59-60 | clamping a clamped value into the same interval changes nothing |
| Color.ClampMonotone | bg-gen.py:59-60 | clamping keeps the order of its inputs |
| Color.Adjust | bg-gen.py:71 | hue passes through unchanged, saturation ends in `[0.25, 0.45]`, value ends in `[0.65, 0.85]`; a component already inside its band is not moved, and one below or above its band becomes that band's lower or upper edge |
| Color.AdjustIdempotent | bg-gen.py:71 | adjusting an adjusted colour gives the same colour |
| Composer.CenteredCrop | bg-gen.py:12-45 | fails only for the 0x0 image; otherwise the image is resized to `crop_size` (`CropSize`, pinned by `LandscapeCropSize`/`PortraitCropSize`), the fill is the adjusted sample (`Adjust`), the paste rectangle has the resize size and is centred within a pixel, a border rectangle exists exactly when `border > 0` and then contains the crop, is `2*border` larger on each axis and shares the crop's midpoint, and the fill keeps the sampled hue with saturation and value in their bands |
| Composer.LongSideOnCanvas | bg-gen.py:15-29 | on the axis that sets the scale, the pasted image lies on the canvas: `0 <= x0 <= x1 <= W` for a landscape source, `0 <= y0 <= y1 <= H` otherwise |
| Composer.WideImageExample | bg-gen.py:12-45 | a 1000x500 image on 1920x1080 with border 8 is resized to 864x432, pasted at (528, 324)-(1392, 756) and framed by (520, 316)-(1400, 764) |
| Composer.SquareImageExample | bg-gen.py:12-45 | a 500x500 image on 1920x1080 takes the portrait branch: 756x756 at (582, 162)-(1338, 918), with no border when the border is 0 |

## Left out

- Image decoding, `resize`, `paste`, `save` and `Image.new` (bg-gen.py:13, 32-34, 46-50, 55) belong to PIL. The model gives the sizes and rectangles passed to them, not the pixels. Clipping a rectangle that falls outside the canvas is PIL's behaviour. So is the error `Image.new` raises for a negative canvas size.
- `colorsys.rgb_to_hsv`, `colorsys.hsv_to_rgb` and the `int(c * 255)` truncation (bg-gen.py:68-72) are floating-point colour-space code. The model starts from the sampled colour in HSV form and stops at the clamped HSV colour.
- The 1x1 `resize` that samples the dominant colour (bg-gen.py:64-67) is a PIL resampler; the HSV form of its output is a parameter of `CenteredCrop`.
- `is_image` (bg-gen.py:76-81) probes files by catching exceptions, which is file I/O.
- `get_args`, directory listing, output path building and the console messages (bg-gen.py:53-56, 84-103) are command-line and filesystem glue.
- Floating-point rounding: the model computes the ratio and the scaled sides exactly. IEEE doubles can land just below an integer where the exact value is that integer, and `int()` would then give one pixel less. Such inputs are not modelled.
- NaN and infinite inputs to `clamp`: the model works over reals, so Python's behaviour on them is not modelled.
