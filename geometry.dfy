/**
 * Placement geometry of `bg_centered_crop`: the scale ratio, the truncated
 * crop size, the crop rectangle centred on the canvas and the border
 * rectangle around it.
 *
 * Python floats are idealised as exact reals (the literal 0.45 is 9/20 and
 * 0.7 is 7/10); Python's `int(x)` on a float is truncation toward zero and
 * `a // b` rounds toward negative infinity.
 */
module Geometry {

  /** A width and a height in pixels; also used for the canvas resolution. */
  datatype Size = Size(width: int, height: int)

  datatype Point = Point(x: int, y: int)

  /** An axis-aligned box `(x0, y0, x1, y1)` in canvas coordinates, as PIL takes it. */
  datatype Rect = Rect(x0: int, y0: int, x1: int, y1: int) {
    function Width(): int { x1 - x0 }
    function Height(): int { y1 - y0 }
    function Dimensions(): Size { Size(Width(), Height()) }

    /** `inner` lies inside this rectangle (edges may touch). */
    predicate Contains(inner: Rect) {
      x0 <= inner.x0 && y0 <= inner.y0 && inner.x1 <= x1 && inner.y1 <= y1
    }
  }

  datatype Option<T> = None | Some(value: T)

  /** The one failure the geometry can raise: Python's ZeroDivisionError. */
  datatype Error = ZeroDivision

  datatype Result<T> = Ok(value: T) | Err(error: Error)

  /** Share of the canvas width a landscape source spans. */
  const LandscapeShare: real := 0.45

  /** Share of the canvas height a portrait (or square) source spans. */
  const PortraitShare: real := 0.7

  /** A decoded image never has a negative dimension. */
  predicate IsImageSize(s: Size) {
    s.width >= 0 && s.height >= 0
  }

  /** Python's `int(x)` on a float: drops the fractional part, toward zero. */
  function Trunc(x: real): (n: int)
    ensures 0.0 <= x ==> 0 <= n && n as real <= x < n as real + 1.0
    ensures x < 0.0 ==> n <= 0 && n as real - 1.0 < x <= n as real
  {
    if x >= 0.0 then x.Floor else -((-x).Floor)
  }

  /** Python's `a // b` for a positive divisor: the quotient rounded down. */
  function FloorDiv(a: int, b: int): (q: int)
    requires b > 0
    ensures q * b <= a < q * b + b
  {
    a / b
  }

  /** The canvas centre `(width // 2, height // 2)`. */
  function Center(canvas: Size): (p: Point)
    ensures 2 * p.x <= canvas.width <= 2 * p.x + 1
    ensures 2 * p.y <= canvas.height <= 2 * p.y + 1
  {
    Point(FloorDiv(canvas.width, 2), FloorDiv(canvas.height, 2))
  }

  /**
   * The scale factor applied to the source: `canvas width * 0.45 / source
   * width` for a landscape source, `canvas height * 0.7 / source height`
   * otherwise (portrait and square). A 0x0 source divides by zero in the
   * second branch.
   */
  function Ratio(src: Size, canvas: Size): (r: Result<real>)
    requires IsImageSize(src)
    ensures r.Err? <==> src.width == 0 && src.height == 0
  {
    if src.width > src.height then
      Ok((canvas.width as real * LandscapeShare) / src.width as real)
    else if src.height == 0 then
      Err(ZeroDivision)
    else
      Ok((canvas.height as real * PortraitShare) / src.height as real)
  }

  /**
   * Both sides of `src` multiplied by `ratio` and truncated, as `int(side * ratio)`
   * does; the ratio enlarges a source smaller than its share of the canvas.
   */
  function Scale(src: Size, ratio: real): Size {
    Size(Trunc(src.width as real * ratio), Trunc(src.height as real * ratio))
  }

  /** `crop_size`: the source scaled by the ratio. */
  function CropSize(src: Size, canvas: Size): (r: Result<Size>)
    requires IsImageSize(src)
    ensures r.Err? <==> src.width == 0 && src.height == 0
  {
    var ratio := Ratio(src, canvas);
    if ratio.Err? then Err(ratio.error) else Ok(Scale(src, ratio.value))
  }

  /**
   * `crop_position`: a rectangle of the crop's size whose midpoint sits on the
   * canvas centre, half a pixel right of (or below) it when the crop side is
   * odd.
   */
  function CropRect(canvas: Size, crop: Size): (r: Rect)
    ensures r.Dimensions() == crop
    ensures 0 <= (r.x0 + r.x1) - 2 * Center(canvas).x <= 1
    ensures 0 <= (r.y0 + r.y1) - 2 * Center(canvas).y <= 1
  {
    var center := Center(canvas);
    var x0 := center.x - FloorDiv(crop.width, 2);
    var y0 := center.y - FloorDiv(crop.height, 2);
    Rect(x0, y0, x0 + crop.width, y0 + crop.height)
  }

  /**
   * `border_position`: the crop rectangle grown by `border` on every side, or
   * nothing at all when the border is switched off (`border <= 0`).
   */
  function BorderRect(crop: Rect, border: int): (r: Option<Rect>)
    ensures r.None? <==> border <= 0
    ensures r.Some? ==> r.value.Contains(crop)
    ensures r.Some? ==>
              r.value.Dimensions() == Size(crop.Width() + 2 * border, crop.Height() + 2 * border)
    ensures r.Some? ==>
              r.value.x0 + r.value.x1 == crop.x0 + crop.x1 && r.value.y0 + r.value.y1 == crop.y0 + crop.y1
  {
    if border > 0 then
      Some(Rect(crop.x0 - border, crop.y0 - border, crop.x1 + border, crop.y1 + border))
    else
      None
  }

  /** Dividing by a positive real and multiplying back is the identity. */
  lemma QuotientTimesDivisor(a: real, b: real)
    requires b > 0.0
    ensures (a / b) * b == a
    ensures a >= 0.0 ==> a / b >= 0.0
  {
  }

  /**
   * The ratio makes the source's deciding side span its share of the
   * canvas: `ratio * width == 0.45 * canvas width` for a landscape source,
   * `ratio * height == 0.7 * canvas height` otherwise; and it is never
   * negative on a canvas of non-negative size.
   */
  lemma RatioSpansShare(src: Size, canvas: Size)
    requires IsImageSize(src) && !(src.width == 0 && src.height == 0)
    ensures var ratio := Ratio(src, canvas).value;
      if src.width > src.height then ratio * src.width as real == canvas.width as real * LandscapeShare
      else ratio * src.height as real == canvas.height as real * PortraitShare
    ensures canvas.width >= 0 && canvas.height >= 0 ==> Ratio(src, canvas).value >= 0.0
  {
    if src.width > src.height {
      QuotientTimesDivisor(canvas.width as real * LandscapeShare, src.width as real);
    } else {
      QuotientTimesDivisor(canvas.height as real * PortraitShare, src.height as real);
    }
  }

  /** The floor of an exact quotient is integer floor division. */
  lemma FloorOfQuotient(a: int, b: int)
    requires b > 0
    ensures ((a as real) / (b as real)).Floor == a / b
  {
    var q, m := a / b, a % b;
    assert a == q * b + m && 0 <= m < b;
    var x := (a as real) / (b as real);
    assert x == q as real + (m as real) / (b as real) by {
      assert a as real == q as real * b as real + m as real;
    }
    assert 0.0 <= (m as real) / (b as real) < 1.0;
  }

  /** Truncating a non-negative exact quotient is integer division. */
  lemma TruncOfQuotient(a: int, b: int)
    requires a >= 0 && b > 0
    ensures Trunc((a as real) / (b as real)) == a / b
  {
    FloorOfQuotient(a, b);
  }

  /**
   * Scaling a source side by `(canvasSide * share) / srcSide`, with `share`
   * the exact fraction `num / den`, is one exact quotient of integers.
   */
  lemma ScaledSide(num: int, den: int, canvasSide: int, srcSide: int, side: int)
    requires den > 0 && srcSide > 0
    ensures side as real * ((canvasSide as real * (num as real / den as real)) / srcSide as real)
            == (num * canvasSide * side) as real / (den * srcSide) as real
  {
    var share := num as real / den as real;
    var ratio := (canvasSide as real * share) / srcSide as real;
    var q := (den * srcSide) as real;
    assert share * den as real == num as real;
    assert ratio * srcSide as real == canvasSide as real * share;
    assert q == den as real * srcSide as real;
    calc {
      side as real * ratio * q;
      side as real * (ratio * srcSide as real) * den as real;
      side as real * canvasSide as real * (share * den as real);
      (num * canvasSide * side) as real;
    }
  }

  /**
   * When both scaled sides are exact quotients of non-negative integers,
   * truncation gives the integer quotients.
   */
  lemma ScaleByQuotients(src: Size, ratio: real, a: int, da: int, b: int, db: int)
    requires a >= 0 && da > 0 && b >= 0 && db > 0
    requires src.width as real * ratio == a as real / da as real
    requires src.height as real * ratio == b as real / db as real
    ensures Scale(src, ratio) == Size(a / da, b / db)
  {
    TruncOfQuotient(a, da);
    TruncOfQuotient(b, db);
  }

  /**
   * A landscape crop spans exactly `floor(0.45 * canvas width)` pixels, and
   * its height is the source height scaled by the same factor, rounded down:
   * the crop size in integer arithmetic alone.
   */
  lemma LandscapeCropSize(src: Size, canvas: Size)
    requires IsImageSize(src) && src.width > src.height
    requires canvas.width >= 0
    ensures CropSize(src, canvas) ==
              Ok(Size(9 * canvas.width / 20, 9 * canvas.width * src.height / (20 * src.width)))
  {
    var ratio := Ratio(src, canvas).value;
    var a, b := 9 * canvas.width, 9 * canvas.width * src.height;
    assert src.width as real * ratio == a as real / 20 as real by {
      RatioSpansShare(src, canvas);
    }
    assert src.height as real * ratio == b as real / (20 * src.width) as real by {
      assert ratio == (canvas.width as real * (9 as real / 20 as real)) / src.width as real;
      ScaledSide(9, 20, canvas.width, src.width, src.height);
    }
    ScaleByQuotients(src, ratio, a, 20, b, 20 * src.width);
  }

  /**
   * A portrait or square crop spans exactly `floor(0.7 * canvas height)`
   * pixels, and its width is the source width scaled by the same factor,
   * rounded down.
   */
  lemma PortraitCropSize(src: Size, canvas: Size)
    requires IsImageSize(src) && src.width <= src.height && src.height > 0
    requires canvas.height >= 0
    ensures CropSize(src, canvas) ==
              Ok(Size(7 * canvas.height * src.width / (10 * src.height), 7 * canvas.height / 10))
  {
    var ratio := Ratio(src, canvas).value;
    var a, b := 7 * canvas.height * src.width, 7 * canvas.height;
    assert src.height as real * ratio == b as real / 10 as real by {
      RatioSpansShare(src, canvas);
    }
    assert src.width as real * ratio == a as real / (10 * src.height) as real by {
      assert ratio == (canvas.height as real * (7 as real / 10 as real)) / src.height as real;
      ScaledSide(7, 10, canvas.height, src.height, src.width);
    }
    ScaleByQuotients(src, ratio, a, 10 * src.height, b, 10);
  }

  /**
   * Scaling `a` by `short / long <= 1` before dividing by `d` gives at most
   * `a / d`, and never less than zero.
   */
  lemma ScaledQuotientAtMost(a: int, short: int, long: int, d: int)
    requires a >= 0 && 0 <= short <= long && long > 0 && d > 0
    ensures 0 <= a * short / (d * long) <= a / d
  {
    var m := d * long;
    var n, p := a * short, a * long;
    ProductNonNegative(a, short);
    QuotientBelow(n, m);
    MulMonotone(short, long, a);
    assert n <= p;
    BelowNextMultiple(a, d, long);
    CancelFactor(n / m, a / d + 1, m);
  }

  /** The product of two non-negative integers is non-negative. */
  lemma ProductNonNegative(x: int, y: int)
    requires x >= 0 && y >= 0
    ensures x * y >= 0
  {
  }

  /** A non-negative quotient times its divisor does not exceed the dividend. */
  lemma QuotientBelow(n: int, m: int)
    requires n >= 0 && m > 0
    ensures 0 <= n / m && (n / m) * m <= n
  {
  }

  /** `a * long` lies below the next multiple of `d * long` after `(a / d) * d * long`. */
  lemma BelowNextMultiple(a: int, d: int, long: int)
    requires d > 0 && long > 0
    ensures a * long < (a / d + 1) * (d * long)
  {
    var k := a / d + 1;
    assert a < k * d;
    MulStrict(a, k * d, long);
    MulAssoc(k, d, long);
  }

  /** Integer multiplication is associative. */
  lemma MulAssoc(x: int, y: int, z: int)
    ensures x * y * z == x * (y * z)
  {
  }

  /** Multiplying by a non-negative factor keeps `<=`. */
  lemma MulMonotone(x: int, y: int, k: int)
    requires x <= y && k >= 0
    ensures k * x <= k * y
  {
  }

  /** Multiplying by a positive factor keeps `<`. */
  lemma MulStrict(x: int, y: int, k: int)
    requires x < y && k > 0
    ensures x * k < y * k
  {
  }

  /** A positive common factor can be cancelled from `<`. */
  lemma CancelFactor(x: int, y: int, k: int)
    requires x * k < y * k && k > 0
    ensures x < y
  {
  }

  /**
   * On a canvas of non-negative size the crop is non-negative and keeps the
   * source's orientation: its long side is at most the matching canvas side,
   * and its short side is at most its long side.
   */
  lemma CropSizeFitsLongSide(src: Size, canvas: Size)
    requires IsImageSize(src) && !(src.width == 0 && src.height == 0)
    requires canvas.width >= 0 && canvas.height >= 0
    ensures var c := CropSize(src, canvas).value;
      if src.width > src.height then 0 <= c.height <= c.width <= canvas.width
      else 0 <= c.width <= c.height <= canvas.height
  {
    if src.width > src.height {
      LandscapeCropSize(src, canvas);
      ScaledQuotientAtMost(9 * canvas.width, src.height, src.width, 20);
    } else {
      PortraitCropSize(src, canvas);
      ScaledQuotientAtMost(7 * canvas.height, src.width, src.height, 10);
    }
  }

  /** A span of length `len <= side` centred at `side // 2` stays within `[0, side]`. */
  lemma CenteredSpanInside(side: int, len: int)
    requires 0 <= len <= side
    ensures 0 <= FloorDiv(side, 2) - FloorDiv(len, 2)
    ensures FloorDiv(side, 2) - FloorDiv(len, 2) + len <= side
  {
  }

  /**
   * The centring constraints determine the crop rectangle: any rectangle of
   * the crop's size whose midpoint is where `CropRect` puts it is `CropRect`.
   */
  lemma CropRectUnique(canvas: Size, crop: Size, r: Rect)
    requires r.Dimensions() == crop
    requires 0 <= (r.x0 + r.x1) - 2 * Center(canvas).x <= 1
    requires 0 <= (r.y0 + r.y1) - 2 * Center(canvas).y <= 1
    ensures r == CropRect(canvas, crop)
  {
    var c := CropRect(canvas, crop);
    assert 2 * r.x0 + crop.width == r.x0 + r.x1;
    assert 2 * c.x0 + crop.width == c.x0 + c.x1;
    assert 2 * r.y0 + crop.height == r.y0 + r.y1;
    assert 2 * c.y0 + crop.height == c.y0 + c.y1;
  }
}
