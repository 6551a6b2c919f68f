/**
 * The adjustment `get_dominant_color` applies to the sampled colour once it
 * is in HSV form: hue kept, saturation and value clamped into fixed bands so
 * that the background is muted but never too dark or too bright.
 */
module Color {

  /** A colour in the HSV model, each component a fraction as `colorsys` returns it. */
  datatype Hsv = Hsv(hue: real, saturation: real, value: real)

  const MinSaturation: real := 0.25
  const MaxSaturation: real := 0.45
  const MinValue: real := 0.65
  const MaxValue: real := 0.85

  /** Python's two-argument `min`: the first argument unless the second is smaller. */
  function Min(a: real, b: real): (m: real)
    ensures m <= a && m <= b && (m == a || m == b)
  {
    if b < a then b else a
  }

  /** Python's two-argument `max`: the first argument unless the second is larger. */
  function Max(a: real, b: real): (m: real)
    ensures a <= m && b <= m && (m == a || m == b)
  {
    if b > a then b else a
  }

  function Distance(a: real, b: real): (d: real)
    ensures d >= 0.0 && (d == a - b || d == b - a)
  {
    if a >= b then a - b else b - a
  }

  /**
   * `clamp(x, minimum, maximum)`. For a proper interval the result is the
   * point of `[lo, hi]` nearest to `x`, which is `x` itself when `x` already
   * lies inside; for an empty interval (`hi < lo`) it is `lo`.
   */
  function Clamp(x: real, lo: real, hi: real): (r: real)
    ensures lo <= hi ==> lo <= r <= hi
    ensures lo <= x <= hi ==> r == x
    ensures lo <= hi ==> forall y :: lo <= y <= hi ==> Distance(r, x) <= Distance(y, x)
    ensures hi < lo ==> r == lo
  {
    Max(lo, Min(hi, x))
  }

  /** Clamping twice into the same interval changes nothing more. */
  lemma ClampIdempotent(x: real, lo: real, hi: real)
    requires lo <= hi
    ensures Clamp(Clamp(x, lo, hi), lo, hi) == Clamp(x, lo, hi)
  {
  }

  /** Clamping preserves the order of its inputs. */
  lemma ClampMonotone(x: real, y: real, lo: real, hi: real)
    requires x <= y
    ensures Clamp(x, lo, hi) <= Clamp(y, lo, hi)
  {
  }

  /**
   * The HSV adjustment: hue passes through, saturation lands in
   * `[0.25, 0.45]` and value in `[0.65, 0.85]`. A component already in its
   * band is left as it was; one outside it moves to the nearer band edge.
   */
  function Adjust(c: Hsv): (r: Hsv)
    ensures r.hue == c.hue
    ensures MinSaturation <= r.saturation <= MaxSaturation
    ensures MinValue <= r.value <= MaxValue
    ensures MinSaturation <= c.saturation <= MaxSaturation ==> r.saturation == c.saturation
    ensures MinValue <= c.value <= MaxValue ==> r.value == c.value
    ensures c.saturation < MinSaturation ==> r.saturation == MinSaturation
    ensures MaxSaturation < c.saturation ==> r.saturation == MaxSaturation
    ensures c.value < MinValue ==> r.value == MinValue
    ensures MaxValue < c.value ==> r.value == MaxValue
  {
    Hsv(c.hue, Clamp(c.saturation, MinSaturation, MaxSaturation), Clamp(c.value, MinValue, MaxValue))
  }

  /** An adjusted colour is a fixed point of the adjustment. */
  lemma AdjustIdempotent(c: Hsv)
    ensures Adjust(Adjust(c)) == Adjust(c)
  {
  }
}
