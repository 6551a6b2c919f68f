/**
 * What `bg_centered_crop` decides for one source image before it touches
 * any pixel: the colour the canvas is filled with, the size the source is
 * resized to, where it is pasted, and the white border rectangle painted
 * beneath it.
 */
module Composer {
  import opened Geometry
  import Color

  /** The layout of one output image on a `canvas`-sized background. */
  datatype Placement = Placement(
    fill: Color.Hsv,        // background colour, in HSV form
    resize: Size,           // `crop_size`: the size the source is resized to
    crop: Rect,             // `crop_position`: where the resized source is pasted
    border: Option<Rect>    // `border_position`, when a border is drawn
  )

  /**
   * The layout for a `src`-sized image whose 1x1 colour sample is `sample`
   * (in HSV form), on a `canvas`, with a border `border` pixels thick.
   */
  function CenteredCrop(src: Size, sample: Color.Hsv, canvas: Size, border: int): (r: Result<Placement>)
    requires IsImageSize(src)
    ensures r.Err? <==> src.width == 0 && src.height == 0
    ensures r.Ok? ==> r.value.resize == CropSize(src, canvas).value
    ensures r.Ok? ==> r.value.crop.Dimensions() == r.value.resize
    ensures r.Ok? ==> 0 <= (r.value.crop.x0 + r.value.crop.x1) - 2 * Center(canvas).x <= 1
    ensures r.Ok? ==> 0 <= (r.value.crop.y0 + r.value.crop.y1) - 2 * Center(canvas).y <= 1
    ensures r.Ok? ==> (r.value.border.Some? <==> border > 0)
    ensures r.Ok? && r.value.border.Some? ==>
              var b := r.value.border.value;
              b.Contains(r.value.crop) &&
              b.Dimensions() == Size(r.value.resize.width + 2 * border, r.value.resize.height + 2 * border) &&
              b.x0 + b.x1 == r.value.crop.x0 + r.value.crop.x1 &&
              b.y0 + b.y1 == r.value.crop.y0 + r.value.crop.y1
    ensures r.Ok? ==> r.value.fill == Color.Adjust(sample)
    ensures r.Ok? ==> r.value.fill.hue == sample.hue
    ensures r.Ok? ==> Color.MinSaturation <= r.value.fill.saturation <= Color.MaxSaturation
    ensures r.Ok? ==> Color.MinValue <= r.value.fill.value <= Color.MaxValue
  {
    var fill := Color.Adjust(sample);
    var size := CropSize(src, canvas);
    if size.Err? then Err(size.error)
    else
      var crop := CropRect(canvas, size.value);
      Ok(Placement(fill, size.value, crop, BorderRect(crop, border)))
  }

  /**
   * On the axis that sets the scale, the pasted image lies entirely on the
   * canvas: horizontally for a landscape source, vertically otherwise.
   */
  lemma LongSideOnCanvas(src: Size, sample: Color.Hsv, canvas: Size, border: int)
    requires IsImageSize(src) && !(src.width == 0 && src.height == 0)
    requires canvas.width >= 0 && canvas.height >= 0
    ensures var c := CenteredCrop(src, sample, canvas, border).value.crop;
      if src.width > src.height then 0 <= c.x0 <= c.x1 <= canvas.width
      else 0 <= c.y0 <= c.y1 <= canvas.height
  {
    var size := CropSize(src, canvas).value;
    CropSizeFitsLongSide(src, canvas);
    if src.width > src.height {
      CenteredSpanInside(canvas.width, size.width);
    } else {
      CenteredSpanInside(canvas.height, size.height);
    }
  }

  /**
   * An example: a 1000x500 image on a 1920x1080 canvas with an 8 pixel
   * border is resized to 864x432, pasted at (528, 324)-(1392, 756), framed by
   * (520, 316)-(1400, 764).
   */
  lemma WideImageExample(sample: Color.Hsv)
    ensures var r := CenteredCrop(Size(1000, 500), sample, Size(1920, 1080), 8);
      r.Ok? &&
      r.value.resize == Size(864, 432) &&
      r.value.crop == Rect(528, 324, 1392, 756) &&
      r.value.border == Some(Rect(520, 316, 1400, 764))
  {
    var src, canvas := Size(1000, 500), Size(1920, 1080);
    LandscapeCropSize(src, canvas);
    assert CropSize(src, canvas) == Ok(Size(864, 432));
    assert CropRect(canvas, Size(864, 432)) == Rect(528, 324, 1392, 756);
  }

  /**
   * A square image takes the portrait branch: 500x500 on a 1920x1080 canvas
   * becomes 756x756 (70% of the canvas height), pasted at (582, 162)-(1338, 918),
   * and with the border switched off nothing is framed.
   */
  lemma SquareImageExample(sample: Color.Hsv)
    ensures var r := CenteredCrop(Size(500, 500), sample, Size(1920, 1080), 0);
      r.Ok? &&
      r.value.resize == Size(756, 756) &&
      r.value.crop == Rect(582, 162, 1338, 918) &&
      r.value.border == None
  {
    var src, canvas := Size(500, 500), Size(1920, 1080);
    PortraitCropSize(src, canvas);
    assert CropSize(src, canvas) == Ok(Size(756, 756));
    assert CropRect(canvas, Size(756, 756)) == Rect(582, 162, 1338, 918);
  }
}
