/** The package's own image type (image.go): a flat `Pix` buffer holding 3 or
    4 channels per pixel, its bounds and its colour at a point. */
module Images {
  import opened Bytes
  import opened Pixels

  /** `Colorspace`, an 8-bit code. */
  type Colorspace = byte

  const SRGB: Colorspace := 0
  const Linear: Colorspace := 1

  /** `Image`: the pixels row by row, `Channels` bytes each. */
  datatype Image = Image(pix: seq<byte>, width: int, height: int, channels: byte, colorspace: Colorspace)

  /** `image.Point` and `image.Rectangle`. */
  datatype Point = Point(x: int, y: int)
  datatype Rectangle = Rectangle(min: Point, max: Point)

  /** `image.Rect`: the rectangle with corners `(x0, y0)` and `(x1, y1)`, the
      coordinates of each axis put in order. */
  function Rect(x0: int, y0: int, x1: int, y1: int): (r: Rectangle)
    ensures r.min.x <= r.max.x && r.min.y <= r.max.y
    ensures {r.min.x, r.max.x} == {x0, x1} && {r.min.y, r.max.y} == {y0, y1}
  {
    Rectangle(Point(if x0 <= x1 then x0 else x1, if y0 <= y1 then y0 else y1),
              Point(if x0 <= x1 then x1 else x0, if y0 <= y1 then y1 else y0))
  }

  /** `Point.In`: `p` lies inside `r`, whose maximum is exclusive. */
  predicate In(p: Point, r: Rectangle)
  {
    r.min.x <= p.x < r.max.x && r.min.y <= p.y < r.max.y
  }

  /** `Rectangle.Empty`. */
  predicate Empty(r: Rectangle)
  {
    r.min.x >= r.max.x || r.min.y >= r.max.y
  }

  /** `Bounds`: the rectangle from the origin to `(Width, Height)`, which holds
      no point exactly when one of the two is zero. */
  function Bounds(img: Image): (r: Rectangle)
    ensures img.width >= 0 && img.height >= 0 ==> r == Rectangle(Point(0, 0), Point(img.width, img.height))
    ensures Empty(r) <==> img.width == 0 || img.height == 0
  {
    Rect(0, 0, img.width, img.height)
  }

  /** The points of a rectangle with a non-negative width and height are
      those with coordinates below them. */
  lemma InBounds(img: Image, p: Point)
    requires img.width >= 0 && img.height >= 0
    ensures In(p, Bounds(img)) <==> 0 <= p.x < img.width && 0 <= p.y < img.height
  {
  }

  /** What `At` gives: a colour, or the index panic of a read outside `Pix`. */
  datatype Lookup = Found(color: Pixel) | OutOfRange

  /** Where the pixel at `(x, y)` starts in `Pix`. */
  function Offset(img: Image, x: int, y: int): int
  {
    (y * img.width + x) * img.channels
  }

  /** How many bytes `At` reads: four for a 4-channel image, three otherwise. */
  function Read(img: Image): (k: nat)
    ensures k == 4 <==> img.channels == 4
    ensures k == 3 <==> img.channels != 4
  {
    if img.channels == 4 then 4 else 3
  }

  /** `At`: the `color.NRGBA` made of the bytes at the pixel's offset, alpha
      fixed at 255 unless the image has four channels. */
  function At(img: Image, x: int, y: int): (c: Lookup)
    ensures c.Found? <==> 0 <= Offset(img, x, y) && Offset(img, x, y) + Read(img) <= |img.pix|
    ensures c.Found? ==> var o := Offset(img, x, y);
      c.color.r == img.pix[o] && c.color.g == img.pix[o + 1] && c.color.b == img.pix[o + 2]
      && c.color.a == (if img.channels == 4 then img.pix[o + 3] else 255)
  {
    var o := Offset(img, x, y);
    if img.channels == 4 then
      if 0 <= o && o + 4 <= |img.pix| then Found(Pixel(img.pix[o], img.pix[o + 1], img.pix[o + 2], img.pix[o + 3]))
      else OutOfRange
    else
      if 0 <= o && o + 3 <= |img.pix| then Found(Pixel(img.pix[o], img.pix[o + 1], img.pix[o + 2], 255))
      else OutOfRange
  }

  /** `At` reads nothing but the bytes of the addressed pixel: two images of
      the same shape that agree on them give the same colour there. */
  lemma AtReadsPixel(img: Image, other: Image, x: int, y: int)
    requires other.width == img.width && other.channels == img.channels
    requires var o := Offset(img, x, y);
      0 <= o && o + Read(img) <= |img.pix| && o + Read(img) <= |other.pix|
      && img.pix[o..o + Read(img)] == other.pix[o..o + Read(img)]
    ensures At(other, x, y) == At(img, x, y)
  {
    var o, n := Offset(img, x, y), Read(img);
    var mine, theirs := img.pix[o..o + n], other.pix[o..o + n];
    assert img.pix[o] == mine[0] && img.pix[o + 1] == mine[1] && img.pix[o + 2] == mine[2];
    assert other.pix[o] == theirs[0] && other.pix[o + 1] == theirs[1] && other.pix[o + 2] == theirs[2];
    if n == 4 {
      assert img.pix[o + 3] == mine[3] && other.pix[o + 3] == theirs[3];
    }
  }

  /** The index of the pixel at `(x, y)` in row-major order. */
  lemma RasterIndex(width: nat, height: nat, x: nat, y: nat)
    requires x < width && y < height
    ensures y * width + x < width * height
  {
    assert y * width <= (height - 1) * width;
  }

  lemma FourChannelOffset(img: Image, x: int, y: int)
    requires img.channels == 4
    ensures Offset(img, x, y) == 4 * (y * img.width + x)
  {
  }

  /** In a 4-channel image whose buffer is the pixels of a width-by-height
      sequence laid out in row-major order, `At` gives pixel `y * Width + x`. */
  lemma AtFlatten(ps: seq<Pixel>, width: nat, height: nat, cs: Colorspace, x: nat, y: nat)
    requires |ps| == width * height && x < width && y < height
    ensures y * width + x < |ps|
    ensures At(Image(Flatten(ps), width, height, 4, cs), x, y) == Found(ps[y * width + x])
  {
    RasterIndex(width, height, x, y);
    var i := y * width + x;
    FlattenAt(ps, i);
    var img := Image(Flatten(ps), width, height, 4, cs);
    FourChannelOffset(img, x, y);
    var f, c := Flatten(ps), Channels(ps[i]);
    assert f[4 * i] == c[0] && f[4 * i + 1] == c[1] && f[4 * i + 2] == c[2] && f[4 * i + 3] == c[3] by {
      assert f[4 * i..4 * i + 4] == c;
    }
  }
}
