/** `isOpaqueImage` (util.go): whether every pixel of an image is fully
    opaque, from the image's own `Opaque()` when it has one, otherwise by
    scanning its bounds row by row. */
module Opacity {
  import opened Bytes
  import opened Pixels
  import opened Images

  datatype Option<T> = None | Some(value: T)

  /** An `image.Image` as `isOpaqueImage` sees it: what its `Opaque()` method
      answers, if it has one, its bounds, and the 16-bit alpha that
      `At(x, y).RGBA()` reports at each point. */
  datatype Picture = Picture(answer: Option<bool>, bounds: Rectangle, alpha: (int, int) -> int)

  /** Every point inside `r` has the full 16-bit alpha `0xffff`. */
  ghost predicate AllOpaque(r: Rectangle, alpha: (int, int) -> int)
  {
    forall x, y :: r.min.x <= x < r.max.x && r.min.y <= y < r.max.y ==> alpha(x, y) == 0xffff
  }

  /** `isOpaqueImage`: the answer of the image's `Opaque()` when it has one;
      otherwise `false` at the first point, in row-major order, whose alpha
      is not `0xffff`, and `true` when there is none, as for empty bounds. */
  method IsOpaqueImage(im: Picture) returns (r: bool)
    ensures im.answer.Some? ==> r == im.answer.value
    ensures im.answer.None? ==> (r <==> AllOpaque(im.bounds, im.alpha))
    ensures im.answer.None? && Empty(im.bounds) ==> r
  {
    if im.answer.Some? {
      return im.answer.value;
    }
    var rect := im.bounds;
    var y := rect.min.y;
    while y < rect.max.y
      invariant rect.min.y <= y
      invariant forall x', y' :: rect.min.x <= x' < rect.max.x && rect.min.y <= y' < y ==> im.alpha(x', y') == 0xffff
    {
      var x := rect.min.x;
      while x < rect.max.x
        invariant rect.min.x <= x
        invariant forall x' :: rect.min.x <= x' < x ==> im.alpha(x', y) == 0xffff
      {
        if im.alpha(x, y) != 0xffff {
          return false;
        }
        x := x + 1;
      }
      y := y + 1;
    }
    return true;
  }

  /** The 16-bit alpha `RGBA()` reports for an 8-bit `color.NRGBA` alpha:
      the byte repeated in both halves. */
  function Alpha16(a: byte): (w: nat)
    ensures w == 0xffff <==> a == 255
  {
    a * 257
  }

  /** The alpha the scan sees at each point of one of the package's own
      images; a point `At` cannot read is given alpha 0. */
  function AlphaOf(img: Image): (int, int) -> int
  {
    (x: int, y: int) => match At(img, x, y) case Found(c) => Alpha16(c.a) case OutOfRange => 0
  }

  /** The scan of a 4-channel image holding a width-by-height sequence of
      pixels finds it opaque exactly when every one of those pixels has alpha
      255. */
  lemma {:induction false} FlatOpaque(ps: seq<Pixel>, width: nat, height: nat, cs: Colorspace)
    requires |ps| == width * height
    ensures var img := Image(Flatten(ps), width, height, 4, cs);
      AllOpaque(Bounds(img), AlphaOf(img)) <==> forall i :: 0 <= i < |ps| ==> ps[i].a == 255
  {
    var img := Image(Flatten(ps), width, height, 4, cs);
    var r := Bounds(img);
    if AllOpaque(r, AlphaOf(img)) {
      forall i | 0 <= i < |ps| ensures ps[i].a == 255 {
        var x, y := Column(i, width, height);
        AtFlatten(ps, width, height, cs, x, y);
        assert AlphaOf(img)(x, y) == 0xffff;
      }
    }
    if forall i :: 0 <= i < |ps| ==> ps[i].a == 255 {
      forall x, y | r.min.x <= x < r.max.x && r.min.y <= y < r.max.y ensures AlphaOf(img)(x, y) == 0xffff {
        AtFlatten(ps, width, height, cs, x, y);
      }
    }
  }

  /** The column and row of pixel `i` of a width-by-height raster. */
  lemma Column(i: nat, width: nat, height: nat) returns (x: nat, y: nat)
    requires i < width * height
    ensures x < width && y < height && y * width + x == i
  {
    x, y := i % width, i / width;
  }

  /** An image with other than four channels is always found opaque, at
      every point `At` can read. */
  lemma ThreeChannelsOpaque(img: Image)
    requires img.channels != 4 && img.width >= 0 && img.height >= 0
    requires forall x, y :: 0 <= x < img.width && 0 <= y < img.height ==> At(img, x, y).Found?
    ensures AllOpaque(Bounds(img), AlphaOf(img))
  {
    forall x, y | 0 <= x < img.width && 0 <= y < img.height ensures AlphaOf(img)(x, y) == 0xffff {
      assert At(img, x, y).Found?;
    }
  }
}
