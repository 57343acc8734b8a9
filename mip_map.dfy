/** Texture lookup in an 8-bit RGB image: the horizontal coordinate repeats,
    the vertical one is clamped, and the texel read is always in bounds. */
module MipMaps {
  import opened Common

  newtype byte = x: int | 0 <= x < 256

  datatype Rgb8 = Rgb8(r: byte, g: byte, b: byte)

  datatype RgbF = RgbF(r: real, g: real, b: real)

  /** An image of `width` by `height` texels, row by row. */
  datatype RgbImage = RgbImage(width: nat, height: nat, texels: seq<Rgb8>) {
    predicate Valid() { |texels| == width * height }

    function GetPixel(x: nat, y: nat): Rgb8
      requires Valid() && x < width && y < height
    {
      RowMajorBound(x, y, width, height);
      texels[y * width + x]
    }
  }

  lemma RowMajorBound(x: nat, y: nat, w: nat, h: nat)
    requires x < w && y < h
    ensures y * w + x < w * h
  {
    assert y * w + x < (y + 1) * w;
    MulMonotone(y + 1, h, w);
  }

  lemma MulMonotone(a: nat, b: nat, c: nat)
    requires a <= b
    ensures a * c <= b * c
  {
    assert b * c == a * c + (b - a) * c;
  }

  datatype ImageWrapMethod = Repeat | Black | Clamp

  datatype MipMap = MipMap(image: RgbImage, wrapMethod: ImageWrapMethod)

  /** Stores the image; the wrap method is always `Black`. */
  function New(image: RgbImage): (m: MipMap)
    ensures m.image == image && m.wrapMethod == Black
  {
    MipMap(image, Black)
  }

  /** The repeated coordinate: the fractional part. */
  function Wrap(a: real): (u: real)
    ensures 0.0 <= u < 1.0
    ensures (a - u).Floor as real == a - u
  {
    a - a.Floor as real
  }

  /** The texel index along an axis of `n` texels: the scaled coordinate
      truncated, then capped at the last texel. */
  function TexelIndex(c: real, n: nat): (i: nat)
    requires n >= 1 && 0.0 <= c
    ensures i <= n - 1
    ensures c <= 1.0 ==> i as real <= c * n as real
  {
    var scaled := (c * n as real).Floor;
    Min(scaled, n - 1) as nat
  }

  function Channel(v: byte): (r: real)
    ensures 0.0 <= r <= 1.0
  {
    v as real / 255.0
  }

  /** The texel at the wrapped horizontal and clamped vertical coordinate,
      each channel scaled to `[0, 1]`; an empty image panics (the last index
      `w - 1` underflows). The filter `width` plays no part. */
  function Lookup(m: MipMap, point: Point2, width: real): (r: Outcome<RgbF>)
    requires m.image.Valid()
    ensures r.Panics? <==> m.image.width == 0 || m.image.height == 0
  {
    var w, h := m.image.width, m.image.height;
    if w == 0 || h == 0 then Panics
    else
      var u := Wrap(point.x);
      var v := Common.Clamp(point.y, 0.0, 1.0);
      var texel := m.image.GetPixel(TexelIndex(u, w), TexelIndex(v, h));
      Returns(RgbF(Channel(texel.r), Channel(texel.g), Channel(texel.b)))
  }

  /** A lookup in a non-empty image reads the texel at the repeated and
      clamped coordinates, so every channel lies in `[0, 1]`, and neither
      the filter width nor a whole-number shift of `x` changes the result. */
  lemma LookupInBounds(m: MipMap, point: Point2, width: real, width2: real, shift: int)
    requires m.image.Valid() && m.image.width >= 1 && m.image.height >= 1
    ensures var r := Lookup(m, point, width);
            && r.Returns?
            && 0.0 <= r.value.r <= 1.0 && 0.0 <= r.value.g <= 1.0 && 0.0 <= r.value.b <= 1.0
            && var t := m.image.GetPixel(TexelIndex(Wrap(point.x), m.image.width),
                                         TexelIndex(Common.Clamp(point.y, 0.0, 1.0), m.image.height));
               r == Returns(RgbF(Channel(t.r), Channel(t.g), Channel(t.b)))
    ensures Lookup(m, point, width) == Lookup(m, point, width2)
    ensures Lookup(m, Point2(point.x + shift as real, point.y), width) == Lookup(m, point, width)
  {
    WrapShift(point.x, shift);
  }

  /** Shifting by a whole number does not move the repeated coordinate. */
  lemma WrapShift(a: real, k: int)
    ensures Wrap(a + k as real) == Wrap(a)
  {
    var f := a.Floor;
    assert f as real <= a < f as real + 1.0;
    assert (f + k) as real <= a + k as real < (f + k) as real + 1.0;
    assert (a + k as real).Floor == f + k;
  }
}
