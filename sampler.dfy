/** The camera-ray samplers: choosing a method by name, and the sample lists
    of the random and the Sobol sampler for one pixel. */
module Samplers {
  import opened Common

  datatype SamplerMethod = Random | Sobol

  /** The number of precomputed Sobol points. */
  const SobolCount: nat := 10000

  /** A camera ray and the image position it was taken for. */
  datatype Sample = Sample(pixelPosition: Point2, ray: Ray)

  /** A sampler with its camera and the view-plane measures the constructor
      derives from the field of view (taken as given). */
  datatype Sampler = Sampler(
    samplerMethod: SamplerMethod,
    camera: Camera,
    imageWidth: nat,
    imageHeight: nat,
    halfWidth: real,
    halfHeight: real,
    pixelWidth: real,
    pixelHeight: real)

  /** `"sobol"` selects the Sobol sampler; every other name, `"random"`
      included, the random one; there is never `None`. */
  function FromStr(name: string): (r: Option<SamplerMethod>)
    ensures r.Some?
    ensures r == Some(Sobol) <==> name == "sobol"
    ensures r == Some(Random) <==> name != "sobol"
  {
    if name == "random" then Some(Random)
    else if name == "sobol" then Some(Sobol)
    else Some(Random)
  }

  /** The offset, on the view plane, of a point `u` in `[0, 1)` of a pixel of
      extent `pixel`: centred on the pixel centre. */
  function SubPixelOffset(u: real, pixel: real): real {
    (u - 0.5) * pixel
  }

  /** The random sampler's offset as written: only the half pixel is scaled,
      the random point is added unscaled. */
  function SubPixelOffsetAsWritten(u: real, pixel: real): real {
    u - 0.5 * pixel
  }

  lemma SubPixelOffsetBounds(u: real, pixel: real)
    requires 0.0 <= u < 1.0 && pixel >= 0.0
    ensures -pixel / 2.0 <= SubPixelOffset(u, pixel) <= pixel / 2.0
  {
    assert (u - 0.5) * pixel <= 0.5 * pixel by {
      assert (0.5 - (u - 0.5)) * pixel >= 0.0;
    }
    assert (u - 0.5) * pixel >= -0.5 * pixel by {
      assert ((u - 0.5) + 0.5) * pixel >= 0.0;
    }
  }

  /** The point in the middle of a pixel of a hundredth: as written the
      offset is nearly half a unit, a hundred times outside the pixel;
      corrected it is zero. */
  lemma SubPixelOffsetAsWrittenLeavesPixel()
    ensures SubPixelOffset(0.5, 0.01) == 0.0
    ensures SubPixelOffsetAsWritten(0.5, 0.01) == 0.495
    ensures SubPixelOffsetAsWritten(0.5, 0.01) > 0.01 / 2.0
  {
  }

  /** The sample for point `p` of pixel `(x, y)`: a ray from the camera
      position through the view-plane point displaced by `offset` (the
      sampler's sub-pixel offset; `normalize` is left to the caller), tagged
      with the pixel position `(x + p.x - 0.5, y + p.y - 0.5)`. */
  function SampleAt(s: Sampler, x: nat, y: nat, p: Point2, offset: (real, real) -> real,
                    normalize: Vec3 -> Vec3): (r: Sample)
    ensures r.ray.point == s.camera.position
    ensures r.pixelPosition == Point2(x as real + p.x - 0.5, y as real + p.y - 0.5)
  {
    var horizontal := Scale(s.camera.right,
                            x as real * s.pixelWidth + offset(p.x, s.pixelWidth) - s.halfWidth);
    var vertical := Scale(s.camera.up,
                          -(y as real) * s.pixelHeight + offset(p.y, s.pixelHeight) + s.halfHeight);
    Sample(Point2(x as real + p.x - 0.5, y as real + p.y - 0.5),
           Ray(s.camera.position, normalize(Add(Add(s.camera.forward, horizontal), vertical))))
  }

  predicate InUnitSquare(p: Point2) { 0.0 <= p.x < 1.0 && 0.0 <= p.y < 1.0 }

  /** One sample per random point (`points`, drawn uniformly from the unit
      square), in order, displaced by the offset as written. */
  method GetRandomSamples(s: Sampler, x: nat, y: nat, sampleNum: nat, points: seq<Point2>, normalize: Vec3 -> Vec3)
    returns (samples: seq<Sample>)
    requires |points| == sampleNum
    ensures |samples| == sampleNum
    ensures forall i :: 0 <= i < sampleNum ==> samples[i] == SampleAt(s, x, y, points[i], SubPixelOffsetAsWritten, normalize)
    ensures forall i :: 0 <= i < sampleNum ==> samples[i].ray.point == s.camera.position
  {
    samples := [];
    var w := 0;
    while w < sampleNum
      invariant 0 <= w <= sampleNum
      invariant |samples| == w
      invariant forall i :: 0 <= i < w ==> samples[i] == SampleAt(s, x, y, points[i], SubPixelOffsetAsWritten, normalize)
    {
      samples := samples + [SampleAt(s, x, y, points[w], SubPixelOffsetAsWritten, normalize)];
      w := w + 1;
    }
  }

  /** One sample per precomputed Sobol point, taking the first `sampleNum`
      of them, so at most `SobolCount`. */
  method GetSobolSamples(s: Sampler, x: nat, y: nat, sampleNum: nat, sobol: seq<Point2>, normalize: Vec3 -> Vec3)
    returns (samples: seq<Sample>)
    requires |sobol| == SobolCount
    ensures |samples| == Min(sampleNum, SobolCount)
    ensures forall i :: 0 <= i < |samples| ==> samples[i] == SampleAt(s, x, y, sobol[i], SubPixelOffset, normalize)
    ensures forall i :: 0 <= i < |samples| ==> samples[i].ray.point == s.camera.position
  {
    samples := [];
    var taken := sobol[..Min(sampleNum, |sobol|)];
    var i := 0;
    while i < |taken|
      invariant 0 <= i <= |taken|
      invariant |samples| == i
      invariant forall j :: 0 <= j < i ==> samples[j] == SampleAt(s, x, y, sobol[j], SubPixelOffset, normalize)
    {
      samples := samples + [SampleAt(s, x, y, taken[i], SubPixelOffset, normalize)];
      i := i + 1;
    }
  }

  /** Dispatches on the sampler's method alone. */
  method GetSamples(s: Sampler, samples: nat, x: nat, y: nat, points: seq<Point2>, sobol: seq<Point2>,
                    normalize: Vec3 -> Vec3)
    returns (r: seq<Sample>)
    requires |points| == samples && |sobol| == SobolCount
    ensures s.samplerMethod == Random ==> |r| == samples
    ensures s.samplerMethod == Sobol ==> |r| == Min(samples, SobolCount)
    ensures forall i :: 0 <= i < |r| ==>
      r[i] == if s.samplerMethod == Random then SampleAt(s, x, y, points[i], SubPixelOffsetAsWritten, normalize)
              else SampleAt(s, x, y, sobol[i], SubPixelOffset, normalize)
  {
    match s.samplerMethod {
      case Random => r := GetRandomSamples(s, x, y, samples, points, normalize);
      case Sobol => r := GetSobolSamples(s, x, y, samples, sobol, normalize);
    }
  }

  /** For a point of the unit square, the Sobol sampler's offset stays
      within half a pixel, and both samplers tag the sample with a pixel
      position within half a unit of the pixel's own coordinates. */
  lemma SamplePositionInPixel(s: Sampler, x: nat, y: nat, p: Point2, normalize: Vec3 -> Vec3)
    requires InUnitSquare(p) && s.pixelWidth >= 0.0 && s.pixelHeight >= 0.0
    ensures -s.pixelWidth / 2.0 <= SubPixelOffset(p.x, s.pixelWidth) <= s.pixelWidth / 2.0
    ensures -s.pixelHeight / 2.0 <= SubPixelOffset(p.y, s.pixelHeight) <= s.pixelHeight / 2.0
    ensures forall offset: (real, real) -> real {:trigger SampleAt(s, x, y, p, offset, normalize)} ::
      var q := SampleAt(s, x, y, p, offset, normalize).pixelPosition;
      x as real - 0.5 <= q.x < x as real + 0.5 && y as real - 0.5 <= q.y < y as real + 0.5
  {
    SubPixelOffsetBounds(p.x, s.pixelWidth);
    SubPixelOffsetBounds(p.y, s.pixelHeight);
  }
}
