/** The closed set of scattering lobes a `Bsdf` slot can hold, the trait's
    default `pdf` and `sample_f` (cosine-weighted hemisphere sampling), and the
    dispatch from the enum to each lobe. */
module Bxdfs {
  import opened Common
  import opened Flags
  import opened BsdfHelpers
  import opened Kernels
  import L = Lambertians
  import SR = SpecularReflections
  import ST = SpecularTransmissions

  datatype Bxdf =
    | Lambertian(lambertian: L.Lambertian)
    | SpecularReflection(specularReflection: SR.SpecularReflection)
    | SpecularTransmission(specularTransmission: ST.SpecularTransmission)
    | OrenNayar(orenNayar: OrenNayarParams)
    | MicrofacetReflection(microfacet: MicrofacetParams)

  /** What the model needs of a lobe: a transmission lobe's indices are
      non-zero (they are divided by). */
  predicate WellFormed(b: Bxdf) {
    b.SpecularTransmission? ==>
      b.specularTransmission.etaA != 0.0 && b.specularTransmission.etaB != 0.0
  }

  // -----------------------------------------------------------------------
  // The trait's defaults

  /** `|cos θi| / π` when `wi` is in the hemisphere of `wo`, else 0. */
  function DefaultPdf(wo: Vec3, wi: Vec3): (r: real)
    ensures r >= 0.0
    ensures r > 0.0 <==> SameHemisphere(wo, wi)
  {
    SameHemisphereSigns(wo, wi);
    if SameHemisphere(wo, wi) then AbsCosTheta(wi) * L.FracOnePi else 0.0
  }

  /** The default sampled direction: a cosine-weighted direction from the disk
      point `disk`, flipped below the surface when `wo` is below it. */
  function DefaultSampleWi(wo: Vec3, disk: Point2, sqrt: real -> real): (wi: Vec3)
    requires NonNegativeRoot(sqrt)
    ensures wo.z < 0.0 ==> wi.z <= 0.0
    ensures wo.z >= 0.0 ==> wi.z >= 0.0
    ensures wi.x == disk.x && wi.y == disk.y
  {
    var wi := CosineWeightedInHemisphere(disk, sqrt);
    if wo.z < 0.0 then wi.(z := -wi.z) else wi
  }

  /** A sampled direction off the tangent plane is in the hemisphere of `wo`,
      so the default pdf of a default sample is positive. */
  lemma DefaultSampleSameSide(wo: Vec3, disk: Point2, sqrt: real -> real)
    requires NonNegativeRoot(sqrt) && wo.z != 0.0
    requires DefaultSampleWi(wo, disk, sqrt).z != 0.0
    ensures SameHemisphere(wo, DefaultSampleWi(wo, disk, sqrt))
    ensures DefaultPdf(wo, DefaultSampleWi(wo, disk, sqrt)) > 0.0
  {
    SameHemisphereSigns(wo, DefaultSampleWi(wo, disk, sqrt));
  }

  // -----------------------------------------------------------------------
  // Dispatch

  /** Every lobe is either a reflection or a refraction lobe, never both,
      none carries `TRANSMISSION`, and the specular ones are exactly the two
      delta lobes. */
  function TypeFlags(b: Bxdf): (r: BxdfTypes)
    ensures Contains(r, Reflection) != Contains(r, Refraction)
    ensures !Intersects(r, Transmission)
    ensures r != NoFlags
    ensures Contains(r, Specular) <==> b.SpecularReflection? || b.SpecularTransmission?
  {
    match b
    case Lambertian(_) => L.TypeFlags()
    case SpecularReflection(_) => SR.TypeFlags()
    case SpecularTransmission(_) => ST.TypeFlags()
    case OrenNayar(_) => Reflection | Diffuse
    case MicrofacetReflection(_) => Reflection | Glossy
  }

  /** Whether the lobe is selected by a request for `flags`. */
  predicate Matches(b: Bxdf, flags: BxdfTypes)
    ensures flags == All ==> Matches(b, flags)
    ensures flags == NoFlags ==> !Matches(b, flags)
  {
    FlagConstants();
    Intersects(TypeFlags(b), flags)
  }

  /** The delta lobes' `f` is zero for every pair; the Lambertian one is
      `reflectance / π` whatever the pair. */
  function F(b: Bxdf, k: Kernels, wo: Vec3, wi: Vec3): (r: Vec3)
    ensures b.SpecularReflection? || b.SpecularTransmission? ==> r == Zero()
    ensures b.Lambertian? ==> r == Scale(b.lambertian.reflectance, L.FracOnePi)
  {
    match b
    case Lambertian(l) => L.F(l, wo, wi)
    case SpecularReflection(s) => SR.F(s, wo, wi)
    case SpecularTransmission(s) => ST.F(s, wo, wi)
    case OrenNayar(p) => k.orenNayarF(p, wo, wi)
    case MicrofacetReflection(p) => k.microfacetF(p, wo, wi)
  }

  /** The delta lobes report pdf 1 for every pair; the Lambertian one is
      positive exactly for a pair in the same hemisphere and 0 otherwise. */
  function Pdf(b: Bxdf, k: Kernels, wo: Vec3, wi: Vec3): (r: real)
    ensures b.SpecularReflection? || b.SpecularTransmission? ==> r == 1.0
    ensures b.Lambertian? ==> r >= 0.0 && (r > 0.0 <==> SameHemisphere(wo, wi))
  {
    match b
    case Lambertian(_) => DefaultPdf(wo, wi)
    case SpecularReflection(s) => SR.Pdf(s, wo, wi)
    case SpecularTransmission(s) => ST.Pdf(s, wo, wi)
    case OrenNayar(p) => k.orenNayarPdf(p, wo, wi)
    case MicrofacetReflection(p) => k.microfacetPdf(p, wo, wi)
  }

  /** `sample_f(u, wo)`: `u` is the remapped uniform sample the rough lobes
      use, `disk` the disk point behind the default hemisphere sample. */
  function SampleF(b: Bxdf, k: Kernels, u: Point2, disk: Point2, wo: Vec3): (r: BxdfSample)
    requires k.Valid() && WellFormed(b) && wo.z != 0.0
    ensures b.Lambertian? ==>
      && r.wi == DefaultSampleWi(wo, disk, k.sqrt)
      && r.pdf == Pdf(b, k, wo, r.wi)
      && r.f == F(b, k, wo, r.wi)
    ensures b.SpecularReflection? || b.SpecularTransmission? ==> r.pdf == 0.0 || r.pdf == 1.0
  {
    match b
    case Lambertian(l) =>
      var wi := DefaultSampleWi(wo, disk, k.sqrt);
      BxdfSample(wi, DefaultPdf(wo, wi), L.F(l, wo, wi))
    case SpecularReflection(s) => SR.SampleF(s, k, wo)
    case SpecularTransmission(s) => ST.SampleF(s, k, wo)
    case OrenNayar(p) => k.orenNayarSample(p, u, wo)
    case MicrofacetReflection(p) => k.microfacetSample(p, u, wo)
  }
}
