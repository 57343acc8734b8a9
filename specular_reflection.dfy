/** The perfect mirror lobe. */
module SpecularReflections {
  import opened Common
  import opened Flags
  import opened Kernels
  import opened BsdfHelpers

  datatype SpecularReflection = SpecularReflection(reflectance: Vec3, fresnel: Fresnel)

  function TypeFlags(): BxdfTypes { Reflection | Specular }

  /** A delta lobe: `f` is zero for every pair. */
  function F(s: SpecularReflection, wo: Vec3, wi: Vec3): Vec3 { Zero() }

  /** A delta lobe: `pdf` is 1 for every pair. */
  function Pdf(s: SpecularReflection, wo: Vec3, wi: Vec3): real { 1.0 }

  /** The mirror of `wo` about the shading normal. */
  function MirrorDirection(wo: Vec3): Vec3 { Vec3(-wo.x, -wo.y, wo.z) }

  /** Samples the mirror direction with pdf 1 and `f = F(cos θi) * R / |cos θi|`.
      The caller never passes a grazing `wo`. */
  function SampleF(s: SpecularReflection, k: Kernels, wo: Vec3): (r: BxdfSample)
    requires wo.z != 0.0
    ensures r.wi == MirrorDirection(wo) && r.wi.z == wo.z
    ensures r.pdf == 1.0
    ensures s.fresnel == Noop ==> r.f == Div(s.reflectance, Abs(wo.z))
  {
    var wi := MirrorDirection(wo);
    var fresnel := s.fresnel.Evaluate(k, CosTheta(wi));
    BxdfSample(wi, Pdf(s, wo, wi), Div(Scale(s.reflectance, fresnel), AbsCosTheta(wi)))
  }

  /** The flags are exactly `REFLECTION | SPECULAR`. */
  lemma TypeFlagsExactly()
    ensures Contains(TypeFlags(), Reflection) && Contains(TypeFlags(), Specular)
    ensures !Intersects(TypeFlags(), Refraction | Diffuse | Transmission | Glossy)
  {
  }

  /** Mirroring twice gives back the original direction, and the mirror stays
      in the same hemisphere. */
  lemma MirrorInvolution(wo: Vec3)
    ensures MirrorDirection(MirrorDirection(wo)) == wo
    ensures wo.z != 0.0 ==> SameHemisphere(wo, MirrorDirection(wo))
  {
  }
}
