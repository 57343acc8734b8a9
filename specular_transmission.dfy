/** The perfect refraction lobe. */
module SpecularTransmissions {
  import opened Common
  import opened Flags
  import opened Kernels
  import opened BsdfHelpers

  datatype TransportMode = Radiance | Other

  datatype SpecularTransmission = SpecularTransmission(
    refraction: Vec3, fresnel: Fresnel, etaA: real, etaB: real, mode: TransportMode)

  /** Stores the indices and builds the dielectric Fresnel term from the same
      pair. */
  function New(refraction: Vec3, etaA: real, etaB: real, mode: TransportMode): (s: SpecularTransmission)
    ensures s.fresnel == Dielectric(s.etaA, s.etaB)
    ensures s.refraction == refraction && s.etaA == etaA && s.etaB == etaB && s.mode == mode
  {
    SpecularTransmission(refraction, Dielectric(etaA, etaB), etaA, etaB, mode)
  }

  function TypeFlags(): BxdfTypes { Refraction | Specular }

  function F(s: SpecularTransmission, wo: Vec3, wi: Vec3): Vec3 { Zero() }

  function Pdf(s: SpecularTransmission, wo: Vec3, wi: Vec3): real { 1.0 }

  /** `eta_i`: the stored `eta_a` when `wo` is outside (`cos θo > 0`), `eta_b`
      otherwise. */
  function EtaI(s: SpecularTransmission, wo: Vec3): real {
    if CosTheta(wo) > 0.0 then s.etaA else s.etaB
  }

  /** `eta_t`: the other index of the pair. */
  function EtaT(s: SpecularTransmission, wo: Vec3): (r: real)
    ensures s.etaA != 0.0 && s.etaB != 0.0 ==> r != 0.0
  {
    if CosTheta(wo) > 0.0 then s.etaB else s.etaA
  }

  /** `eta_i / eta_t`, the relative index handed to `refract`. */
  function EtaRatio(s: SpecularTransmission, wo: Vec3): real
    requires s.etaA != 0.0 && s.etaB != 0.0
  {
    Quotient(EtaI(s, wo), EtaT(s, wo))
  }

  /** `(eta_i * eta_i) / (eta_t * eta_t)`, which over the reals is the square
      of the relative index. */
  function EtaRatioSquared(s: SpecularTransmission, wo: Vec3): real
    requires s.etaA != 0.0 && s.etaB != 0.0
  {
    EtaRatio(s, wo) * EtaRatio(s, wo)
  }

  /** The direction `refract` proposes for `wo`, `None` on total internal
      reflection. */
  function Refracted(s: SpecularTransmission, k: Kernels, wo: Vec3): Option<Vec3>
    requires s.etaA != 0.0 && s.etaB != 0.0
  {
    k.refract(wo, k.faceForward(Vec3(0.0, 0.0, 1.0), wo), EtaRatio(s, wo))
  }

  /** The transmittance before the `1 / |cos θi|` factor: `T * (1 - F)`, scaled
      by `eta_i² / eta_t²` when radiance is transported. */
  function Transmittance(s: SpecularTransmission, k: Kernels, wo: Vec3, wi: Vec3): Vec3
    requires s.etaA != 0.0 && s.etaB != 0.0
  {
    var fresnel := s.fresnel.Evaluate(k, CosTheta(wi));
    var ft := Mul(s.refraction, Vec3(1.0 - fresnel, 1.0 - fresnel, 1.0 - fresnel));
    if s.mode == Radiance then Scale(ft, EtaRatioSquared(s, wo)) else ft
  }

  function SampleF(s: SpecularTransmission, k: Kernels, wo: Vec3): (r: BxdfSample)
    requires s.etaA != 0.0 && s.etaB != 0.0 && k.Valid()
    ensures Refracted(s, k, wo).None? ==> r == BxdfSample(Zero(), 0.0, Zero())
    ensures Refracted(s, k, wo).Some? ==> r.wi == Refracted(s, k, wo).value && r.pdf == 1.0
  {
    match Refracted(s, k, wo)
    case None => BxdfSample(Zero(), 0.0, Zero())
    case Some(wi) =>
      BxdfSample(wi, 1.0, Div(Transmittance(s, k, wo, wi), AbsCosTheta(wi)))
  }

  /** Outside the surface the indices are `(eta_a, eta_b)`, inside they are
      swapped. */
  lemma EtaSwap(s: SpecularTransmission, wo: Vec3)
    ensures CosTheta(wo) > 0.0 ==> EtaI(s, wo) == s.etaA && EtaT(s, wo) == s.etaB
    ensures CosTheta(wo) <= 0.0 ==> EtaI(s, wo) == s.etaB && EtaT(s, wo) == s.etaA
  {
  }

  /** The flags are exactly `REFRACTION | SPECULAR`: `TRANSMISSION` is not
      among them. */
  lemma TypeFlagsExactly()
    ensures Contains(TypeFlags(), Refraction) && Contains(TypeFlags(), Specular)
    ensures !Intersects(TypeFlags(), Reflection | Diffuse | Transmission | Glossy)
  {
  }

  /** Radiance transport scales the transmittance by `eta_i² / eta_t²`; the
      other mode leaves it unscaled. */
  lemma RadianceScaling(s: SpecularTransmission, k: Kernels, wo: Vec3, wi: Vec3)
    requires s.etaA != 0.0 && s.etaB != 0.0
    ensures Transmittance(s.(mode := Radiance), k, wo, wi)
        == Scale(Transmittance(s.(mode := Other), k, wo, wi), EtaRatioSquared(s, wo))
    ensures var fresnel := s.fresnel.Evaluate(k, CosTheta(wi));
      Transmittance(s.(mode := Other), k, wo, wi)
        == Mul(s.refraction, Vec3(1.0 - fresnel, 1.0 - fresnel, 1.0 - fresnel))
  {
    var radiance, other := s.(mode := Radiance), s.(mode := Other);

    var fresnel := s.fresnel.Evaluate(k, CosTheta(wi));
    var ft := Mul(s.refraction, Vec3(1.0 - fresnel, 1.0 - fresnel, 1.0 - fresnel));
    assert Transmittance(other, k, wo, wi) == ft;
  }
}
