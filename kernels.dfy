/** The floating-point kernels the discrete skeleton calls but that this model
    does not compute: square root, the dielectric Fresnel equation, Snell
    refraction, `face_forward`, the shadow-terminator factor `shift_cos_in`,
    and the rough lobes (Oren-Nayar, microfacet reflection). They are values
    of this record, so every property proved holds for any such kernels that
    meet `Valid`. */
module Kernels {
  import opened Common

  /** The stored parameters of an Oren-Nayar lobe. */
  datatype OrenNayarParams = OrenNayarParams(reflectance: Vec3, a: real, b: real)

  /** The stored parameters of a microfacet reflection lobe: its colour, the
      Trowbridge-Reitz roughness and the dielectric Fresnel indices. */
  datatype MicrofacetParams = MicrofacetParams(reflectance: Vec3, alphaX: real, alphaY: real,
                                               etaI: real, etaT: real)

  datatype Kernels = Kernels(
    sqrt: real -> real,
    /** `fresnel_dielectric(cos_i, eta_i, eta_t)`. */
    fresnelDielectric: (real, real, real) -> real,
    /** `refract(wo, n, eta)`: `None` on total internal reflection. */
    refract: (Vec3, Vec3, real) -> Option<Vec3>,
    faceForward: (Vec3, Vec3) -> Vec3,
    /** `shift_cos_in(cos_in, frequency_multiplier)`. */
    shiftCosIn: (real, real) -> real,
    orenNayarF: (OrenNayarParams, Vec3, Vec3) -> Vec3,
    orenNayarPdf: (OrenNayarParams, Vec3, Vec3) -> real,
    orenNayarSample: (OrenNayarParams, Point2, Vec3) -> BxdfSample,
    microfacetF: (MicrofacetParams, Vec3, Vec3) -> Vec3,
    microfacetPdf: (MicrofacetParams, Vec3, Vec3) -> real,
    microfacetSample: (MicrofacetParams, Point2, Vec3) -> BxdfSample
  ) {
    /** What the model relies on: `sqrt` is non-negative, and a refracted
        direction is never in the tangent plane (the transmission lobe divides
        by its `|cos θ|`). */
    ghost predicate Valid() {
      && NonNegativeRoot(sqrt)
      && (forall wo, n, eta :: refract(wo, n, eta).Some? ==> refract(wo, n, eta).value.z != 0.0)
    }
  }

  /** The Fresnel term of a specular lobe: `Noop` reflects everything. */
  datatype Fresnel = Noop | Dielectric(etaI: real, etaT: real)
  {
    function Evaluate(k: Kernels, cosI: real): (r: real)
      ensures this == Noop ==> r == 1.0
    {
      match this
      case Noop => 1.0
      case Dielectric(etaI, etaT) => k.fresnelDielectric(cosI, etaI, etaT)
    }
  }
}
