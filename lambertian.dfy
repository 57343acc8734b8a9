/** The Lambertian (perfectly diffuse) lobe. It overrides only its flags and
    `f`; its `pdf` and `sample_f` are the cosine-hemisphere defaults. */
module Lambertians {
  import opened Common
  import opened Flags

  /** `std::f64::consts::FRAC_1_PI`. */
  const FracOnePi: real := 0.318309886183790671537767526745028724

  datatype Lambertian = Lambertian(reflectance: Vec3)

  function TypeFlags(): BxdfTypes { Reflection | Diffuse }

  function F(l: Lambertian, wo: Vec3, wi: Vec3): Vec3 {
    Scale(l.reflectance, FracOnePi)
  }

  /** The flags are exactly `REFLECTION | DIFFUSE`. */
  lemma TypeFlagsExactly()
    ensures Contains(TypeFlags(), Reflection) && Contains(TypeFlags(), Diffuse)
    ensures !Intersects(TypeFlags(), Refraction | Specular | Transmission | Glossy)
  {
  }

  /** `f` is `reflectance / π` for every pair of directions, so it is
      reciprocal and non-negative for a non-negative reflectance. */
  lemma FConstant(l: Lambertian, wo: Vec3, wi: Vec3, wo2: Vec3, wi2: Vec3)
    ensures F(l, wo, wi) == F(l, wo2, wi2)
    ensures F(l, wo, wi) == F(l, wi, wo)
    ensures F(l, wo, wi) == Scale(l.reflectance, FracOnePi)
    ensures NonNegative(l.reflectance) ==> NonNegative(F(l, wo, wi))
  {
  }
}
