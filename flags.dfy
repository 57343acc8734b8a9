/** The `BXDFTYPES` bit-set that classifies scattering lobes, in its current
    form (src/bsdf.rs) and in the form of the older vector-backed BSDF
    (src/bsdf/mod.rs). */
module Flags {

  type BxdfTypes = bv32

  const Reflection: BxdfTypes := 0x01
  const Refraction: BxdfTypes := 0x02
  const Diffuse: BxdfTypes := 0x04
  const Specular: BxdfTypes := 0x08
  const Transmission: BxdfTypes := 0x10
  const Glossy: BxdfTypes := 0x20
  /** Every flag except `Transmission`. */
  const All: BxdfTypes := Reflection | Refraction | Diffuse | Specular | Glossy
  const NoFlags: BxdfTypes := 0

  /** `ALL` of the older BSDF module, which knows only three flags. */
  const LegacyAll: BxdfTypes := Reflection | Refraction | Diffuse

  /** `a.intersects(b)`: some flag is in both sets. */
  predicate Intersects(a: BxdfTypes, b: BxdfTypes) { a & b != 0 }

  /** `a.contains(b)`: every flag of `b` is in `a`. */
  predicate Contains(a: BxdfTypes, b: BxdfTypes) { a & b == b }

  predicate SingleBit(f: BxdfTypes) { f != 0 && f & (f - 1) == 0 }

  /** The six named flags are distinct single bits, `NONE` is empty, and `ALL`
      holds exactly the five flags other than `TRANSMISSION`. */
  lemma FlagConstants()
    ensures SingleBit(Reflection) && SingleBit(Refraction) && SingleBit(Diffuse)
    ensures SingleBit(Specular) && SingleBit(Transmission) && SingleBit(Glossy)
    ensures var named := [Reflection, Refraction, Diffuse, Specular, Transmission, Glossy];
      forall i, j :: 0 <= i < j < |named| ==> named[i] & named[j] == 0
    ensures NoFlags == 0
    ensures Contains(All, Reflection) && Contains(All, Refraction) && Contains(All, Diffuse)
    ensures Contains(All, Specular) && Contains(All, Glossy)
    ensures !Intersects(All, Transmission)
    ensures All == 0x2F
  {
  }

  /** The older module's `ALL` is exactly `REFLECTION | REFRACTION | DIFFUSE`:
      it lacks `SPECULAR` and `GLOSSY` as well as `TRANSMISSION`. */
  lemma LegacyAllConstant()
    ensures LegacyAll == 0x07
    ensures !Intersects(LegacyAll, Specular | Glossy | Transmission)
  {
  }

  /** `intersects` is symmetric, nothing intersects `NONE`, and a non-empty
      contained set intersects. */
  lemma FlagAlgebra(a: BxdfTypes, b: BxdfTypes)
    ensures Intersects(a, b) <==> Intersects(b, a)
    ensures !Intersects(a, NoFlags)
    ensures Contains(a, b) && b != NoFlags ==> Intersects(a, b)
    ensures Contains(a, NoFlags)
  {
  }
}
