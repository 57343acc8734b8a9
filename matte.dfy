/** A purely diffuse material, built on the vector-backed BSDF. */
module Matte {
  import opened Common
  import opened Bxdfs
  import L = Lambertians
  import opened LegacyBsdfs
  import opened Interactions

  /** `MatteMaterial::new` stores both fields as given. */
  datatype MatteMaterial = MatteMaterial(reflectanceColor: Vec3, roughness: real)

  /** The lobes a matte material attaches: one Lambertian lobe of its colour. */
  function MatteLobes(m: MatteMaterial): (r: seq<Bxdf>)
    ensures |r| == 1 && r[0].Lambertian? && r[0].lambertian.reflectance == m.reflectanceColor
  {
    [Lambertian(L.Lambertian(m.reflectanceColor))]
  }

  /** The roughness does not influence the lobes. */
  lemma RoughnessIgnored(m: MatteMaterial, roughness: real)
    ensures MatteLobes(m.(roughness := roughness)) == MatteLobes(m)
  {
  }

  /** Replaces any previous scattering function by a fresh one holding the
      matte lobes. */
  method ComputeScatteringFunctions(m: MatteMaterial, si: SurfaceInteraction)
    modifies si
    ensures si.legacyBsdf.Some? && fresh(si.legacyBsdf.value)
    ensures si.legacyBsdf.value.bxdfs == MatteLobes(m)
    ensures si.legacyBsdf.value.ior == 1.0
    ensures si.legacyBsdf.value.geometryNormal == si.surfaceNormal
    ensures si.legacyBsdf.value.shadingNormal == si.surfaceNormal
    ensures si.bsdf == old(si.bsdf)
  {
    var bsdf := new LegacyBsdf(si.surfaceNormal, None);
    var lambertian := L.Lambertian(m.reflectanceColor);
    var _ := bsdf.Add(Lambertian(lambertian));
    si.legacyBsdf := Some(bsdf);
  }
}
