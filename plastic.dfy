/** A diffuse base under a dielectric specular coat, built on the
    vector-backed BSDF. */
module Plastic {
  import opened Common
  import opened Kernels
  import opened Bxdfs
  import L = Lambertians
  import SR = SpecularReflections
  import opened LegacyBsdfs
  import opened Interactions

  datatype PlasticMaterial = PlasticMaterial(diffuse: Vec3, specular: Vec3, roughness: real)

  /** The coat: a specular reflection with a dielectric Fresnel term from
      index 1.0 to 1.5. */
  function Coat(p: PlasticMaterial): Bxdf {
    SpecularReflection(SR.SpecularReflection(p.specular, Dielectric(1.0, 1.5)))
  }

  /** The Lambertian lobe when the diffuse colour is non-zero, then the coat
      when the specular colour is non-zero. */
  function PlasticLobes(p: PlasticMaterial): seq<Bxdf> {
    (if !IsZero(p.diffuse) then [Lambertian(L.Lambertian(p.diffuse))] else [])
      + (if !IsZero(p.specular) then [Coat(p)] else [])
  }

  /** One lobe per non-zero colour, diffuse before specular, none when both
      colours are zero; the roughness plays no part. */
  lemma PlasticLobesShape(p: PlasticMaterial, roughness: real)
    ensures |PlasticLobes(p)| == (if IsZero(p.diffuse) then 0 else 1) + (if IsZero(p.specular) then 0 else 1)
    ensures (exists i :: 0 <= i < |PlasticLobes(p)| && PlasticLobes(p)[i].Lambertian?) <==> !IsZero(p.diffuse)
    ensures (exists i :: 0 <= i < |PlasticLobes(p)| && PlasticLobes(p)[i].SpecularReflection?) <==> !IsZero(p.specular)
    ensures !IsZero(p.diffuse) ==> PlasticLobes(p)[0] == Lambertian(L.Lambertian(p.diffuse))
    ensures !IsZero(p.specular) ==> PlasticLobes(p)[|PlasticLobes(p)| - 1] == Coat(p)
    ensures PlasticLobes(p.(roughness := roughness)) == PlasticLobes(p)
  {
    var lobes := PlasticLobes(p);
    if !IsZero(p.diffuse) {
      assert lobes[0].Lambertian?;
    }
    if !IsZero(p.specular) {
      assert lobes[|lobes| - 1].SpecularReflection?;
    }
  }

  /** Replaces any previous scattering function by a fresh one holding the
      plastic lobes. */
  method ComputeScatteringFunctions(p: PlasticMaterial, si: SurfaceInteraction)
    modifies si
    ensures si.legacyBsdf.Some? && fresh(si.legacyBsdf.value)
    ensures si.legacyBsdf.value.bxdfs == PlasticLobes(p)
    ensures si.legacyBsdf.value.ior == 1.0
    ensures si.legacyBsdf.value.geometryNormal == si.surfaceNormal
    ensures si.legacyBsdf.value.shadingNormal == si.surfaceNormal
    ensures si.bsdf == old(si.bsdf)
  {
    var bsdf := new LegacyBsdf(si.surfaceNormal, None);
    if !IsZero(p.diffuse) {
      var _ := bsdf.Add(Lambertian(L.Lambertian(p.diffuse)));
    }
    if !IsZero(p.specular) {
      var fresnel := Dielectric(1.0, 1.5);
      var _ := bsdf.Add(SpecularReflection(SR.SpecularReflection(p.specular, fresnel)));
    }
    si.legacyBsdf := Some(bsdf);
  }
}
