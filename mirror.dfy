/** A perfect mirror, built on the slot-array BSDF. */
module Mirror {
  import opened Common
  import opened Kernels
  import opened Bxdfs
  import SR = SpecularReflections
  import opened Bsdfs
  import opened Interactions

  datatype MirrorMaterial = MirrorMaterial(reflectanceColor: Vec3)

  /** The single lobe: a specular reflection of the colour with no Fresnel
      attenuation. */
  function MirrorLobe(m: MirrorMaterial): Bxdf {
    SpecularReflection(SR.SpecularReflection(m.reflectanceColor, Noop))
  }

  /** Replaces any previous scattering function by a fresh BSDF on the
      interaction's frame holding only the mirror lobe. */
  method ComputeScatteringFunctions(m: MirrorMaterial, si: SurfaceInteraction)
    modifies si
    ensures si.bsdf.Some? && fresh(si.bsdf.value) && fresh(si.bsdf.value.slots)
    ensures si.bsdf.value.Valid() && si.bsdf.value.lobes == [MirrorLobe(m)]
    ensures si.bsdf.value.ior == 1.0
    ensures si.bsdf.value.ShadingFrame() == Frame(si.geometryNormal, si.shadingNormal, si.ss, si.ts)
    ensures si.legacyBsdf == old(si.legacyBsdf)
  {
    var bsdf := new Bsdf(si.geometryNormal, si.shadingNormal, si.ss, si.ts, None);
    var added := bsdf.Add(SpecularReflection(SR.SpecularReflection(m.reflectanceColor, Noop)));
    si.bsdf := Some(bsdf);
  }

  /** The albedo is the reflectance colour, a mirror reflects all it
      receives. */
  function GetAlbedo(m: MirrorMaterial): (r: Vec3)
    ensures r == m.reflectanceColor
    ensures r == MirrorLobe(m).specularReflection.reflectance
  {
    m.reflectanceColor
  }
}
