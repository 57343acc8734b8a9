/** A clear dielectric: adds a refraction lobe to the BSDF already on the
    interaction, or to a fresh one. */
module Glass {
  import opened Common
  import opened Bxdfs
  import ST = SpecularTransmissions
  import opened Bsdfs
  import opened Interactions

  datatype GlassMaterial = GlassMaterial(refractionColor: Vec3)

  /** The lobe glass adds: transmission of the colour from index 1.0 into
      1.5, carrying radiance. */
  function GlassLobe(g: GlassMaterial): (b: Bxdf)
    ensures WellFormed(b)
  {
    SpecularTransmission(ST.New(g.refractionColor, 1.0, 1.5, ST.Radiance))
  }

  /** Extends the interaction's BSDF (a fresh one when there is none) by the
      glass lobe and stores it back; panics when the reused BSDF is full. */
  method ComputeScatteringFunctions(g: GlassMaterial, si: SurfaceInteraction) returns (r: Outcome<()>)
    requires si.bsdf.Some? ==> si.bsdf.value.Valid()
    modifies si, Footprint(si.bsdf)
    ensures r.Panics? <==> old(si.bsdf).Some? && |old(si.bsdf.value.lobes)| == MaxBxdfCount
    ensures r.Returns? ==> si.bsdf.Some? && si.bsdf.value.Valid()
    ensures r.Returns? && old(si.bsdf).Some? ==>
      && si.bsdf == old(si.bsdf)
      && si.bsdf.value.lobes == old(si.bsdf.value.lobes) + [GlassLobe(g)]
    ensures r.Returns? && old(si.bsdf).None? ==>
      && fresh(si.bsdf.value)
      && si.bsdf.value.lobes == [GlassLobe(g)]
      && si.bsdf.value.ior == 1.0
      && si.bsdf.value.ShadingFrame() == Frame(si.geometryNormal, si.shadingNormal, si.ss, si.ts)
    ensures si.legacyBsdf == old(si.legacyBsdf)
  {
    var bsdf: Bsdf;
    if si.bsdf.Some? {
      bsdf := si.bsdf.value;
    } else {
      bsdf := new Bsdf(si.geometryNormal, si.shadingNormal, si.ss, si.ts, None);
    }
    var added := bsdf.Add(SpecularTransmission(ST.New(g.refractionColor, 1.0, 1.5, ST.Radiance)));
    if added.Panics? {
      return Panics;
    }
    si.bsdf := Some(bsdf);
    return Returns(());
  }

  /** Glass reports no albedo, whatever its colour. */
  function GetAlbedo(g: GlassMaterial): (r: Vec3)
    ensures IsZero(r)
  {
    Zero()
  }
}
