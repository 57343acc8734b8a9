/** The older, vector-backed BSDF that the matte and plastic materials build:
    an unbounded list of lobes with no slot limit, both normals taken from the
    surface normal. */
module LegacyBsdfs {
  import opened Common
  import opened Bxdfs

  class LegacyBsdf {
    var bxdfs: seq<Bxdf>
    const ior: real
    const geometryNormal: Vec3
    const shadingNormal: Vec3

    /** No lobes; `ior` defaults to 1.0; both normals are the surface normal. */
    constructor (surfaceNormal: Vec3, ior: Option<real>)
      ensures bxdfs == []
      ensures this.ior == ior.GetOr(1.0)
      ensures geometryNormal == surfaceNormal && shadingNormal == surfaceNormal
    {
      bxdfs := [];
      this.ior := ior.GetOr(1.0);
      geometryNormal := surfaceNormal;
      shadingNormal := surfaceNormal;
    }

    /** Appends `bxdf` at the end, with no capacity limit, and returns the
        BSDF itself. */
    method Add(bxdf: Bxdf) returns (r: LegacyBsdf)
      modifies this
      ensures r == this
      ensures bxdfs == old(bxdfs) + [bxdf]
      ensures |bxdfs| == |old(bxdfs)| + 1 && bxdfs[..|old(bxdfs)|] == old(bxdfs)
    {
      bxdfs := bxdfs + [bxdf];
      return this;
    }
  }
}
