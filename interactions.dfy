/** The surface interaction a material fills in: the hit point and its
    geometry, and the scattering function the material attaches to it. */
module Interactions {
  import opened Common
  import opened Bsdfs
  import opened LegacyBsdfs

  class SurfaceInteraction {
    const point: Vec3
    const surfaceNormal: Vec3
    const wo: Vec3
    const uv: Point2
    /** The geometric normal and shading frame the slot-array `Bsdf` copies. */
    const geometryNormal: Vec3
    const shadingNormal: Vec3
    const ss: Vec3
    const ts: Vec3
    /** The scattering function of the slot-array revision. */
    var bsdf: Option<Bsdf>
    /** The scattering function of the vector-backed revision. */
    var legacyBsdf: Option<LegacyBsdf>

    /** Stores the given geometry; no scattering function is attached yet. */
    constructor (point: Vec3, surfaceNormal: Vec3, wo: Vec3, uv: Point2,
                 geometryNormal: Vec3, shadingNormal: Vec3, ss: Vec3, ts: Vec3)
      ensures this.point == point && this.surfaceNormal == surfaceNormal
      ensures this.wo == wo && this.uv == uv
      ensures this.geometryNormal == geometryNormal && this.shadingNormal == shadingNormal
      ensures this.ss == ss && this.ts == ts
      ensures bsdf.None? && legacyBsdf.None?
    {
      this.point := point;
      this.surfaceNormal := surfaceNormal;
      this.wo := wo;
      this.uv := uv;
      this.geometryNormal := geometryNormal;
      this.shadingNormal := shadingNormal;
      this.ss := ss;
      this.ts := ts;
      bsdf := None;
      legacyBsdf := None;
    }
  }

  /** The objects a slot-array BSDF occupies, for `modifies` clauses. */
  function Footprint(b: Option<Bsdf>): set<object> {
    if b.Some? then {b.value, b.value.slots} else {}
  }
}
