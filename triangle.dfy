/** A mesh triangle: its vertices and normals read from the mesh's flat
    buffers, its bounding box, its node index in the bounding-volume
    hierarchy, and the accept/reject rules of its ray test. */
module Triangles {
  import opened Common

  /** The flat per-vertex buffers of a mesh: vertex `i` occupies entries
      `3i`, `3i + 1` and `3i + 2`. */
  datatype Mesh = Mesh(positions: seq<real>, normals: seq<real>)

  /** The three entries of vertex `i` in `buffer`. */
  function Entry(buffer: seq<real>, i: nat): (v: Vec3)
    requires 3 * i + 2 < |buffer|
    ensures [v.x, v.y, v.z] == buffer[3 * i..3 * i + 3]
  {
    Vec3(buffer[3 * i], buffer[3 * i + 1], buffer[3 * i + 2])
  }

  /** A buffer of whole vertices holds vertex `i` iff `i` is below its
      vertex count, and distinct vertices occupy disjoint entries. */
  lemma EntryLayout(buffer: seq<real>, i: nat, j: nat, k: nat, l: nat)
    requires |buffer| % 3 == 0
    requires k < 3 && l < 3
    ensures 3 * i + 2 < |buffer| <==> i < |buffer| / 3
    ensures i != j ==> 3 * i + k != 3 * j + l
  {
  }

  function GetVertices(mesh: Mesh, v0: nat, v1: nat, v2: nat): (Vec3, Vec3, Vec3)
    requires 3 * v0 + 2 < |mesh.positions| && 3 * v1 + 2 < |mesh.positions| && 3 * v2 + 2 < |mesh.positions|
  {
    (Entry(mesh.positions, v0), Entry(mesh.positions, v1), Entry(mesh.positions, v2))
  }

  function GetNormals(mesh: Mesh, v0: nat, v1: nat, v2: nat): (Vec3, Vec3, Vec3)
    requires 3 * v0 + 2 < |mesh.normals| && 3 * v1 + 2 < |mesh.normals| && 3 * v2 + 2 < |mesh.normals|
  {
    (Entry(mesh.normals, v0), Entry(mesh.normals, v1), Entry(mesh.normals, v2))
  }

  /** An axis-aligned box given by its lower and upper corners. */
  datatype Aabb = Aabb(min: Vec3, max: Vec3)

  predicate Inside(b: Aabb, p: Vec3) {
    && b.min.x <= p.x <= b.max.x
    && b.min.y <= p.y <= b.max.y
    && b.min.z <= p.z <= b.max.z
  }

  /** The box of three points: the componentwise minimum, and the
      componentwise maximum pushed out by 0.001. */
  function BoundingBox(p0: Vec3, p1: Vec3, p2: Vec3): (b: Aabb)
    ensures Inside(b, p0) && Inside(b, p1) && Inside(b, p2)
    ensures b.min.x < b.max.x && b.min.y < b.max.y && b.min.z < b.max.z
    ensures b.min.x in {p0.x, p1.x, p2.x} && b.min.y in {p0.y, p1.y, p2.y} && b.min.z in {p0.z, p1.z, p2.z}
    ensures b.max.x - 0.001 in {p0.x, p1.x, p2.x} && b.max.y - 0.001 in {p0.y, p1.y, p2.y}
    ensures b.max.z - 0.001 in {p0.z, p1.z, p2.z}
  {
    Aabb(Vec3(MinReal(p0.x, MinReal(p1.x, p2.x)), MinReal(p0.y, MinReal(p1.y, p2.y)), MinReal(p0.z, MinReal(p1.z, p2.z))),
         Vec3(MaxReal(p0.x, MaxReal(p1.x, p2.x)) + 0.001, MaxReal(p0.y, MaxReal(p1.y, p2.y)) + 0.001,
              MaxReal(p0.z, MaxReal(p1.z, p2.z)) + 0.001))
  }

  /** `f64::EPSILON`, 2^-52: the nearest distance a hit may have. */
  const F64Epsilon: real := 1.0 / 4503599627370496.0

  /** The farthest distance a hit may have (a stand-in for the ray's own
      limit). */
  const MaxDistance: real := 1000.0

  /** The accept/reject rules applied to the edge values `e0, e1, e2` and
      the scaled distance `tScaled` of the sheared triangle: a hit needs the
      edge values of one sign, a non-zero determinant, a scaled distance on
      the determinant's side within `MaxDistance` times it, and a distance of
      at least `F64Epsilon`. */
  function Accept(e0: real, e1: real, e2: real, tScaled: real): (r: Option<real>)
    ensures (e0 < 0.0 || e1 < 0.0 || e2 < 0.0) && (e0 > 0.0 || e1 > 0.0 || e2 > 0.0) ==> r.None?
    ensures e0 + e1 + e2 == 0.0 ==> r.None?
    ensures r.Some? ==> F64Epsilon <= r.value <= MaxDistance
    ensures r.Some? ==> r.value == tScaled / (e0 + e1 + e2)
    ensures !((e0 < 0.0 || e1 < 0.0 || e2 < 0.0) && (e0 > 0.0 || e1 > 0.0 || e2 > 0.0))
            && e0 + e1 + e2 != 0.0
            && F64Epsilon <= tScaled / (e0 + e1 + e2) <= MaxDistance
            ==> r == Some(tScaled / (e0 + e1 + e2))
  {
    var det := e0 + e1 + e2;
    QuotientSide(tScaled, det);
    if (e0 < 0.0 || e1 < 0.0 || e2 < 0.0) && (e0 > 0.0 || e1 > 0.0 || e2 > 0.0) then None
    else if det == 0.0 then None
    else if det < 0.0 && (tScaled >= 0.0 || tScaled < MaxDistance * det) then None
    else if det > 0.0 && (tScaled <= 0.0 || tScaled > MaxDistance * det) then None
    else
      var t := tScaled / det;
      DistanceBound(tScaled, det);
      if t < F64Epsilon then None else Some(t)
  }

  /** A scaled distance within `MaxDistance` times the determinant, on its
      side, gives a distance of at most `MaxDistance`. */
  lemma DistanceBound(tScaled: real, det: real)
    requires det != 0.0
    requires det < 0.0 ==> MaxDistance * det <= tScaled < 0.0
    requires det > 0.0 ==> 0.0 < tScaled <= MaxDistance * det
    ensures tScaled / det <= MaxDistance
  {
    if det > 0.0 {
      assert tScaled / det <= (MaxDistance * det) / det;
    } else {
      assert tScaled / det <= (MaxDistance * det) / det;
    }
  }

  /** A quotient in `(0, MaxDistance]` puts the scaled distance on the
      determinant's side, within `MaxDistance` times it: the range tests
      reject no such distance. */
  lemma QuotientSide(tScaled: real, det: real)
    ensures det < 0.0 && 0.0 < tScaled / det <= MaxDistance ==> MaxDistance * det <= tScaled < 0.0
    ensures det > 0.0 && 0.0 < tScaled / det <= MaxDistance ==> 0.0 < tScaled <= MaxDistance * det
  {
    if det != 0.0 {
      var q := tScaled / det;
      assert tScaled == q * det;
      if det > 0.0 && 0.0 < q <= MaxDistance {
        assert q * det <= MaxDistance * det;
      } else if det < 0.0 && 0.0 < q <= MaxDistance {
        assert q * det >= MaxDistance * det;
      }
    }
  }

  /** Multiplying by the inverse divides. */
  lemma TimesInverse(a: real, d: real)
    requires d != 0.0
    ensures a * (1.0 / d) == a / d
  {
  }

  /** Component `k` of `v`. */
  function Component(v: Vec3, k: nat): real
    requires k < 3
  {
    if k == 0 then v.x else if k == 1 then v.y else v.z
  }

  /** The components of `v` reordered as `(v[kx], v[ky], v[kz])`. */
  function Permute(v: Vec3, kx: nat, ky: nat, kz: nat): Vec3
    requires kx < 3 && ky < 3 && kz < 3
  {
    Vec3(Component(v, kx), Component(v, ky), Component(v, kz))
  }

  /** The axis after `k`, cyclically. */
  function NextAxis(k: nat): (r: nat)
    ensures r < 3
  {
    (k + 1) % 3
  }

  /** `v` sheared along the permuted direction `d` so that the ray runs
      along the last axis; the last component is not yet scaled. */
  function ShearXY(v: Vec3, d: Vec3): Vec3
    requires d.z != 0.0
  {
    var sx, sy := -d.x / d.z, -d.y / d.z;
    v.(x := v.x + sx * v.z, y := v.y + sy * v.z)
  }

  /** The two-dimensional edge function of `a` and `b`. */
  function Edge(a: Vec3, b: Vec3): real {
    a.x * b.y - a.y * b.x
  }

  /** The sum of the depths `z0, z1, z2`, each scaled by `sz`, weighted by
      the edge values. */
  function ScaledDistance(e0: real, e1: real, e2: real, z0: real, z1: real, z2: real, sz: real): real {
    e0 * (z0 * sz) + e1 * (z1 * sz) + e2 * (z2 * sz)
  }

  /** The edge values and the scaled distance of the triangle seen from the
      ray's origin, after the axes are permuted so that `kz` comes last and
      the triangle is sheared along the ray. */
  function EdgeValues(p0: Vec3, p1: Vec3, p2: Vec3, ray: Ray, kz: nat): (real, real, real, real)
    requires kz < 3 && Component(ray.direction, kz) != 0.0
  {
    var kx := NextAxis(kz);
    var ky := NextAxis(kx);
    var d := Permute(ray.direction, kx, ky, kz);
    var a := ShearXY(Permute(Sub(p0, ray.point), kx, ky, kz), d);
    var b := ShearXY(Permute(Sub(p1, ray.point), kx, ky, kz), d);
    var c := ShearXY(Permute(Sub(p2, ray.point), kx, ky, kz), d);
    var sz := 1.0 / d.z;
    var e0, e1, e2 := Edge(b, c), Edge(c, a), Edge(a, b);
    (e0, e1, e2, ScaledDistance(e0, e1, e2, a.z, b.z, c.z, sz))
  }

  /** The accepted hit distance of `ray` on the triangle `p0, p1, p2`. */
  function HitDistance(p0: Vec3, p1: Vec3, p2: Vec3, ray: Ray, kz: nat): (r: Option<real>)
    requires kz < 3 && Component(ray.direction, kz) != 0.0
    ensures r.Some? ==> F64Epsilon <= r.value <= MaxDistance
  {
    var ev := EdgeValues(p0, p1, p2, ray, kz);
    Accept(ev.0, ev.1, ev.2, ev.3)
  }

  class Triangle<Material, Light> {
    const mesh: Mesh
    const p0: Vec3
    const p1: Vec3
    const p2: Vec3
    const n0: Vec3
    const n1: Vec3
    const n2: Vec3
    const materials: seq<Material>
    const light: Option<Light>
    var nodeIndex: nat

    /** Looks the three vertices and their normals up in the mesh; the
        materials and the light are kept as given and the node index is 0. */
    constructor (mesh: Mesh, v0: nat, v1: nat, v2: nat, materials: seq<Material>, light: Option<Light>)
      requires 3 * v0 + 2 < |mesh.positions| && 3 * v1 + 2 < |mesh.positions| && 3 * v2 + 2 < |mesh.positions|
      requires 3 * v0 + 2 < |mesh.normals| && 3 * v1 + 2 < |mesh.normals| && 3 * v2 + 2 < |mesh.normals|
      ensures (p0, p1, p2) == GetVertices(mesh, v0, v1, v2)
      ensures (n0, n1, n2) == GetNormals(mesh, v0, v1, v2)
      ensures this.mesh == mesh && this.materials == materials && this.light == light
      ensures nodeIndex == 0
    {
      var (q0, q1, q2) := GetVertices(mesh, v0, v1, v2);
      var (m0, m1, m2) := GetNormals(mesh, v0, v1, v2);
      this.mesh := mesh;
      p0, p1, p2 := q0, q1, q2;
      n0, n1, n2 := m0, m1, m2;
      this.materials := materials;
      this.light := light;
      nodeIndex := 0;
    }

    /** The triangle's bounding box; every vertex lies inside it. */
    function Bounds(): (b: Aabb)
      ensures Inside(b, p0) && Inside(b, p1) && Inside(b, p2)
      ensures b.min.x < b.max.x && b.min.y < b.max.y && b.min.z < b.max.z
    {
      BoundingBox(p0, p1, p2)
    }

    method SetBhNodeIndex(index: nat)
      modifies this
      ensures nodeIndex == index
    {
      nodeIndex := index;
    }

    function BhNodeIndex(): nat
      reads this
    {
      nodeIndex
    }

    /** The hit distance of `ray`, computed step by step as the source does
        (`kz` is the dimension in which the direction is largest). */
    method TestIntersect(ray: Ray, kz: nat) returns (r: Option<real>)
      requires kz < 3 && Component(ray.direction, kz) != 0.0
      ensures r == HitDistance(p0, p1, p2, ray, kz)
      ensures r.Some? ==> F64Epsilon <= r.value <= MaxDistance
    {
      var p0t := Sub(p0, ray.point);
      var p1t := Sub(p1, ray.point);
      var p2t := Sub(p2, ray.point);
      var kx := NextAxis(kz);
      var ky := NextAxis(kx);
      var d := Permute(ray.direction, kx, ky, kz);
      p0t := Permute(p0t, kx, ky, kz);
      p1t := Permute(p1t, kx, ky, kz);
      p2t := Permute(p2t, kx, ky, kz);
      var sZ := 1.0 / d.z;
      p0t := ShearXY(p0t, d);
      p1t := ShearXY(p1t, d);
      p2t := ShearXY(p2t, d);
      var e0 := Edge(p1t, p2t);
      var e1 := Edge(p2t, p0t);
      var e2 := Edge(p0t, p1t);
      ghost var ev := EdgeValues(p0, p1, p2, ray, kz);
      assert ev.0 == e0 && ev.1 == e1 && ev.2 == e2;
      assert ev.3 == ScaledDistance(e0, e1, e2, p0t.z, p1t.z, p2t.z, sZ);
      r := AcceptEdges(e0, e1, e2, p0t.z, p1t.z, p2t.z, sZ);
    }
  }

  /** The second half of the ray test: the edge-sign and determinant checks,
      then the depths scaled by `sZ`, the distance checks and the division. */
  method AcceptEdges(e0: real, e1: real, e2: real, z0: real, z1: real, z2: real, sZ: real) returns (r: Option<real>)
    ensures r == Accept(e0, e1, e2, ScaledDistance(e0, e1, e2, z0, z1, z2, sZ))
    ensures r.Some? ==> F64Epsilon <= r.value <= MaxDistance
  {
    if (e0 < 0.0 || e1 < 0.0 || e2 < 0.0) && (e0 > 0.0 || e1 > 0.0 || e2 > 0.0) {
      return None;
    }
    var det := e0 + e1 + e2;
    if det == 0.0 {
      return None;
    }
    var tScaled := ScaledDistance(e0, e1, e2, z0, z1, z2, sZ);
    if det < 0.0 && (tScaled >= 0.0 || tScaled < MaxDistance * det) {
      return None;
    }
    if det > 0.0 && (tScaled <= 0.0 || tScaled > MaxDistance * det) {
      return None;
    }
    var invDet := 1.0 / det;
    var t := tScaled * invDet;
    TimesInverse(tScaled, det);
    assert t == tScaled / det;
    assert Accept(e0, e1, e2, tScaled) == if t < F64Epsilon then None else Some(t);
    if t < F64Epsilon {
      return None;
    }
    return Some(t);
  }

  /** Setting the node index and reading it back gives the value set. */
  method NodeIndexRoundTrip<Material, Light>(tri: Triangle<Material, Light>, index: nat) returns (read: nat)
    modifies tri
    ensures read == index
  {
    tri.SetBhNodeIndex(index);
    read := tri.BhNodeIndex();
  }

  /** The unit square's lower-right triangle in the plane z = 0, hit head-on
      from two units below: the hit is at distance 2. */
  lemma FacingTriangleHitAtTwo()
    ensures HitDistance(Vec3(-1.0, -1.0, 0.0), Vec3(1.0, -1.0, 0.0), Vec3(1.0, 1.0, 0.0),
                        Ray(Vec3(0.0, 0.0, -2.0), Vec3(0.0, 0.0, 1.0)), 2) == Some(2.0)
  {
    // with z last the permutation is the identity and the shear vanishes
    assert NextAxis(2) == 0;
    assert NextAxis(0) == 1;
    var o := Vec3(0.0, 0.0, -2.0);
    var d := Vec3(0.0, 0.0, 1.0);
    assert Permute(d, 0, 1, 2) == d;
    var a, b, c := Vec3(-1.0, -1.0, 2.0), Vec3(1.0, -1.0, 2.0), Vec3(1.0, 1.0, 2.0);
    assert Permute(Sub(Vec3(-1.0, -1.0, 0.0), o), 0, 1, 2) == a;
    assert Permute(Sub(Vec3(1.0, -1.0, 0.0), o), 0, 1, 2) == b;
    assert Permute(Sub(Vec3(1.0, 1.0, 0.0), o), 0, 1, 2) == c;
    assert ShearXY(a, d) == a;
    assert ShearXY(b, d) == b;
    assert ShearXY(c, d) == c;
    // edge values 2, 0, 2: the ray passes through the edge from p2 to p0
    assert Edge(b, c) == 2.0;
    assert Edge(c, a) == 0.0;
    assert Edge(a, b) == 2.0;
    assert Accept(2.0, 0.0, 2.0, 8.0) == Some(2.0);
  }
}
