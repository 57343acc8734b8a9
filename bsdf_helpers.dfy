/** The shading-space trigonometry helpers. Directions are in the local
    shading frame, where the normal is the z axis, so `cos θ` is the z
    component. `sqrt` is passed in. */
module BsdfHelpers {
  import opened Common

  /** `cos θ`: its square is `cos² θ`, and for a unit direction it lies in
      `[-1, 1]`. */
  function CosTheta(w: Vec3): (r: real)
    ensures r * r == Cos2Theta(w)
    ensures Dot(w, w) == 1.0 ==> -1.0 <= r <= 1.0
  {
    w.z
  }

  function Cos2Theta(w: Vec3): (r: real)
    ensures r >= 0.0
  {
    w.z * w.z
  }

  function AbsCosTheta(w: Vec3): (r: real)
    ensures r >= 0.0
    ensures r == CosTheta(w) || r == -CosTheta(w)
    ensures r * r == Cos2Theta(w)
  {
    Abs(w.z)
  }

  /** `1 - max(cos²θ, 0)`; the `max` never applies. */
  function Sin2Theta(w: Vec3): (r: real)
    ensures r == 1.0 - CosTheta(w) * CosTheta(w)
    ensures r <= 1.0
  {
    1.0 - MaxReal(Cos2Theta(w), 0.0)
  }

  /** `sin θ` through the given root: never negative for a unit direction,
      and with an exact root `sin² θ + cos² θ = 1`. */
  function SinTheta(w: Vec3, sqrt: real -> real): (r: real)
    ensures NonNegativeRoot(sqrt) && Dot(w, w) == 1.0 ==> r >= 0.0
    ensures ExactRoot(sqrt) && Dot(w, w) == 1.0 ==> r * r + CosTheta(w) * CosTheta(w) == 1.0
  {
    sqrt(Sin2Theta(w))
  }

  /** `x / sin θ` clamped to `[-1, 1]`, and 1 when `sin θ` is 0. */
  function CosPhi(w: Vec3, sqrt: real -> real): (r: real)
    ensures -1.0 <= r <= 1.0
    ensures SinTheta(w, sqrt) == 0.0 ==> r == 1.0
    ensures SinTheta(w, sqrt) != 0.0 ==> r == Clamp(w.x / SinTheta(w, sqrt), -1.0, 1.0)
  {
    var sinTheta := SinTheta(w, sqrt);
    if sinTheta == 0.0 then 1.0 else Clamp(w.x / sinTheta, -1.0, 1.0)
  }

  /** `y / sin θ` clamped to `[-1, 1]`, and 1 (not 0) when `sin θ` is 0. */
  function SinPhi(w: Vec3, sqrt: real -> real): (r: real)
    ensures -1.0 <= r <= 1.0
    ensures SinTheta(w, sqrt) == 0.0 ==> r == 1.0
    ensures SinTheta(w, sqrt) != 0.0 ==> r == Clamp(w.y / SinTheta(w, sqrt), -1.0, 1.0)
  {
    var sinTheta := SinTheta(w, sqrt);
    if sinTheta == 0.0 then 1.0 else Clamp(w.y / sinTheta, -1.0, 1.0)
  }

  /** The square of a value in `[-1, 1]` lies in `[0, 1]`. */
  lemma UnitSquare(c: real)
    requires -1.0 <= c <= 1.0
    ensures 0.0 <= c * c <= 1.0
  {
    if c >= 0.0 {
      assert c * c <= c * 1.0;
    } else {
      assert c * c <= (-c) * 1.0;
    }
  }

  function Cos2Phi(w: Vec3, sqrt: real -> real): (r: real)
    ensures 0.0 <= r <= 1.0
  {
    UnitSquare(CosPhi(w, sqrt));
    CosPhi(w, sqrt) * CosPhi(w, sqrt)
  }

  function Sin2Phi(w: Vec3, sqrt: real -> real): (r: real)
    ensures 0.0 <= r <= 1.0
  {
    UnitSquare(SinPhi(w, sqrt));
    SinPhi(w, sqrt) * SinPhi(w, sqrt)
  }

  /** Whether two local directions lie on the same side of the surface;
      never for one in the tangent plane. */
  predicate SameHemisphere(a: Vec3, b: Vec3)
    ensures SameHemisphere(a, b) ==> a.z != 0.0 && b.z != 0.0
  {
    a.z * b.z > 0.0
  }

  /** Two directions are in the same hemisphere exactly when their z
      components are both positive or both negative; so the relation is
      symmetric and never holds for a direction in the tangent plane. */
  lemma SameHemisphereSigns(a: Vec3, b: Vec3)
    ensures SameHemisphere(a, b) <==> (a.z > 0.0 && b.z > 0.0) || (a.z < 0.0 && b.z < 0.0)
    ensures SameHemisphere(a, b) <==> SameHemisphere(b, a)
    ensures a.z == 0.0 || b.z == 0.0 ==> !SameHemisphere(a, b)
  {
    if a.z > 0.0 && b.z < 0.0 {
      assert a.z * b.z < 0.0 * b.z;
    } else if a.z < 0.0 && b.z > 0.0 {
      assert a.z * b.z < 0.0 * b.z;
    }
  }

  /** A cosine-weighted direction lifted from the disk point `d` (the random
      disk sample is the parameter): z is the root of `max(0, 1 - x² - y²)`,
      so it is never negative. */
  function CosineWeightedInHemisphere(d: Point2, sqrt: real -> real): (r: Vec3)
    requires NonNegativeRoot(sqrt)
    ensures r.z >= 0.0
    ensures r.x == d.x && r.y == d.y
  {
    Vec3(d.x, d.y, sqrt(MaxReal(0.0, 1.0 - d.x * d.x - d.y * d.y)))
  }
}
