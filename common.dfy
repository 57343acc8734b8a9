/** Values shared by every part of the renderer model.

    Floating-point quantities (`f64` in the renderer) are modelled as `real`:
    there is no rounding, no NaN and no infinity in this model. */
module Common {

  datatype Option<T> = None | Some(value: T) {
    function GetOr(default: T): T {
      match this
      case Some(v) => v
      case None => default
    }
  }

  /** The result of an operation that may abort the thread: `Panics` stands for
      an `unwrap()` of `None` or another Rust panic, `Returns` for a normal return. */
  datatype Outcome<T> = Panics | Returns(value: T)

  /** A 3-component vector or point (nalgebra's `Vector3<f64>` / `Point3<f64>`). */
  datatype Vec3 = Vec3(x: real, y: real, z: real)

  /** A 2-component point (nalgebra's `Point2<f64>`). */
  datatype Point2 = Point2(x: real, y: real)

  function Zero(): Vec3 { Vec3(0.0, 0.0, 0.0) }

  predicate IsZero(v: Vec3) { v.x == 0.0 && v.y == 0.0 && v.z == 0.0 }

  function Add(a: Vec3, b: Vec3): Vec3 { Vec3(a.x + b.x, a.y + b.y, a.z + b.z) }

  function Sub(a: Vec3, b: Vec3): Vec3 { Vec3(a.x - b.x, a.y - b.y, a.z - b.z) }

  function Scale(a: Vec3, s: real): Vec3 { Vec3(a.x * s, a.y * s, a.z * s) }

  function Dot(a: Vec3, b: Vec3): real { a.x * b.x + a.y * b.y + a.z * b.z }

  /** `a / b` for a non-zero `b`. */
  function Quotient(a: real, b: real): real
    requires b != 0.0
  {
    a / b
  }

  /** `v / s` for a vector and a non-zero scalar. */
  function Div(a: Vec3, s: real): Vec3
    requires s != 0.0
  {
    Vec3(a.x / s, a.y / s, a.z / s)
  }

  /** Componentwise product (nalgebra's `component_mul`). */
  function Mul(a: Vec3, b: Vec3): Vec3 { Vec3(a.x * b.x, a.y * b.y, a.z * b.z) }

  predicate NonNegative(v: Vec3) { v.x >= 0.0 && v.y >= 0.0 && v.z >= 0.0 }

  function Abs(v: real): real { if v < 0.0 then -v else v }

  function MinReal(a: real, b: real): real { if a <= b then a else b }

  function MaxReal(a: real, b: real): real { if a >= b then a else b }

  /** `f64::clamp(lo, hi)` for `lo <= hi`. */
  function Clamp(v: real, lo: real, hi: real): real
    requires lo <= hi
  {
    if v < lo then lo else if v > hi then hi else v
  }

  /** What the model needs of `f64::sqrt`: it is never negative on a
      non-negative argument. */
  ghost predicate NonNegativeRoot(sqrt: real -> real) {
    forall x :: 0.0 <= x ==> 0.0 <= sqrt(x)
  }

  /** An exact square root on the non-negative reals. */
  ghost predicate ExactRoot(sqrt: real -> real) {
    forall x :: 0.0 <= x ==> 0.0 <= sqrt(x) && sqrt(x) * sqrt(x) == x
  }

  function Min(a: int, b: int): int { if a <= b then a else b }

  /** The result of a BxDF's `sample_f`: the sampled incoming direction, its
      probability density and the value of the distribution function. */
  datatype BxdfSample = BxdfSample(wi: Vec3, pdf: real, f: Vec3)

  /** A ray: an origin point and a direction. */
  datatype Ray = Ray(point: Vec3, direction: Vec3)

  /** The camera; only its position matters to the model. */
  datatype Camera = Camera(position: Vec3, forward: Vec3, right: Vec3, up: Vec3, fov: real)
}
