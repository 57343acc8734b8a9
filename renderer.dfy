/** The renderer's discrete skeleton: the shared queue of tiles the render
    threads draw from, the clamping of a claimed tile and its ray count, the
    nearest-hit and occlusion scans over the candidates the bounding-volume
    hierarchy reports, the cut-offs of `trace`, and the per-pixel ray count
    of `get_rays_at`. */
module Renderer {
  import opened Common
  import opened Tiling

  /** The deepest recursion `trace` follows. */
  const MaxDepth: nat := 6

  /** The top-left corner of a tile still to be rendered. */
  datatype Work = Work(x: nat, y: nat)

  datatype Result<T> = Ok(value: T) | Err(error: string)

  /** The corners the queue starts with: one per tile of the grid, in the
      order the nested loops (column outer, row inner) push them. */
  function TileStarts(g: Grid): (ws: seq<Work>)
    requires g.Valid()
    ensures |ws| == g.Count()
    ensures forall i :: 0 <= i < |ws| ==> ws[i] == Work(Tiles(g)[i].x0, Tiles(g)[i].y0)
  {
    seq(g.Count(), i requires 0 <= i < g.Count() => Work(Tiles(g)[i].x0, Tiles(g)[i].y0))
  }

  /** `q` without its element at `i`, the rest in their original order. */
  function RemoveAt<T>(q: seq<T>, i: nat): (r: seq<T>)
    requires i < |q|
    ensures |r| == |q| - 1
    ensures forall j :: 0 <= j < i ==> r[j] == q[j]
    ensures forall j :: i <= j < |r| ==> r[j] == q[j + 1]
  {
    q[..i] + q[i + 1..]
  }

  lemma RemoveAtMultiset<T>(q: seq<T>, i: nat)
    requires i < |q|
    ensures multiset(RemoveAt(q, i)) + multiset{q[i]} == multiset(q)
  {
    assert q == q[..i] + [q[i]] + q[i + 1..];
  }

  /** The order in which repeated `get_work` calls with the random positions
      `picks` hand out the queue's elements. */
  function Drain<T>(q: seq<T>, picks: seq<nat>): seq<T>
    requires |picks| == |q|
    requires forall k :: 0 <= k < |picks| ==> picks[k] < |q| - k
  {
    if q == [] then []
    else [q[picks[0]]] + Drain(RemoveAt(q, picks[0]), picks[1..])
  }

  /** Emptying the queue hands out every tile exactly once, whatever the
      random positions. */
  lemma {:induction false} DrainIsPermutation<T>(q: seq<T>, picks: seq<nat>)
    requires |picks| == |q|
    requires forall k :: 0 <= k < |picks| ==> picks[k] < |q| - k
    ensures multiset(Drain(q, picks)) == multiset(q)
  {
    if q != [] {
      var rest := RemoveAt(q, picks[0]);
      assert forall k :: 0 <= k < |picks[1..]| ==> picks[1..][k] == picks[k + 1];
      DrainIsPermutation(rest, picks[1..]);
      RemoveAtMultiset(q, picks[0]);
    }
  }

  class WorkQueue {
    var queue: seq<Work>

    /** One element per tile of the grid, at the tile's top-left corner. */
    constructor (g: Grid)
      requires g.Valid()
      ensures queue == TileStarts(g)
    {
      var q: seq<Work> := [];
      var rows := g.Rows();
      var x := 0;
      while x < g.Columns()
        invariant 0 <= x <= g.Columns()
        invariant |q| == x * rows
        invariant forall i :: 0 <= i < |q| ==> rows > 0 && q[i] == Work(g.TileAt(i).x0, g.TileAt(i).y0)
      {
        var y := 0;
        while y < rows
          invariant 0 <= y <= rows
          invariant |q| == x * rows + y
          invariant forall i :: 0 <= i < |q| ==> rows > 0 && q[i] == Work(g.TileAt(i).x0, g.TileAt(i).y0)
        {
          IndexRoundTrip(x, y, rows);
          q := q + [Work(x * g.bucketWidth, y * g.bucketHeight)];
          y := y + 1;
        }
        x := x + 1;
      }
      queue := q;
    }

    /** Removes and returns the element at the random position `pick`;
        `None` when the queue is empty. */
    method GetWork(pick: nat) returns (w: Option<Work>)
      requires |queue| > 0 ==> pick < |queue|
      modifies this
      ensures w.None? <==> |old(queue)| == 0
      ensures w.None? ==> queue == old(queue)
      ensures w.Some? ==> w.value == old(queue)[pick] && queue == RemoveAt(old(queue), pick)
    {
      var len := |queue|;
      if len == 0 {
        return None;
      }
      w := Some(queue[pick]);
      queue := queue[..pick] + queue[pick + 1..];
    }
  }

  /** The end corner of a claimed tile: the start plus the bucket size, capped
      at the image size. */
  function TileEnd(w: Work, bucketWidth: nat, bucketHeight: nat, width: nat, height: nat): (r: (nat, nat))
    ensures r.0 <= width && r.0 <= w.x + bucketWidth && (r.0 == width || r.0 == w.x + bucketWidth)
    ensures r.1 <= height && r.1 <= w.y + bucketHeight && (r.1 == height || r.1 == w.y + bucketHeight)
  {
    (Min(w.x + bucketWidth, width) as nat, Min(w.y + bucketHeight, height) as nat)
  }

  /** The rays a thread counts for a claimed tile: one per pixel of the
      clamped tile per sample. */
  function RaysDone(w: Work, bucketWidth: nat, bucketHeight: nat, width: nat, height: nat, samples: nat): (r: nat)
    requires w.x <= width && w.y <= height
    ensures r <= bucketWidth * bucketHeight * samples
    ensures r == 0 <==> samples == 0 || TileEnd(w, bucketWidth, bucketHeight, width, height).0 == w.x
                                     || TileEnd(w, bucketWidth, bucketHeight, width, height).1 == w.y
  {
    var (xEnd, yEnd) := TileEnd(w, bucketWidth, bucketHeight, width, height);
    var columns: nat := xEnd - w.x;
    var rows: nat := yEnd - w.y;
    var pixels: nat := columns * rows;
    MulLeq(columns, bucketWidth, rows);
    MulLeq(rows, bucketHeight, bucketWidth);
    MulLeq(pixels, bucketWidth * bucketHeight, samples);
    ProductZero(columns, rows);
    ProductZero(pixels, samples);
    pixels * samples
  }

  lemma ProductZero(a: nat, b: nat)
    ensures a * b == 0 <==> a == 0 || b == 0
  {
    if a > 0 && b > 0 {
      MulLeq(1, a, b);
    }
  }

  /** A tile drawn from the queue ends where the grid's tile ends, and its
      ray count is its pixel count times the samples, at most a full bucket's. */
  lemma {:induction false} ClaimedTile(g: Grid, i: nat, samples: nat)
    requires g.Valid() && i < g.Count()
    ensures var w := TileStarts(g)[i];
            var r := Tiles(g)[i];
            && w.x < g.width && w.y < g.height
            && TileEnd(w, g.bucketWidth, g.bucketHeight, g.width, g.height) == (r.x1, r.y1)
            && RaysDone(w, g.bucketWidth, g.bucketHeight, g.width, g.height, samples)
               == (r.x1 - r.x0) * (r.y1 - r.y0) * samples
            && RaysDone(w, g.bucketWidth, g.bucketHeight, g.width, g.height, samples)
               <= g.bucketWidth * g.bucketHeight * samples
  {
    var w := TileStarts(g)[i];
    var r := Tiles(g)[i];
    TileAtBounds(g, i);
    var dx, dy := r.x1 - r.x0, r.y1 - r.y0;
    assert dx <= g.bucketWidth && dy <= g.bucketHeight;
    MulLeq(dx, g.bucketWidth, dy);
    MulLeq(dy, g.bucketHeight, g.bucketWidth);
    MulLeq(dx * dy, g.bucketWidth * g.bucketHeight, samples);
  }

  // -----------------------------------------------------------------------
  // Scene queries over the candidates the hierarchy reports

  /** The nearest hit among the first `n` candidates: the position of the
      first candidate whose distance is strictly smaller than every earlier
      hit's, as the loop keeps it. */
  function ClosestOf<O>(ray: Ray, candidates: seq<O>, testIntersect: (O, Ray) -> Option<real>, n: nat): (r: Option<nat>)
    requires n <= |candidates|
    ensures r.None? <==> forall j :: 0 <= j < n ==> testIntersect(candidates[j], ray).None?
    ensures r.Some? ==>
      && r.value < n
      && testIntersect(candidates[r.value], ray).Some?
      && (forall j :: 0 <= j < n && testIntersect(candidates[j], ray).Some? ==>
            testIntersect(candidates[r.value], ray).value <= testIntersect(candidates[j], ray).value)
      && (forall j :: 0 <= j < r.value && testIntersect(candidates[j], ray).Some? ==>
            testIntersect(candidates[r.value], ray).value < testIntersect(candidates[j], ray).value)
  {
    if n == 0 then None
    else
      var prev := ClosestOf(ray, candidates, testIntersect, n - 1);
      var hit := testIntersect(candidates[n - 1], ray);
      if hit.Some? && (prev.None? || hit.value < testIntersect(candidates[prev.value], ray).value)
      then Some(n - 1) else prev
  }

  /** The hit distance and candidate of the nearest candidate, `None` when no
      candidate is hit. */
  method CheckIntersectScene<O>(ray: Ray, candidates: seq<O>, testIntersect: (O, Ray) -> Option<real>)
    returns (closest: Option<(real, O)>)
    ensures var c := ClosestOf(ray, candidates, testIntersect, |candidates|);
            && (c.None? ==> closest.None?)
            && (c.Some? ==> closest == Some((testIntersect(candidates[c.value], ray).value, candidates[c.value])))
  {
    closest := None;
    ghost var index: Option<nat> := None;
    var i := 0;
    while i < |candidates|
      invariant 0 <= i <= |candidates|
      invariant index == ClosestOf(ray, candidates, testIntersect, i)
      invariant index.None? ==> closest.None?
      invariant index.Some? ==>
        closest == Some((testIntersect(candidates[index.value], ray).value, candidates[index.value]))
    {
      var candidate := candidates[i];
      var hit := testIntersect(candidate, ray);
      if hit.Some? {
        var dist := hit.value;
        match closest {
          case None =>
            closest := Some((dist, candidate));
            index := Some(i);
          case Some((closestDist, _)) =>
            if dist < closestDist {
              closest := Some((dist, candidate));
              index := Some(i);
            }
        }
      }
      i := i + 1;
    }
  }

  /** Whether some candidate is hit closer than `maxDist`. */
  predicate OccludedWithin<O>(ray: Ray, candidates: seq<O>, testIntersect: (O, Ray) -> Option<real>, maxDist: real) {
    exists i :: 0 <= i < |candidates| && testIntersect(candidates[i], ray).Some?
                && testIntersect(candidates[i], ray).value < maxDist
  }

  /** Scans the candidates in order and answers true at the first hit closer
      than `maxDist`. */
  method CheckIntersectSceneSimple<O>(ray: Ray, candidates: seq<O>, testIntersect: (O, Ray) -> Option<real>,
                                      maxDist: real)
    returns (r: bool)
    ensures r <==> OccludedWithin(ray, candidates, testIntersect, maxDist)
  {
    var i := 0;
    while i < |candidates|
      invariant 0 <= i <= |candidates|
      invariant forall j :: 0 <= j < i && testIntersect(candidates[j], ray).Some? ==>
        testIntersect(candidates[j], ray).value >= maxDist
    {
      var hit := testIntersect(candidates[i], ray);
      if hit.Some? && hit.value < maxDist {
        return true;
      }
      i := i + 1;
    }
    return false;
  }

  /** The Euclidean distance from `a` to `b`, through the square-root kernel:
      with an exact root it is the non-negative length of `b - a`. */
  function LightDistance(sqrt: real -> real, a: Vec3, b: Vec3): (r: real)
    ensures ExactRoot(sqrt) ==> r >= 0.0 && r * r == Dot(Sub(b, a), Sub(b, a))
  {
    var d := Sub(b, a);
    assert Dot(d, d) >= 0.0 by { SquaresNonNegative(d); }
    sqrt(Dot(d, d))
  }

  lemma SquaresNonNegative(d: Vec3)
    ensures Dot(d, d) >= 0.0
  {
    assert d.x * d.x >= 0.0 && d.y * d.y >= 0.0 && d.z * d.z >= 0.0;
  }

  /** A light is visible from `position` iff nothing is hit on the way to it:
      the ray from `position` along the normalised direction to the light is
      tested with the distance to the light as the limit. `normalize` and
      `sqrt` are the vector-library kernels. */
  method CheckLightVisible<O>(position: Vec3, lightPosition: Vec3, candidates: seq<O>,
                              testIntersect: (O, Ray) -> Option<real>,
                              normalize: Vec3 -> Vec3, sqrt: real -> real)
    returns (visible: bool)
    ensures visible <==> !OccludedWithin(Ray(position, normalize(Sub(lightPosition, position))), candidates,
                                         testIntersect, LightDistance(sqrt, position, lightPosition))
  {
    var ray := Ray(position, normalize(Sub(lightPosition, position)));
    var distance := sqrt(Dot(Sub(lightPosition, position), Sub(lightPosition, position)));
    var occluded := CheckIntersectSceneSimple(ray, candidates, testIntersect, distance);
    if occluded {
      return false;
    }
    return true;
  }

  /** Occlusion only grows with the limit: whatever hides a light hides every
      light farther along the same ray, and a visible light stays visible
      when it is moved closer. */
  lemma OcclusionMonotone<O>(ray: Ray, candidates: seq<O>, testIntersect: (O, Ray) -> Option<real>,
                             near: real, far: real)
    requires near <= far
    ensures OccludedWithin(ray, candidates, testIntersect, near) ==>
            OccludedWithin(ray, candidates, testIntersect, far)
  {
    if OccludedWithin(ray, candidates, testIntersect, near) {
      var i :| 0 <= i < |candidates| && testIntersect(candidates[i], ray).Some?
                && testIntersect(candidates[i], ray).value < near;
      assert testIntersect(candidates[i], ray).value < far;
    }
  }

  /** The cut-offs of `trace`: no colour below a contribution of 0.01 or past
      depth `MaxDepth`, checked before any intersection; the background
      colour on a miss; otherwise what the hit candidate's materials give for
      the hit distance (`shade`, the materials' own recursion). */
  method Trace<O>(ray: Ray, candidates: seq<O>, testIntersect: (O, Ray) -> Option<real>, bgColor: Vec3,
                  depth: nat, contribution: real, shade: (O, real) -> Vec3)
    returns (r: Option<Vec3>)
    ensures contribution < 0.01 || depth > MaxDepth ==> r.None?
    ensures r.None? ==> contribution < 0.01 || depth > MaxDepth
    ensures var c := ClosestOf(ray, candidates, testIntersect, |candidates|);
            && (r.Some? && c.None? ==> r == Some(bgColor))
            && (r.Some? && c.Some? ==>
                  r == Some(shade(candidates[c.value], testIntersect(candidates[c.value], ray).value)))
  {
    if contribution < 0.01 {
      return None;
    }
    if depth > MaxDepth {
      return None;
    }
    var intersect := CheckIntersectScene(ray, candidates, testIntersect);
    match intersect {
      case None =>
        return Some(bgColor);
      case Some((dist, candidate)) =>
        return Some(shade(candidate, dist));
    }
  }

  /** The camera rays of pixel `(posX, posY)`: an error for a row past the
      image; a panic for an image with no columns, where the pixel width's
      divisor `width - 1` underflows; else `samples` rays from the camera
      position. `direction(i)` is the jittered direction of the `i`-th ray,
      left to the caller. */
  method GetRaysAt(camera: Camera, width: nat, height: nat, posX: nat, posY: nat, samples: nat,
                   direction: nat -> Vec3)
    returns (r: Outcome<Result<seq<Ray>>>)
    ensures r.Panics? <==> posY < height && width == 0
    ensures r.Returns? ==> (r.value.Err? <==> posY >= height)
    ensures r.Returns? && r.value.Ok? ==> |r.value.value| == samples
    ensures r.Returns? && r.value.Ok? ==>
      forall i :: 0 <= i < |r.value.value| ==> r.value.value[i] == Ray(camera.position, direction(i))
  {
    if posY >= height {
      return Returns(Err("Position exceeds number of pixels."));
    }
    if width == 0 {
      return Panics;
    }
    var rays: seq<Ray> := [];
    var w := 0;
    while w < samples
      invariant 0 <= w <= samples
      invariant |rays| == w
      invariant forall i :: 0 <= i < w ==> rays[i] == Ray(camera.position, direction(i))
    {
      rays := rays + [Ray(camera.position, direction(w))];
      w := w + 1;
    }
    return Returns(Ok(rays));
  }
}
