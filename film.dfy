/** The film: the per-pixel accumulation buffer, the buckets (tiles) it hands
    out to render threads one by one, and the splatting of finished samples
    into the buffer through a 3x3 box-like filter. */
module Films {
  import opened Common
  import opened Tiling

  /** A radiance sample taken for a pixel: where on the image plane it was
      taken (in pixel units) and the radiance it carries. */
  datatype SampleResult = SampleResult(pixelLocation: Point2, radiance: Vec3)

  /** The reconstruction filter; `Box` is the only method. */
  datatype FilterMethod = Box

  /** One accumulator of the film: the sum of filter weights and the sum of
      weighted radiance splatted into the pixel. */
  datatype Pixel = Pixel(sumWeight: real, sumRadiance: Vec3)

  const EmptyPixel: Pixel := Pixel(0.0, Zero())

  /** The filter weights, indexed `[filter_y][filter_x]`; the centre cell is the
      pixel the sample rounds to. */
  const FilterMap: seq<seq<real>> := [
    [0.1, 0.2, 0.1],
    [0.2, 1.0, 0.2],
    [0.1, 0.2, 0.1]
  ]

  /** A bucket: a tile of the image, the samples gathered for it and whether it
      is done. Shared between the film and the thread that renders it. */
  class Bucket {
    /** `start` is `(tile.x0, tile.y0)` and `end` is `(tile.x1, tile.y1)`. */
    const tile: Rect
    var samples: seq<SampleResult>
    var finished: bool

    constructor (tile: Rect)
      ensures this.tile == tile && samples == [] && !finished
    {
      this.tile := tile;
      samples := [];
      finished := false;
    }

    /** Appends `more` after the samples already gathered. */
    method AddSamples(more: seq<SampleResult>)
      modifies this
      ensures samples == old(samples) + more
      ensures finished == old(finished)
    {
      samples := samples + more;
    }

    /** Marks the bucket as done and changes nothing else. */
    method Finish()
      modifies this
      ensures finished
      ensures samples == old(samples)
    {
      finished := true;
    }
  }

  /** Creates one fresh, empty, unfinished bucket per tile of the grid, in the
      order of the nested loops (x outer, y inner). */
  method InitBuckets(g: Grid) returns (buckets: seq<Bucket>)
    requires g.Valid()
    ensures |buckets| == g.Count()
    ensures forall i :: 0 <= i < |buckets| ==> buckets[i].tile == Tiles(g)[i]
    ensures forall i :: 0 <= i < |buckets| ==>
      fresh(buckets[i]) && buckets[i].samples == [] && !buckets[i].finished
    ensures forall i, j :: 0 <= i < j < |buckets| ==> buckets[i] != buckets[j]
  {
    buckets := [];
    var rows := g.Rows();
    var x := 0;
    while x < g.Columns()
      invariant 0 <= x <= g.Columns()
      invariant |buckets| == x * rows
      invariant forall i :: 0 <= i < |buckets| ==> rows > 0 && buckets[i].tile == g.TileAt(i)
      invariant forall i :: 0 <= i < |buckets| ==>
        fresh(buckets[i]) && buckets[i].samples == [] && !buckets[i].finished
      invariant forall i, j :: 0 <= i < j < |buckets| ==> buckets[i] != buckets[j]
    {
      var y := 0;
      while y < rows
        invariant 0 <= y <= rows
        invariant |buckets| == x * rows + y
        invariant forall i :: 0 <= i < |buckets| ==> rows > 0 && buckets[i].tile == g.TileAt(i)
        invariant forall i :: 0 <= i < |buckets| ==>
          fresh(buckets[i]) && buckets[i].samples == [] && !buckets[i].finished
        invariant forall i, j :: 0 <= i < j < |buckets| ==> buckets[i] != buckets[j]
      {
        var startX, startY := x * g.bucketWidth, y * g.bucketHeight;
        // capped at the image size
        var xEnd := Min(startX + g.bucketWidth, g.width);
        var yEnd := Min(startY + g.bucketHeight, g.height);
        var b := new Bucket(Rect(startX, startY, xEnd as nat, yEnd as nat));
        IndexRoundTrip(x, y, rows);
        buckets := buckets + [b];
        y := y + 1;
      }
      x := x + 1;
    }
  }

  class Film {
    const imageWidth: nat
    const imageHeight: nat
    /** The image size together with the bucket size. */
    const grid: Grid
    const filmSize: nat
    const cropStart: Option<(nat, nat)>
    const cropEnd: Option<(nat, nat)>
    const filterMethod: FilterMethod
    /** The accumulators, pixel `(x, y)` at index `x + imageWidth * y`. */
    const pixels: array<Pixel>
    const buckets: seq<Bucket>
    var currentBucket: nat

    ghost predicate Valid()
      reads this
    {
      && grid.Valid()
      && grid.width == imageWidth && grid.height == imageHeight
      && pixels.Length == imageWidth * imageHeight
      && |buckets| == grid.Count()
      && (forall i :: 0 <= i < |buckets| ==> buckets[i].tile == Tiles(grid)[i])
      && (forall i, j :: 0 <= i < j < |buckets| ==> buckets[i] != buckets[j])
      && currentBucket <= |buckets|
    }

    /** The buckets handed out so far, in the order they were handed out. */
    ghost function HandedOut(): seq<Bucket>
      reads this
      requires Valid()
    {
      buckets[..currentBucket]
    }

    constructor (imageWidth: nat, imageHeight: nat, bucketWidth: nat, bucketHeight: nat,
                 filmSize: nat, cropStart: Option<(nat, nat)>, cropEnd: Option<(nat, nat)>,
                 filterMethod: FilterMethod)
      requires bucketWidth > 0 && bucketHeight > 0
      ensures Valid() && fresh(pixels)
      ensures grid == Grid(imageWidth, imageHeight, bucketWidth, bucketHeight)
      ensures this.imageWidth == imageWidth && this.imageHeight == imageHeight
      ensures this.filmSize == filmSize && this.cropStart == cropStart && this.cropEnd == cropEnd
      ensures this.filterMethod == filterMethod
      ensures forall k :: 0 <= k < pixels.Length ==> pixels[k] == EmptyPixel
      ensures currentBucket == 0
      ensures forall i :: 0 <= i < |buckets| ==>
        fresh(buckets[i]) && buckets[i].samples == [] && !buckets[i].finished
    {
      var px := new Pixel[imageWidth * imageHeight];
      var i := 0;
      while i < px.Length
        invariant 0 <= i <= px.Length
        invariant forall k :: 0 <= k < i ==> px[k] == EmptyPixel
      {
        px[i] := EmptyPixel;
        i := i + 1;
      }
      var g := Grid(imageWidth, imageHeight, bucketWidth, bucketHeight);
      var bs := InitBuckets(g);
      this.imageWidth := imageWidth;
      this.imageHeight := imageHeight;
      this.grid := g;
      this.filmSize := filmSize;
      this.cropStart := cropStart;
      this.cropEnd := cropEnd;
      this.filterMethod := filterMethod;
      this.pixels := px;
      this.buckets := bs;
      this.currentBucket := 0;
    }

    /** Hands out the bucket under the cursor and advances the cursor by one;
        `None` once every bucket has been handed out. */
    method GetBucket() returns (b: Option<Bucket>)
      requires Valid()
      modifies this
      ensures Valid()
      ensures b.None? <==> old(currentBucket) >= |buckets|
      ensures b.None? ==> currentBucket == old(currentBucket)
      ensures b.Some? ==>
        && b.value == buckets[old(currentBucket)]
        && currentBucket == old(currentBucket) + 1
        && HandedOut() == old(HandedOut()) + [b.value]
    {
      var len := |buckets|;
      if currentBucket >= len {
        return None;
      }
      var bucket := buckets[currentBucket];
      currentBucket := currentBucket + 1;
      assert buckets[..currentBucket] == buckets[..currentBucket - 1] + [bucket];
      return Some(bucket);
    }

    /** The index of pixel `(x, y)` in the accumulator buffer. In-bounds
        coordinates give an in-bounds index. */
    function GetPixelIndex(x: nat, y: nat): (r: nat)
      ensures x < imageWidth && y < imageHeight ==> r < imageWidth * imageHeight
    {
      if x < imageWidth && y < imageHeight then
        CellIndexBound(imageWidth, imageHeight, x, y);
        x + imageWidth * y
      else
        x + imageWidth * y
    }

    /** Distinct in-bounds pixels have distinct indices. */
    lemma PixelIndexInjective(x1: nat, y1: nat, x2: nat, y2: nat)
      requires x1 < imageWidth && x2 < imageWidth
      requires GetPixelIndex(x1, y1) == GetPixelIndex(x2, y2)
      ensures x1 == x2 && y1 == y2
    {
      IndexInjective(imageWidth, x1, y1, x2, y2);
    }

    /** Splats every sample of the bucket into the accumulators, in order. */
    method UpdateImageBuffer(bucket: Bucket)
      requires Valid()
      modifies pixels
      ensures pixels[..] == SplatAll(old(pixels[..]), bucket.samples, imageWidth, imageHeight)
    {
      var samples := bucket.samples;
      var i := 0;
      while i < |samples|
        invariant 0 <= i <= |samples|
        invariant pixels[..] == SplatAll(old(pixels[..]), samples[..i], imageWidth, imageHeight)
      {
        SplatSample(samples[i]);
        assert samples[..i + 1][..i] == samples[..i];
        i := i + 1;
      }
      assert samples[..i] == samples;
    }

    /** The body of the sample loop: the 3x3 filter of one sample, row by row,
        around the pixel the sample's location is cast to. */
    method SplatSample(sample: SampleResult)
      requires Valid()
      modifies pixels
      ensures pixels[..] == SplatCells(old(pixels[..]), CentreOf(sample), sample.radiance, 9, imageWidth, imageHeight)
    {
      var x := CastPixel(sample.pixelLocation.x);
      var y := CastPixel(sample.pixelLocation.y);
      var c := Centre(x, y);
      var filterY := 0;
      while filterY < 3
        invariant 0 <= filterY <= 3
        invariant pixels[..] == SplatCells(old(pixels[..]), c, sample.radiance, 3 * filterY, imageWidth, imageHeight)
      {
        var filterX := 0;
        while filterX < 3
          invariant 0 <= filterX <= 3
          invariant pixels[..] ==
            SplatCells(old(pixels[..]), c, sample.radiance, 3 * filterY + filterX, imageWidth, imageHeight)
        {
          SplatCellsStep(old(pixels[..]), c, sample.radiance, filterX, filterY, imageWidth, imageHeight);
          SplatCell(c, sample.radiance, filterX, filterY);
          filterX := filterX + 1;
        }
        filterY := filterY + 1;
      }
    }

    /** The body of the filter loops: adds filter cell `(filterX, filterY)`
        around centre `c`, unless it falls outside the image. */
    method SplatCell(c: Centre, radiance: Vec3, filterX: nat, filterY: nat)
      requires Valid() && filterX < 3 && filterY < 3
      modifies pixels
      ensures pixels[..] == AddCell(old(pixels[..]), c, radiance, filterX, filterY, imageWidth, imageHeight)
    {
      var w, h := imageWidth, imageHeight;
      var weight := FilterMap[filterY][filterX];
      var newX := c.x + filterX - 1;
      var newY := c.y + filterY - 1;
      if !(newX < 0 || newY < 0 || newX >= w || newY >= h) {
        var pixelIndex := GetPixelIndex(newX, newY);
        assert CellTarget(c, filterX, filterY, w, h) == Some(pixelIndex);
        pixels[pixelIndex] := Bump(pixels[pixelIndex], radiance, weight);
      }
    }
  }

  // -----------------------------------------------------------------------
  // Specification of the splat

  /** The pixel coordinate a sample coordinate rounds to: `floor(v + 0.5)`. */
  function NearestPixel(v: real): int { (v + 0.5).Floor }

  /** The centre of the splat along one axis as the source computes it, the
      nearest pixel cast to `u32` and then to `i32`: exact from 0 up to
      `i32::MAX`, 0 left of the image, negative past `i32::MAX`. */
  function CastPixel(v: real): (r: int)
    ensures 0 <= NearestPixel(v) < I32Bound ==> r == NearestPixel(v)
    ensures NearestPixel(v) < 0 ==> r == 0
    ensures NearestPixel(v) >= I32Bound ==> r < 0
  {
    WrapI32(SaturateU32(NearestPixel(v)))
  }

  /** The pixel the 3x3 filter of a sample is centred on. */
  datatype Centre = Centre(x: int, y: int)

  function CentreOf(s: SampleResult): Centre {
    Centre(CastPixel(s.pixelLocation.x), CastPixel(s.pixelLocation.y))
  }

  /** The pixel coordinate hit by filter cell `f` (0, 1 or 2) around centre
      coordinate `c` along an axis of size `size`, or `None` when it falls
      outside the image. */
  function AxisCell(c: int, f: nat, size: nat): Option<nat> {
    var n := c + f - 1;
    if n < 0 || n >= size then None else Some(n)
  }

  /** The accumulator index that filter cell `(fx, fy)` around `c` adds to. */
  function CellTarget(c: Centre, fx: nat, fy: nat, w: nat, h: nat): (r: Option<nat>)
    ensures r.Some? ==> r.value < w * h
  {
    var col := AxisCell(c.x, fx, w);
    var row := AxisCell(c.y, fy, h);
    if col.Some? && row.Some? then
      CellIndexBound(w, h, col.value, row.value);
      Some(col.value + w * row.value)
    else None
  }

  function Bump(p: Pixel, radiance: Vec3, weight: real): Pixel {
    Pixel(p.sumWeight + weight, Add(p.sumRadiance, Scale(radiance, weight)))
  }

  function AddCell(pix: seq<Pixel>, c: Centre, radiance: Vec3, fx: nat, fy: nat, w: nat, h: nat): (r: seq<Pixel>)
    requires |pix| == w * h && fx < 3 && fy < 3
    ensures |r| == |pix|
  {
    match CellTarget(c, fx, fy, w, h)
    case None => pix
    case Some(q) => pix[q := Bump(pix[q], radiance, FilterMap[fy][fx])]
  }

  /** The first `n` filter cells around `c` applied in loop order (rows
      outer, columns inner: cell `k` is column `k % 3` of row `k / 3`). */
  function SplatCells(pix: seq<Pixel>, c: Centre, radiance: Vec3, n: nat, w: nat, h: nat): (r: seq<Pixel>)
    requires |pix| == w * h && n <= 9
    ensures |r| == |pix|
  {
    if n == 0 then pix
    else AddCell(SplatCells(pix, c, radiance, n - 1, w, h), c, radiance, (n - 1) % 3, (n - 1) / 3, w, h)
  }

  /** Every sample splatted in order. */
  function SplatAll(pix: seq<Pixel>, samples: seq<SampleResult>, w: nat, h: nat): (r: seq<Pixel>)
    requires |pix| == w * h
    ensures |r| == |pix|
  {
    if samples == [] then pix
    else
      var last := samples[|samples| - 1];
      SplatCells(SplatAll(pix, samples[..|samples| - 1], w, h), CentreOf(last), last.radiance, 9, w, h)
  }

  /** Whether pixel `(px, py)` is within one pixel of centre `c`. */
  predicate Near(c: Centre, px: nat, py: nat) {
    c.x - 1 <= px <= c.x + 1 && c.y - 1 <= py <= c.y + 1
  }

  /** The filter weight a splat around `c` gives pixel `(px, py)` when `Near(c, px, py)`. */
  function WeightAt(c: Centre, px: nat, py: nat): real
    requires Near(c, px, py)
  {
    FilterMap[py - c.y + 1][px - c.x + 1]
  }

  /** Pixel `(x, y)` of a `w` x `h` image lies at index `x + w * y`, inside the buffer. */
  lemma CellIndexBound(w: nat, h: nat, x: nat, y: nat)
    requires x < w && y < h
    ensures x + w * y < w * h
  {
    MulLeq(y + 1, h, w);
    assert (y + 1) * w == w * y + w;
  }

  lemma IndexInjective(w: nat, x1: nat, y1: nat, x2: nat, y2: nat)
    requires x1 < w && x2 < w
    requires x1 + w * y1 == x2 + w * y2
    ensures x1 == x2 && y1 == y2
  {
    DivUnique(x1 + w * y1, w, y1);
    DivUnique(x2 + w * y2, w, y2);
  }

  /** One filter cell changes only the accumulator it targets. */
  lemma AddCellAt(pix: seq<Pixel>, c: Centre, radiance: Vec3, fx: nat, fy: nat, w: nat, h: nat, q: nat)
    requires |pix| == w * h && fx < 3 && fy < 3 && q < |pix|
    ensures AddCell(pix, c, radiance, fx, fy, w, h)[q] ==
      if CellTarget(c, fx, fy, w, h) == Some(q)
      then Bump(pix[q], radiance, FilterMap[fy][fx])
      else pix[q]
  {
  }

  /** Cell `3 * fy + fx` of the loop order is column `fx` of row `fy`. */
  lemma SplatCellsStep(pix: seq<Pixel>, c: Centre, radiance: Vec3, fx: nat, fy: nat, w: nat, h: nat)
    requires |pix| == w * h && fx < 3 && fy < 3
    ensures SplatCells(pix, c, radiance, 3 * fy + fx + 1, w, h)
         == AddCell(SplatCells(pix, c, radiance, 3 * fy + fx, w, h), c, radiance, fx, fy, w, h)
  {
    DivUnique(3 * fy + fx, 3, fy);
  }

  /** The position of pixel `(px, py)` in the loop order of the 3x3 filter
      around `c`, meaningful when `Near(c, px, py)`. */
  function CellOf(c: Centre, px: nat, py: nat): int {
    3 * (py - c.y + 1) + (px - c.x + 1)
  }

  /** Filter cell `(fx, fy)` lands on in-image pixel `(px, py)` exactly when
      the pixel is `fx - 1` columns and `fy - 1` rows from the centre. */
  lemma CellHit(c: Centre, fx: nat, fy: nat, w: nat, h: nat, px: nat, py: nat)
    requires fx < 3 && fy < 3 && px < w && py < h
    ensures CellTarget(c, fx, fy, w, h) == Some(px + w * py)
        <==> (c.x + fx - 1 == px && c.y + fy - 1 == py)
  {
    var t := CellTarget(c, fx, fy, w, h);
    if t == Some(px + w * py) {
      var col := AxisCell(c.x, fx, w).value;
      var row := AxisCell(c.y, fy, h).value;
      IndexInjective(w, col, row, px, py);
    }
  }

  /** After the first `n` cells around `c`, an in-image pixel has received
      exactly the weight of the one cell that maps onto it, if that cell is
      among the first `n`, and is otherwise unchanged. */
  lemma {:induction false} SplatCellsEffect(pix: seq<Pixel>, c: Centre, radiance: Vec3, n: nat, w: nat, h: nat,
                                            px: nat, py: nat)
    requires |pix| == w * h && n <= 9 && px < w && py < h
    ensures px + w * py < |pix|
    ensures SplatCells(pix, c, radiance, n, w, h)[px + w * py] ==
      if Near(c, px, py) && CellOf(c, px, py) < n
      then Bump(pix[px + w * py], radiance, WeightAt(c, px, py))
      else pix[px + w * py]
  {
    CellIndexBound(w, h, px, py);
    if n > 0 {
      var q := px + w * py;
      var prev := SplatCells(pix, c, radiance, n - 1, w, h);
      SplatCellsEffect(pix, c, radiance, n - 1, w, h, px, py);
      var fx, fy := (n - 1) % 3, (n - 1) / 3;
      DivMod(n - 1, 3);
      SplatCellsStep(pix, c, radiance, fx, fy, w, h);
      AddCellAt(prev, c, radiance, fx, fy, w, h, q);
      CellStep(c, fx, fy, w, h, px, py);
    }
  }

  /** Cell `(fx, fy)` is the one that lands on in-image pixel `(px, py)`
      exactly when the pixel is near the centre and that cell is its cell in
      the loop order; the weight it adds is then the pixel's. */
  lemma CellStep(c: Centre, fx: nat, fy: nat, w: nat, h: nat, px: nat, py: nat)
    requires fx < 3 && fy < 3 && px < w && py < h
    ensures CellTarget(c, fx, fy, w, h) == Some(px + w * py)
        <==> Near(c, px, py) && CellOf(c, px, py) == 3 * fy + fx
    ensures CellTarget(c, fx, fy, w, h) == Some(px + w * py) ==> WeightAt(c, px, py) == FilterMap[fy][fx]
  {
    CellHit(c, fx, fy, w, h, px, py);
    if Near(c, px, py) && CellOf(c, px, py) == 3 * fy + fx {
      DivUnique(3 * (py - c.y + 1) + (px - c.x + 1), 3, py - c.y + 1);
      DivUnique(3 * fy + fx, 3, fy);
    }
  }

  /** The splat of one sample touches only pixels within one pixel of its
      centre and inside the image, adding that cell's filter weight (centre
      1.0, edges 0.2, corners 0.1) to the weight sum and the weighted radiance
      to the radiance sum. The centre is the nearest pixel for a sample at or
      right of -0.5 (every sample the samplers produce), column or row 0 for
      one further left. */
  lemma SplatSampleEffect(pix: seq<Pixel>, s: SampleResult, w: nat, h: nat, px: nat, py: nat)
    requires |pix| == w * h && px < w && py < h
    ensures px + w * py < |pix|
    ensures SplatCells(pix, CentreOf(s), s.radiance, 9, w, h)[px + w * py] ==
      if Near(CentreOf(s), px, py) then Bump(pix[px + w * py], s.radiance, WeightAt(CentreOf(s), px, py))
      else pix[px + w * py]
    ensures Near(CentreOf(s), px, py) ==>
      var c := CentreOf(s);
      WeightAt(c, px, py) == (if px == c.x && py == c.y then 1.0
                              else if px == c.x || py == c.y then 0.2
                              else 0.1)
  {
    SplatCellsEffect(pix, CentreOf(s), s.radiance, 9, w, h, px, py);
  }

  /** A pixel that is not within one pixel of any sample's centre keeps its
      accumulator. */
  lemma {:induction false} SplatAllUntouched(pix: seq<Pixel>, samples: seq<SampleResult>, w: nat, h: nat,
                                             px: nat, py: nat)
    requires |pix| == w * h && px < w && py < h
    requires forall i :: 0 <= i < |samples| ==> !Near(CentreOf(samples[i]), px, py)
    ensures px + w * py < |pix|
    ensures SplatAll(pix, samples, w, h)[px + w * py] == pix[px + w * py]
  {
    CellIndexBound(w, h, px, py);
    if samples != [] {
      var init := samples[..|samples| - 1];
      SplatAllUntouched(pix, init, w, h, px, py);
      SplatSampleEffect(SplatAll(pix, init, w, h), samples[|samples| - 1], w, h, px, py);
    }
  }

  // -----------------------------------------------------------------------
  // The casts of the splat, and the exact rounding they were meant to be

  const U32Max: int := 0xFFFF_FFFF
  /** `2^31`: the non-negative `i32` values are those below it. */
  const I32Bound: int := 0x8000_0000

  /** `f64 as u32`: saturates below at 0 and above at `u32::MAX`. */
  function SaturateU32(v: int): (r: nat)
    ensures r <= U32Max
    ensures 0 <= v <= U32Max ==> r == v
    ensures v < 0 ==> r == 0
    ensures v > U32Max ==> r == U32Max
  {
    if v < 0 then 0 else if v > U32Max then U32Max else v
  }

  /** `u32 as i32`: reinterprets the bits, so values from 2^31 on wrap negative. */
  function WrapI32(u: nat): (r: int)
    requires u <= U32Max
    ensures u < I32Bound ==> r == u
    ensures u >= I32Bound ==> r < 0 && r == u - 0x1_0000_0000
  {
    if u >= I32Bound then u - 0x1_0000_0000 else u
  }

  /** One axis of the splat as written: filter cell `f` around the cast
      coordinate. */
  function SplatAxis(v: real, f: nat, size: nat): Option<nat> {
    AxisCell(CastPixel(v), f, size)
  }

  /** One axis of the splat with exact rounding: cell `f` lands on the pixel
      `f - 1` from the nearest one, when that pixel is in the image. */
  function SplatAxisExact(v: real, f: nat, size: nat): Option<nat> {
    AxisCell(NearestPixel(v), f, size)
  }

  /** For a sample whose nearest pixel is a non-negative `i32` (every sample at
      or right of -0.5 and left of `i32::MAX`), the casts are exact. */
  lemma SplatAxisExactInRange(v: real, f: nat, size: nat)
    requires 0 <= NearestPixel(v) < I32Bound
    ensures SplatAxis(v, f, size) == SplatAxisExact(v, f, size)
  {
  }

  /** As written, a sample left of the image (at x = -1.2, which rounds to -1)
      puts its right-hand cell into column 1, two pixels from where it rounds
      to, and its centre weight into column 0. */
  lemma SplatAxisAsWrittenLeavesNeighbourhood()
    ensures NearestPixel(-1.2) == -1
    ensures SplatAxis(-1.2, 2, 4) == Some(1)
    ensures SplatAxis(-1.2, 1, 4) == Some(0)
    ensures SplatAxisExact(-1.2, 2, 4) == Some(0) && SplatAxisExact(-1.2, 1, 4) == None
  {
    assert (-1.2 + 0.5).Floor == -1;
  }

  /** With exact rounding, filter cell `f` lands exactly `f - 1` pixels from
      where the sample rounds to, and is dropped exactly when that pixel is
      outside the image. */
  lemma SplatAxisStaysInNeighbourhood(v: real, f: nat, size: nat)
    requires f < 3
    ensures SplatAxisExact(v, f, size).Some? <==> 0 <= NearestPixel(v) + f - 1 < size
    ensures SplatAxisExact(v, f, size).Some? ==>
      SplatAxisExact(v, f, size).value == NearestPixel(v) + f - 1
      && NearestPixel(v) - 1 <= SplatAxisExact(v, f, size).value <= NearestPixel(v) + 1
  {
  }
}
