/** The fixed-size tiling of the image that both the film (its buckets) and
    the renderer (its work queue) build: tiles of `bucketWidth` x `bucketHeight`
    pixels laid out from the top-left corner, the last column and row capped at
    the image edge, enumerated column by column (x in the outer loop, y in the
    inner loop). */
module Tiling {
  import opened Common

  /** `(a as f32 / b as f32).ceil() as u32`, computed exactly. */
  function CeilDiv(a: nat, b: nat): (r: nat)
    requires b > 0
    ensures a <= r * b
    ensures r > 0 ==> (r - 1) * b < a
  {
    var q := (a + b - 1) / b;
    DivMod(a + b - 1, b);
    q
  }

  /** A pixel rectangle: `x0 <= x < x1`, `y0 <= y < y1` (start inclusive, end exclusive). */
  datatype Rect = Rect(x0: nat, y0: nat, x1: nat, y1: nat)

  predicate Covers(r: Rect, px: nat, py: nat) {
    r.x0 <= px < r.x1 && r.y0 <= py < r.y1
  }

  /** Image size and bucket size. */
  datatype Grid = Grid(width: nat, height: nat, bucketWidth: nat, bucketHeight: nat)
  {
    predicate Valid() { bucketWidth > 0 && bucketHeight > 0 }

    /** The number of tile columns, the bound of the outer loop. */
    function Columns(): nat requires Valid() { CeilDiv(width, bucketWidth) }

    /** The number of tile rows, the bound of the inner loop. */
    function Rows(): nat requires Valid() { CeilDiv(height, bucketHeight) }

    function Count(): nat requires Valid() { Columns() * Rows() }

    /** The tile in column `tx` and row `ty`: it starts at `(tx * bw, ty * bh)`
        and ends at the start plus the bucket size, capped at the image size. */
    function TileRect(tx: nat, ty: nat): Rect
      requires Valid()
    {
      Rect(tx * bucketWidth, ty * bucketHeight,
           Min(tx * bucketWidth + bucketWidth, width) as nat,
           Min(ty * bucketHeight + bucketHeight, height) as nat)
    }

    /** The `i`-th tile pushed by the nested loops (x outer, y inner). */
    function TileAt(i: nat): Rect
      requires Valid() && Rows() > 0
    {
      TileRect(i / Rows(), i % Rows())
    }
  }

  /** The whole tiling, in push order. */
  function Tiles(g: Grid): (ts: seq<Rect>)
    requires g.Valid()
    ensures |ts| == g.Count()
    ensures forall i :: 0 <= i < |ts| ==> ts[i] == g.TileAt(i)
  {
    if g.Rows() == 0 then
      assert g.Count() == 0;
      []
    else
      seq(g.Count(), i requires 0 <= i => g.TileAt(i))
  }

  // ---------------------------------------------------------------------
  // Arithmetic helpers

  lemma DivMod(a: nat, b: nat)
    requires b > 0
    ensures a == (a / b) * b + a % b && 0 <= a % b < b
  {
  }

  lemma MulLeq(a: nat, b: nat, c: nat)
    requires a <= b
    ensures a * c <= b * c
  {
  }

  /** Integer division is determined by the bracketing multiples. */
  lemma DivUnique(p: nat, b: nat, q: nat)
    requires b > 0
    requires q * b <= p < q * b + b
    ensures p / b == q && p % b == p - q * b
  {
    var d, m := p / b, p % b;
    DivMod(p, b);
    if d < q {
      MulLeq(d + 1, q, b);
      assert false;
    } else if d > q {
      MulLeq(q + 1, d, b);
      assert false;
    }
  }

  /** Enumeration index of column `tx`, row `ty`, and back. */
  lemma IndexRoundTrip(tx: nat, ty: nat, rows: nat)
    requires ty < rows
    ensures (tx * rows + ty) / rows == tx && (tx * rows + ty) % rows == ty
  {
    DivUnique(tx * rows + ty, rows, tx);
  }

  lemma IndexBound(tx: nat, ty: nat, cols: nat, rows: nat)
    requires tx < cols && ty < rows
    ensures tx * rows + ty < cols * rows
  {
    MulLeq(tx + 1, cols, rows);
  }

  lemma IndexInverse(i: nat, cols: nat, rows: nat)
    requires i < cols * rows
    ensures rows > 0 && i / rows < cols && i == (i / rows) * rows + i % rows
  {
    DivMod(i, rows);
    if i / rows >= cols {
      MulLeq(cols, i / rows, rows);
      assert false;
    }
  }

  // ---------------------------------------------------------------------
  // Properties of the tiling

  /** Every tile starts inside the image and ends no further than one bucket
      past its start and no further than the image edge: `start < end <= size`
      on both axes. */
  lemma TileRectBounds(g: Grid, tx: nat, ty: nat)
    requires g.Valid() && tx < g.Columns() && ty < g.Rows()
    ensures var r := g.TileRect(tx, ty);
      && r.x0 < r.x1 <= g.width && r.y0 < r.y1 <= g.height
      && r.x1 - r.x0 <= g.bucketWidth && r.y1 - r.y0 <= g.bucketHeight
  {
    MulLeq(tx, g.Columns() - 1, g.bucketWidth);
    MulLeq(ty, g.Rows() - 1, g.bucketHeight);
  }

  /** The same bounds stated for the `i`-th tile of the push order. */
  lemma {:induction false} TileAtBounds(g: Grid, i: nat)
    requires g.Valid() && i < g.Count()
    ensures g.Rows() > 0
    ensures var r := g.TileAt(i);
      && r.x0 < r.x1 <= g.width && r.y0 < r.y1 <= g.height
      && r.x1 - r.x0 <= g.bucketWidth && r.y1 - r.y0 <= g.bucketHeight
  {
    IndexInverse(i, g.Columns(), g.Rows());
    TileRectBounds(g, i / g.Rows(), i % g.Rows());
  }

  /** The tile count is `ceil(W / bw) * ceil(H / bh)`, and a tile's start is
      `(tx * bw, ty * bh)` where the push index is `tx * rows + ty`. */
  lemma {:induction false} TileAtStart(g: Grid, tx: nat, ty: nat)
    requires g.Valid() && tx < g.Columns() && ty < g.Rows()
    ensures tx * g.Rows() + ty < |Tiles(g)|
    ensures Tiles(g)[tx * g.Rows() + ty] == g.TileRect(tx, ty)
    ensures Tiles(g)[tx * g.Rows() + ty].x0 == tx * g.bucketWidth
    ensures Tiles(g)[tx * g.Rows() + ty].y0 == ty * g.bucketHeight
  {
    IndexBound(tx, ty, g.Columns(), g.Rows());
    IndexRoundTrip(tx, ty, g.Rows());
  }

  /** Every pixel of the image lies in some tile. */
  lemma {:induction false} TilesCoverImage(g: Grid, px: nat, py: nat)
    requires g.Valid() && px < g.width && py < g.height
    ensures exists i :: 0 <= i < |Tiles(g)| && Covers(Tiles(g)[i], px, py)
  {
    var bw, bh := g.bucketWidth, g.bucketHeight;
    var tx, ty := px / bw, py / bh;
    DivMod(px, bw);
    DivMod(py, bh);
    if tx >= g.Columns() {
      MulLeq(g.Columns(), tx, bw);
      assert false;
    }
    if ty >= g.Rows() {
      MulLeq(g.Rows(), ty, bh);
      assert false;
    }
    TileAtStart(g, tx, ty);
    var i := tx * g.Rows() + ty;
    assert Covers(Tiles(g)[i], px, py);
  }

  /** A pixel lies in at most one tile: two tiles covering the same pixel are
      the same tile, so the tiles do not overlap. */
  lemma {:induction false} TilesDisjoint(g: Grid, i: nat, j: nat, px: nat, py: nat)
    requires g.Valid() && i < |Tiles(g)| && j < |Tiles(g)|
    requires Covers(Tiles(g)[i], px, py) && Covers(Tiles(g)[j], px, py)
    ensures i == j
  {
    var rows := g.Rows();
    IndexInverse(i, g.Columns(), rows);
    IndexInverse(j, g.Columns(), rows);
    DivUnique(px, g.bucketWidth, i / rows);
    DivUnique(px, g.bucketWidth, j / rows);
    DivUnique(py, g.bucketHeight, i % rows);
    DivUnique(py, g.bucketHeight, j % rows);
  }
}
