/** From a point cloud to an occupancy image (pcd_to_pgm.cpp).  Coordinates are reals; a point
    may be marked as not finite. */
module GridMap {
  import opened Prelude

  datatype Point = Point(x: real, y: real, z: real, finite: bool)

  datatype Config = Config(resolution: real, padding: real, floorMin: real, floorMax: real,
                           obstacleMin: real, obstacleMax: real, freeDilation: real, inflation: real)

  function Floor(r: real): int { r.Floor }
  function Ceil(r: real): int { -(-r).Floor }

  /** Half away from zero. */
  function Round(r: real): int { if r >= 0.0 then (r + 0.5).Floor else -(0.5 - r).Floor }

  /** The Euclidean disc on the grid. */
  predicate Near(x: int, y: int, nx: int, ny: int, radius: int) {
    radius >= 0 && (nx - x) * (nx - x) + (ny - y) * (ny - y) <= radius * radius
  }

  lemma SquareGrows(a: int, b: int)
    requires 0 <= a < b
    ensures a * a < b * b
  {
    assert a * a <= a * b < b * b;
  }

  lemma SquareBound(d: int, radius: int)
    requires radius >= 0 && d * d <= radius * radius
    ensures -radius <= d <= radius
  {
    if d > radius {
      SquareGrows(radius, d);
    } else if d < -radius {
      SquareGrows(radius, -d);
    }
  }

  lemma NearInSquare(x: int, y: int, nx: int, ny: int, radius: int)
    requires Near(x, y, nx, ny, radius)
    ensures -radius <= nx - x <= radius && -radius <= ny - y <= radius
  {
    var dx, dy := nx - x, ny - y;
    SquareNat(dx);
    SquareNat(dy);
    SquareBound(dx, radius);
    SquareBound(dy, radius);
  }

  lemma SquareNat(d: int)
    ensures d * d >= 0
  {
  }

  /** Cells within the disc are within the square that the loops visit. */
  lemma DiscInSquare(x: int, y: int, radius: int)
    ensures forall nx, ny :: Near(x, y, nx, ny, radius) ==> -radius <= nx - x <= radius && -radius <= ny - y <= radius
  {
    hide Near;
    forall nx, ny | Near(x, y, nx, ny, radius)
      ensures -radius <= nx - x <= radius && -radius <= ny - y <= radius
    {
      NearInSquare(x, y, nx, ny, radius);
    }
  }

  /** The cells of a width x height grid, stored row by row. */
  datatype Grid = Grid(width: nat, height: nat) {
    predicate Cell(x: int, y: int) { 0 <= x < width && 0 <= y < height }

    function Index(x: int, y: int): (i: nat)
      requires Cell(x, y)
      ensures i < width * height
    {
      RowFits(y);
      y * width + x
    }

    lemma RowFits(y: int)
      requires 0 <= y < height
      ensures 0 <= y * width && y * width + width <= width * height
    {
      assert (y + 1) * width <= height * width;
    }

    lemma RowsApart(x: int, y: int, x': int, y': int)
      requires Cell(x, y) && Cell(x', y') && y < y'
      ensures Index(x, y) < Index(x', y')
    {
      assert (y + 1) * width <= y' * width;
    }

    lemma IndexInjective(x: int, y: int)
      requires Cell(x, y)
      ensures forall x', y' :: Cell(x', y') && Index(x', y') == Index(x, y) ==> x' == x && y' == y
    {
      forall x', y' | Cell(x', y') && Index(x', y') == Index(x, y) ensures x' == x && y' == y {
        if y < y' {
          RowsApart(x, y, x', y');
        } else if y' < y {
          RowsApart(x', y', x, y);
        }
      }
    }
  }

  // ---- Dilation --------------------------------------------------------------------------------

  /** Some set cell of the mask is within the radius. */
  ghost predicate Reached(g: Grid, mask: seq<bool>, radius: int, nx: int, ny: int)
    requires |mask| == g.width * g.height
  {
    exists x, y :: g.Cell(x, y) && mask[g.Index(x, y)] && Near(x, y, nx, ny, radius)
  }

  /** The two inner loops: sets the disc around one cell. */
  method Disc(g: Grid, output: array<bool>, x: int, y: int, radius: int)
    requires output.Length == g.width * g.height
    modifies output
    ensures forall nx, ny :: g.Cell(nx, ny) ==>
      (output[g.Index(nx, ny)] <==> old(output[g.Index(nx, ny)]) || Near(x, y, nx, ny, radius))
  {
    hide Near, Grid.Index;
    DiscInSquare(x, y, radius);
    ghost var was := output[..];
    var dy := -radius;
    while dy <= radius
      invariant radius >= 0 ==> dy <= radius + 1
      invariant forall nx, ny :: g.Cell(nx, ny) ==>
        (output[g.Index(nx, ny)] <==> was[g.Index(nx, ny)] || (Near(x, y, nx, ny, radius) && ny - y < dy))
    {
      var dx := -radius;
      while dx <= radius
        invariant dx <= radius + 1
        invariant forall nx, ny :: g.Cell(nx, ny) ==>
          (output[g.Index(nx, ny)] <==> was[g.Index(nx, ny)] || NearEarlier(x, y, nx, ny, radius, dx, dy))
      {
        var nx, ny := x + dx, y + dy;
        NearIs(x, y, dx, dy, radius);
        if dx * dx + dy * dy <= radius * radius && 0 <= nx < g.width && 0 <= ny < g.height {
          g.IndexInjective(nx, ny);
          output[g.Index(nx, ny)] := true;
        }
        dx := dx + 1;
      }
      dy := dy + 1;
    }
  }

  /** Row by row, (a, b) comes before (c, d). */
  predicate Earlier(a: int, b: int, c: int, d: int) { b < d || (b == d && a < c) }

  predicate NearEarlier(x: int, y: int, nx: int, ny: int, radius: int, dx: int, dy: int) {
    Near(x, y, nx, ny, radius) && Earlier(nx - x, ny - y, dx, dy)
  }

  lemma NearIs(x: int, y: int, dx: int, dy: int, radius: int)
    requires radius >= 0
    ensures Near(x, y, x + dx, y + dy, radius) <==> dx * dx + dy * dy <= radius * radius
  {
    assert x + dx - x == dx && y + dy - y == dy;
  }

  /** dilate: a cell is set exactly if some set cell of the input is within the radius. */
  method Dilate(g: Grid, input: array<bool>, radius: int) returns (output: array<bool>)
    requires input.Length == g.width * g.height
    ensures output.Length == input.Length && fresh(output)
    ensures forall nx, ny :: g.Cell(nx, ny) ==> (output[g.Index(nx, ny)] <==> Reached(g, input[..], radius, nx, ny))
  {
    hide Near, Grid.Index;
    output := new bool[input.Length](_ => false);
    ghost var mask := input[..];
    var y := 0;
    while y < g.height
      invariant 0 <= y <= g.height
      invariant input[..] == mask
      invariant forall nx, ny :: g.Cell(nx, ny) ==>
        (output[g.Index(nx, ny)] <==> ReachedBefore(g, mask, radius, nx, ny, 0, y))
    {
      var x := 0;
      while x < g.width
        invariant 0 <= x <= g.width
        invariant input[..] == mask
        invariant forall nx, ny :: g.Cell(nx, ny) ==>
          (output[g.Index(nx, ny)] <==> ReachedBefore(g, mask, radius, nx, ny, x, y))
      {
        assert g.Cell(x, y);
        if input[g.Index(x, y)] {
          Disc(g, output, x, y, radius);
        }
        x := x + 1;
      }
      y := y + 1;
    }
  }

  /** Reached from a cell of an earlier row, or of row y and before x. */
  ghost predicate ReachedBefore(g: Grid, mask: seq<bool>, radius: int, nx: int, ny: int, x: int, y: int)
    requires |mask| == g.width * g.height
  {
    exists cx, cy ::
      g.Cell(cx, cy) && mask[g.Index(cx, cy)] && Near(cx, cy, nx, ny, radius) && Earlier(cx, cy, x, y)
  }

  // ---- From points to cells ----------------------------------------------------------------------

  /** Where the grid lies: its lower corner and its size. */
  datatype Frame = Frame(minX: real, minY: real, resolution: real, grid: Grid)

  function Column(f: Frame, p: Point): int
    requires f.resolution > 0.0
  {
    Floor((p.x - f.minX) / f.resolution)
  }

  function Row(f: Frame, p: Point): int
    requires f.resolution > 0.0
  {
    Floor((p.y - f.minY) / f.resolution)
  }

  /** A point lies in the square that cell (x, y) covers: closed below and on the left, open above
      and on the right. */
  predicate InCell(f: Frame, p: Point, x: int, y: int) {
    && f.minX + x as real * f.resolution <= p.x < f.minX + (x + 1) as real * f.resolution
    && f.minY + y as real * f.resolution <= p.y < f.minY + (y + 1) as real * f.resolution
  }

  /** The quotients that the code rounds down find that cell. */
  lemma CellIff(f: Frame, p: Point, x: int, y: int)
    requires f.resolution > 0.0
    ensures InCell(f, p, x, y) <==> Column(f, p) == x && Row(f, p) == y
  {
    FloorIff(p.x - f.minX, f.resolution, x);
    FloorIff(p.y - f.minY, f.resolution, y);
  }

  lemma FloorIff(d: real, r: real, k: int)
    requires r > 0.0
    ensures Floor(d / r) == k <==> k as real * r <= d < (k + 1) as real * r
  {
    QuotientAtLeast(d, r, k);
    QuotientAtLeast(d, r, k + 1);
  }

  lemma QuotientAtLeast(d: real, r: real, k: int)
    requires r > 0.0
    ensures d / r >= k as real <==> d >= k as real * r
  {
    var q := d / r;
    assert q * r == d;
    if q >= k as real {
      assert (q - k as real) * r >= 0.0;
    } else {
      assert (k as real - q) * r > 0.0;
    }
  }

  /** std::round: at most half off, and a half goes away from zero. */
  lemma RoundNearest(r: real)
    ensures r >= 0.0 ==> r - 0.5 < Round(r) as real <= r + 0.5
    ensures r < 0.0 ==> r - 0.5 <= Round(r) as real < r + 0.5
  {
  }

  /** std::ceil of an extent in cells: as many cells as it takes. */
  lemma CeilCovers(d: real, r: real)
    requires r > 0.0
    ensures (Ceil(d / r) - 1) as real * r < d <= Ceil(d / r) as real * r
  {
    var k := Ceil(d / r);
    QuotientAtLeast(-d, r, -k);
    QuotientAtLeast(-d, r, -k + 1);
    assert -d / r == -(d / r);
  }

  /** The disc, without a difference. */
  lemma NearExpanded(x: int, y: int, nx: int, ny: int, radius: int)
    ensures Near(x, y, nx, ny, radius) <==>
      radius >= 0 && (nx * nx + ny * ny) + (x * x + y * y) - 2 * (nx * x + ny * y) <= radius * radius
  {
    DifferenceSquared(nx, x);
    DifferenceSquared(ny, y);
  }

  lemma DifferenceSquared(a: int, b: int)
    ensures (a - b) * (a - b) == a * a - 2 * (a * b) + b * b
  {
  }

  /** The finite points lie between these bounds, and some point on each. */
  ghost predicate Extent(ps: seq<Point>, minX: real, maxX: real, minY: real, maxY: real) {
    && (forall p :: p in ps && p.finite ==> minX <= p.x <= maxX && minY <= p.y <= maxY)
    && (exists p :: p in ps && p.finite && p.x == minX) && (exists p :: p in ps && p.finite && p.x == maxX)
    && (exists p :: p in ps && p.finite && p.y == minY) && (exists p :: p in ps && p.finite && p.y == maxY)
  }

  /** The cell of a value, in a row of cells laid over [lo - padding, hi + padding]. */
  predicate Kept(lo: real, hi: real, v: real, padding: real, resolution: real)
    requires resolution > 0.0
  {
    0 <= Floor((v - (lo - padding)) / resolution) < Ceil((hi + padding - (lo - padding)) / resolution)
  }

  lemma DivideMono(a: real, b: real, r: real)
    requires r > 0.0 && a < b
    ensures a / r < b / r
  {
    var x, y := a / r, b / r;
    assert x * r == a && y * r == b;
  }

  lemma KeptIfPadded(lo: real, hi: real, v: real, padding: real, resolution: real)
    requires resolution > 0.0 && padding > 0.0 && lo <= v <= hi
    ensures Kept(lo, hi, v, padding, resolution)
  {
    DivideMono(0.0, v - (lo - padding), resolution);
    DivideMono(v - (lo - padding), hi + padding - (lo - padding), resolution);
  }

  /** No value between the bounds is dropped, for any bounds, exactly if the padding is
      positive: without it the largest value can fall off the end. */
  lemma {:induction false} NoneDroppedIff(padding: real, resolution: real)
    requires resolution > 0.0
    ensures padding > 0.0 <==> forall lo, hi, v :: lo <= v <= hi ==> Kept(lo, hi, v, padding, resolution)
  {
    if padding > 0.0 {
      forall lo, hi, v | lo <= v <= hi ensures Kept(lo, hi, v, padding, resolution) {
        KeptIfPadded(lo, hi, v, padding, resolution);
      }
    } else {
      assert !Kept(0.0, 0.0, 0.0, padding, resolution) by { DroppedAtZero(padding, resolution); }
    }
  }

  lemma DroppedAtZero(padding: real, resolution: real)
    requires resolution > 0.0 && padding <= 0.0
    ensures !Kept(0.0, 0.0, 0.0, padding, resolution)
  {
    if padding < 0.0 {
      DivideMono(padding, 0.0, resolution);
    }
  }

  /** A distance is a whole number of cells. */
  predicate Whole(d: real, resolution: real)
    requires resolution > 0.0
  {
    (d / resolution).Floor as real == d / resolution
  }

  /** Without padding the largest value is kept exactly if the cells do not come out even. */
  lemma LargestKeptIff(lo: real, hi: real, resolution: real)
    requires resolution > 0.0 && lo <= hi
    ensures Kept(lo, hi, hi, 0.0, resolution) <==> !Whole(hi - lo, resolution)
  {
    if lo < hi { DivideMono(0.0, hi - lo, resolution); }
  }

  /** All smaller ones are. */
  lemma SmallerKept(lo: real, hi: real, v: real, resolution: real)
    requires resolution > 0.0 && lo <= v < hi
    ensures Kept(lo, hi, v, 0.0, resolution)
  {
    if lo < v { DivideMono(0.0, v - lo, resolution); }
    DivideMono(v - lo, hi - lo, resolution);
  }

  /** With negative padding the smallest value is dropped. */
  lemma SmallestDropped(lo: real, hi: real, padding: real, resolution: real)
    requires resolution > 0.0 && padding < 0.0
    ensures !Kept(lo, hi, lo, padding, resolution)
  {
    assert lo - (lo - padding) == padding;
    DivideMono(padding, 0.0, resolution);
  }

  /** The values from lo to hi are all kept. */
  predicate Fits(lo: real, hi: real, padding: real, resolution: real)
    requires resolution > 0.0
  {
    padding > 0.0 || (padding == 0.0 && !Whole(hi - lo, resolution))
  }

  /** A set of values that reaches from lo to hi is kept as a whole exactly then. */
  lemma {:induction false} KeptIff(lo: real, hi: real, padding: real, resolution: real)
    requires resolution > 0.0 && lo <= hi
    ensures Fits(lo, hi, padding, resolution) ==> forall v :: lo <= v <= hi ==> Kept(lo, hi, v, padding, resolution)
    ensures !Fits(lo, hi, padding, resolution) ==>
      !Kept(lo, hi, lo, padding, resolution) || !Kept(lo, hi, hi, padding, resolution)
  {
    hide Kept, Whole;
    if padding < 0.0 {
      SmallestDropped(lo, hi, padding, resolution);
    } else if padding == 0.0 {
      LargestKeptIff(lo, hi, resolution);
      if !Whole(hi - lo, resolution) {
        forall v | lo <= v <= hi ensures Kept(lo, hi, v, padding, resolution) {
          if v < hi { SmallerKept(lo, hi, v, resolution); }
        }
      }
    } else {
      forall v | lo <= v <= hi ensures Kept(lo, hi, v, padding, resolution) {
        KeptIfPadded(lo, hi, v, padding, resolution);
      }
    }
  }

  // ---- The picture ---------------------------------------------------------------------------

  /** A finite point of the height band that lies in the cell. */
  predicate Hits(p: Point, f: Frame, lo: real, hi: real, x: int, y: int) {
    p.finite && lo <= p.z <= hi && InCell(f, p, x, y)
  }

  ghost predicate Seen(ps: seq<Point>, f: Frame, lo: real, hi: real, x: int, y: int) {
    exists p :: p in ps && Hits(p, f, lo, hi, x, y)
  }

  /** A seen cell of the grid is within the radius. */
  ghost predicate SeenNear(ps: seq<Point>, f: Frame, lo: real, hi: real, radius: int, nx: int, ny: int) {
    exists x, y :: f.grid.Cell(x, y) && Seen(ps, f, lo, hi, x, y) && Near(x, y, nx, ny, radius)
  }

  /** What the image shows at a cell: an inflated obstacle, else dilated floor, else unknown. */
  ghost function Shown(ps: seq<Point>, f: Frame, c: Config, x: int, y: int): nat
    requires c.resolution > 0.0
  {
    if SeenNear(ps, f, c.obstacleMin, c.obstacleMax, Round(c.inflation / c.resolution), x, y) then 0
    else if SeenNear(ps, f, c.floorMin, c.floorMax, Round(c.freeDilation / c.resolution), x, y) then 254
    else 205
  }

  /** The frame for given bounds; none if the padding makes the width or the height negative,
      where the code asks for a vector of negative size. */
  function FrameOf(c: Config, minX: real, maxX: real, minY: real, maxY: real): Option<Frame>
    requires c.resolution > 0.0
  {
    var width := Ceil((maxX + c.padding - (minX - c.padding)) / c.resolution);
    var height := Ceil((maxY + c.padding - (minY - c.padding)) / c.resolution);
    if width < 0 || height < 0 then None
    else Some(Frame(minX - c.padding, minY - c.padding, c.resolution, Grid(width, height)))
  }

  ghost predicate HasPoints(ps: seq<Point>) {
    exists p :: p in ps && p.finite
  }

  /** f is the frame of the cloud.  A cloud without a finite point has none: an empty one is
      refused, any other leaves the bounds infinite, and these do not fit an int. */
  ghost predicate Framed(ps: seq<Point>, c: Config, f: Option<Frame>)
    requires c.resolution > 0.0
  {
    if HasPoints(ps) then
      exists minX, maxX, minY, maxY :: Extent(ps, minX, maxX, minY, maxY) && f == FrameOf(c, minX, maxX, minY, maxY)
    else f.None?
  }

  /** The first loop of generate, and the frame that it leads to. */
  method Measure(ps: seq<Point>, c: Config) returns (f: Option<Frame>)
    requires c.resolution > 0.0
    ensures Framed(ps, c, f)
  {
    hide FrameOf;
    var bounds: Option<(real, real, real, real)> := None;
    for i := 0 to |ps|
      invariant bounds.None? ==> !HasPoints(ps[..i])
      invariant bounds.Some? ==> var (a, b, d, e) := bounds.value; Extent(ps[..i], a, b, d, e)
    {
      var p := ps[i];
      assert ps[..i + 1] == ps[..i] + [p];
      if p.finite {
        if bounds.None? {
          bounds := Some((p.x, p.x, p.y, p.y));
          First(ps[..i], p);
        } else {
          var (a, b, d, e) := bounds.value;
          Widen(ps[..i], p, a, b, d, e);
          bounds := Some((RMin(a, p.x), RMax(b, p.x), RMin(d, p.y), RMax(e, p.y)));
        }
      } else if bounds.Some? {
        var (a, b, d, e) := bounds.value;
        Skip(ps[..i], p, a, b, d, e);
      }
    }
    assert ps[..|ps|] == ps;
    if bounds.None? { return None; }
    var (a, b, d, e) := bounds.value;
    f := FrameOf(c, a, b, d, e);
  }

  lemma First(ps: seq<Point>, p: Point)
    requires !HasPoints(ps) && p.finite
    ensures Extent(ps + [p], p.x, p.x, p.y, p.y)
  {
    assert p in ps + [p];
  }

  lemma {:induction false} Widen(ps: seq<Point>, p: Point, a: real, b: real, d: real, e: real)
    requires p.finite && Extent(ps, a, b, d, e)
    ensures Extent(ps + [p], RMin(a, p.x), RMax(b, p.x), RMin(d, p.y), RMax(e, p.y))
  {
    var all := ps + [p];
    assert p in all && forall q :: q in ps ==> q in all;
    var q0 :| q0 in ps && q0.finite && q0.x == a;
    var q1 :| q1 in ps && q1.finite && q1.x == b;
    var q2 :| q2 in ps && q2.finite && q2.y == d;
    var q3 :| q3 in ps && q3.finite && q3.y == e;
    assert q0 in all && q1 in all && q2 in all && q3 in all;
  }

  lemma {:induction false} Skip(ps: seq<Point>, p: Point, a: real, b: real, d: real, e: real)
    requires !p.finite && Extent(ps, a, b, d, e)
    ensures Extent(ps + [p], a, b, d, e)
  {
    var all := ps + [p];
    assert forall q :: q in ps ==> q in all;
  }

  lemma {:induction false} SeenMore(ps: seq<Point>, p: Point, f: Frame, lo: real, hi: real, x: int, y: int)
    requires f.resolution > 0.0
    ensures Seen(ps + [p], f, lo, hi, x, y) <==> Seen(ps, f, lo, hi, x, y) || Hits(p, f, lo, hi, x, y)
  {
    hide Hits;
    var all := ps + [p];
    assert p in all && forall q :: q in all <==> q in ps || q == p;
  }

  /** One count goes up. */
  method Increment(g: Grid, counts: array<nat>, x: int, y: int)
    requires counts.Length == g.width * g.height && g.Cell(x, y)
    modifies counts
    ensures forall a, b :: g.Cell(a, b) ==>
      counts[g.Index(a, b)] == old(counts[g.Index(a, b)]) + (if a == x && b == y then 1 else 0)
  {
    hide Grid.Index;
    g.IndexInjective(x, y);
    counts[g.Index(x, y)] := counts[g.Index(x, y)] + 1;
  }

  ghost predicate Counts(counts: seq<nat>, ps: seq<Point>, f: Frame, lo: real, hi: real)
    requires |counts| == f.grid.width * f.grid.height && f.resolution > 0.0
  {
    forall x, y :: f.grid.Cell(x, y) ==> (counts[f.grid.Index(x, y)] > 0 <==> Seen(ps, f, lo, hi, x, y))
  }

  /** Half of the counting loop's body: one of the two height bands. */
  method CountPoint(f: Frame, counts: array<nat>, ghost ps: seq<Point>, p: Point, lo: real, hi: real)
    requires f.resolution > 0.0 && counts.Length == f.grid.width * f.grid.height
    requires Counts(counts[..], ps, f, lo, hi)
    modifies counts
    ensures Counts(counts[..], ps + [p], f, lo, hi)
  {
    hide Grid.Index, Column, Row, Seen, InCell;
    ghost var was := counts[..];
    forall x, y
      ensures Seen(ps + [p], f, lo, hi, x, y) <==> Seen(ps, f, lo, hi, x, y) || Hits(p, f, lo, hi, x, y)
    {
      SeenMore(ps, p, f, lo, hi, x, y);
    }
    forall x, y ensures InCell(f, p, x, y) <==> Column(f, p) == x && Row(f, p) == y { CellIff(f, p, x, y); }
    if p.finite {
      var gx, gy := Column(f, p), Row(f, p);
      if f.grid.Cell(gx, gy) && lo <= p.z <= hi {
        Increment(f.grid, counts, gx, gy);
      }
    }
  }

  lemma NothingSeen(f: Frame, lo: real, hi: real)
    requires f.resolution > 0.0
    ensures forall x, y :: !Seen([], f, lo, hi, x, y)
  {
  }

  /** The second loop of generate. */
  method CountPoints(ps: seq<Point>, f: Frame, c: Config) returns (floor: array<nat>, obstacle: array<nat>)
    requires f.resolution > 0.0
    ensures floor.Length == obstacle.Length == f.grid.width * f.grid.height
    ensures fresh(floor) && fresh(obstacle) && floor != obstacle
    ensures Counts(floor[..], ps, f, c.floorMin, c.floorMax)
    ensures Counts(obstacle[..], ps, f, c.obstacleMin, c.obstacleMax)
  {
    hide Grid.Index, Seen;
    floor := new nat[f.grid.width * f.grid.height](_ => 0);
    obstacle := new nat[f.grid.width * f.grid.height](_ => 0);
    NothingSeen(f, c.floorMin, c.floorMax);
    NothingSeen(f, c.obstacleMin, c.obstacleMax);
    for i := 0 to |ps|
      invariant Counts(floor[..], ps[..i], f, c.floorMin, c.floorMax)
      invariant Counts(obstacle[..], ps[..i], f, c.obstacleMin, c.obstacleMax)
    {
      assert ps[..i + 1] == ps[..i] + [ps[i]];
      CountPoint(f, floor, ps[..i], ps[i], c.floorMin, c.floorMax);
      CountPoint(f, obstacle, ps[..i], ps[i], c.obstacleMin, c.obstacleMax);
    }
    assert ps[..|ps|] == ps;
  }

  /** floor_mask or obstacle_mask */
  method Mask(counts: array<nat>) returns (mask: array<bool>)
    ensures fresh(mask) && mask.Length == counts.Length
    ensures forall i :: 0 <= i < counts.Length ==> (mask[i] <==> counts[i] > 0)
  {
    mask := new bool[counts.Length](_ => false);
    for i := 0 to counts.Length
      invariant forall j :: 0 <= j < counts.Length ==> (mask[j] <==> j < i && counts[j] > 0)
    {
      if counts[i] > 0 { mask[i] := true; }
    }
  }

  /** The image: unknown, overwritten by free, overwritten by occupied. */
  method Compose(free: array<bool>, inflated: array<bool>) returns (image: array<nat>)
    requires free.Length == inflated.Length
    ensures fresh(image) && image.Length == free.Length
    ensures forall i :: 0 <= i < free.Length ==> image[i] == if inflated[i] then 0 else if free[i] then 254 else 205
  {
    image := new nat[free.Length](_ => 205);
    for i := 0 to free.Length
      invariant forall j :: 0 <= j < free.Length ==> image[j] == if j < i && free[j] then 254 else 205
    {
      if free[i] { image[i] := 254; }
    }
    for i := 0 to free.Length
      invariant forall j :: 0 <= j < free.Length ==>
        image[j] == if j < i && inflated[j] then 0 else if free[j] then 254 else 205
    {
      if inflated[i] { image[i] := 0; }
    }
  }

  lemma {:induction false} ReachedIsSeenNear(ps: seq<Point>, f: Frame, mask: seq<bool>, counts: seq<nat>,
                                             lo: real, hi: real, radius: int)
    requires f.resolution > 0.0 && |mask| == |counts| == f.grid.width * f.grid.height
    requires Counts(counts, ps, f, lo, hi) && forall i :: 0 <= i < |mask| ==> (mask[i] <==> counts[i] > 0)
    ensures forall nx, ny :: Reached(f.grid, mask, radius, nx, ny) <==> SeenNear(ps, f, lo, hi, radius, nx, ny)
  {
    hide Near, Seen, Grid.Index;
  }

  /** generate: unless the cloud has no frame, the image shows what the cloud says, and with
      positive padding every finite point is in some cell. */
  method Generate(ps: seq<Point>, c: Config) returns (frame: Option<Frame>, image: array<nat>)
    requires c.resolution > 0.0
    ensures Framed(ps, c, frame) && fresh(image)
    ensures HasPoints(ps) && c.padding >= 0.0 ==> frame.Some?
    ensures frame.Some? ==>
      var f := frame.value;
      && f.resolution == c.resolution && image.Length == f.grid.width * f.grid.height
      && (AllInside(ps, f) <==> CloudFits(ps, c))
      && forall x, y :: f.grid.Cell(x, y) ==> image[f.grid.Index(x, y)] == Shown(ps, f, c, x, y)
  {
    hide Grid.Index, Seen, Near, SeenNear, Reached, Counts, Round, Framed, HasPoints, AllInside, CloudFits;
    frame := Measure(ps, c);
    PaddedFrame(ps, c, frame);
    if frame.None? {
      image := new nat[0];
      return;
    }
    var f := frame.value;
    var floor, obstacle := CountPoints(ps, f, c);
    var floorMask := Mask(floor);
    var obstacleMask := Mask(obstacle);
    var freeRadius, obstacleRadius := Round(c.freeDilation / c.resolution), Round(c.inflation / c.resolution);
    ReachedIsSeenNear(ps, f, floorMask[..], floor[..], c.floorMin, c.floorMax, freeRadius);
    ReachedIsSeenNear(ps, f, obstacleMask[..], obstacle[..], c.obstacleMin, c.obstacleMax, obstacleRadius);
    var free := Dilate(f.grid, floorMask, freeRadius);
    var inflated := Dilate(f.grid, obstacleMask, obstacleRadius);
    image := Compose(free, inflated);
  }

  /** Every finite point of the cloud falls into a cell. */
  ghost predicate AllInside(ps: seq<Point>, f: Frame) {
    forall p :: p in ps && p.finite ==> exists x, y :: f.grid.Cell(x, y) && InCell(f, p, x, y)
  }

  /** The padding is positive, or there is none and neither extent of the cloud is a whole
      number of cells. */
  ghost predicate CloudFits(ps: seq<Point>, c: Config)
    requires c.resolution > 0.0
  {
    forall minX, maxX, minY, maxY :: Extent(ps, minX, maxX, minY, maxY) ==>
      Fits(minX, maxX, c.padding, c.resolution) && Fits(minY, maxY, c.padding, c.resolution)
  }

  lemma {:induction false} OneExtent(ps: seq<Point>, a: real, b: real, d: real, e: real,
                                     a': real, b': real, d': real, e': real)
    requires Extent(ps, a, b, d, e) && Extent(ps, a', b', d', e')
    ensures a == a' && b == b' && d == d' && e == e'
  {
    var p0 :| p0 in ps && p0.finite && p0.x == a;
    var p1 :| p1 in ps && p1.finite && p1.x == b;
    var p2 :| p2 in ps && p2.finite && p2.y == d;
    var p3 :| p3 in ps && p3.finite && p3.y == e;
    var q0 :| q0 in ps && q0.finite && q0.x == a';
    var q1 :| q1 in ps && q1.finite && q1.x == b';
    var q2 :| q2 in ps && q2.finite && q2.y == d';
    var q3 :| q3 in ps && q3.finite && q3.y == e';
  }

  /** No point of the cloud is dropped exactly then. */
  lemma {:induction false} AllInsideIff(ps: seq<Point>, c: Config, f: Frame, a: real, b: real, d: real, e: real)
    requires c.resolution > 0.0 && Extent(ps, a, b, d, e) && FrameOf(c, a, b, d, e) == Some(f)
    ensures AllInside(ps, f) <==> CloudFits(ps, c)
  {
    hide Fits, Kept, Extent, CloudFits, InCell, Column, Row;
    Bounded(ps, a, b, d, e);
    KeptIff(a, b, c.padding, c.resolution);
    KeptIff(d, e, c.padding, c.resolution);
    FitsCloud(ps, c, a, b, d, e);
    forall p
      ensures (exists x, y :: f.grid.Cell(x, y) && InCell(f, p, x, y)) <==>
        Kept(a, b, p.x, c.padding, c.resolution) && Kept(d, e, p.y, c.padding, c.resolution)
    {
      KeptCell(c, f, a, b, d, e, p);
      CellIff(f, p, Column(f, p), Row(f, p));
      forall x, y | InCell(f, p, x, y) ensures Column(f, p) == x && Row(f, p) == y { CellIff(f, p, x, y); }
    }
    Corners(ps, a, b, d, e);
  }

  lemma KeptCell(c: Config, f: Frame, a: real, b: real, d: real, e: real, p: Point)
    requires c.resolution > 0.0 && FrameOf(c, a, b, d, e) == Some(f)
    ensures f.grid.Cell(Column(f, p), Row(f, p)) <==>
      Kept(a, b, p.x, c.padding, c.resolution) && Kept(d, e, p.y, c.padding, c.resolution)
  {
  }

  lemma {:induction false} FitsCloud(ps: seq<Point>, c: Config, a: real, b: real, d: real, e: real)
    requires c.resolution > 0.0 && Extent(ps, a, b, d, e)
    ensures CloudFits(ps, c) <==> Fits(a, b, c.padding, c.resolution) && Fits(d, e, c.padding, c.resolution)
  {
    hide Fits, Extent;
    forall a', b', d', e' | Extent(ps, a', b', d', e') ensures a == a' && b == b' && d == d' && e == e' {
      OneExtent(ps, a, b, d, e, a', b', d', e');
    }
  }

  lemma Corners(ps: seq<Point>, minX: real, maxX: real, minY: real, maxY: real)
    requires Extent(ps, minX, maxX, minY, maxY)
    ensures exists p :: p in ps && p.finite && p.x == minX
    ensures exists p :: p in ps && p.finite && p.x == maxX
    ensures exists p :: p in ps && p.finite && p.y == minY
    ensures exists p :: p in ps && p.finite && p.y == maxY
  {
  }

  /** Padding that is not negative gives a frame; whether that holds every point is exact. */
  lemma {:induction false} PaddedFrame(ps: seq<Point>, c: Config, f: Option<Frame>)
    requires c.resolution > 0.0 && Framed(ps, c, f)
    ensures HasPoints(ps) && c.padding >= 0.0 ==> f.Some?
    ensures f.Some? ==> f.value.resolution == c.resolution
    ensures f.Some? ==> (AllInside(ps, f.value) <==> CloudFits(ps, c))
  {
    if HasPoints(ps) {
      hide Extent, AllInside, CloudFits;
      var minX, maxX, minY, maxY :| Extent(ps, minX, maxX, minY, maxY) && f == FrameOf(c, minX, maxX, minY, maxY);
      Bounded(ps, minX, maxX, minY, maxY);
      if c.padding >= 0.0 {
        SpanNat(maxX + c.padding - (minX - c.padding), c.resolution);
        SpanNat(maxY + c.padding - (minY - c.padding), c.resolution);
      }
      if f.Some? { AllInsideIff(ps, c, f.value, minX, maxX, minY, maxY); }
    }
  }

  lemma Bounded(ps: seq<Point>, minX: real, maxX: real, minY: real, maxY: real)
    requires Extent(ps, minX, maxX, minY, maxY)
    ensures minX <= maxX && minY <= maxY
    ensures forall p :: p in ps && p.finite ==> minX <= p.x <= maxX && minY <= p.y <= maxY
  {
  }

  lemma SpanNat(span: real, r: real)
    requires span >= 0.0 && r > 0.0
    ensures Ceil(span / r) >= 0
  {
    if span > 0.0 { DivideMono(0.0, span, r); }
  }

  /** writePgm: the rows of the file run from the top of the map to its bottom. */
  method WritePgm(g: Grid, image: array<nat>) returns (file: seq<nat>)
    requires image.Length == g.width * g.height
    ensures |file| == g.width * g.height
    ensures forall x, r :: g.Cell(x, r) ==> file[g.Index(x, r)] == image[g.Index(x, g.height - 1 - r)]
  {
    hide Grid.Index;
    file := [];
    var y := g.height - 1;
    while y >= 0
      invariant -1 <= y < g.height
      invariant |file| == (g.height - 1 - y) * g.width
      invariant forall x, r :: g.Cell(x, r) && r < g.height - 1 - y ==>
        RowStart(g, x, r) < |file| && file[RowStart(g, x, r)] == image[g.Index(x, g.height - 1 - r)]
      decreases y
    {
      ghost var before, k := file, g.height - 1 - y;
      var x := 0;
      while x < g.width
        invariant 0 <= x <= g.width && |file| == k * g.width + x
        invariant forall a, r :: g.Cell(a, r) && Earlier(a, r, x, k) ==>
          RowStart(g, a, r) < |file| && file[RowStart(g, a, r)] == image[g.Index(a, g.height - 1 - r)]
      {
        file := file + [image[g.Index(x, y)]];
        x := x + 1;
      }
      assert (k + 1) * g.width == k * g.width + g.width;
      y := y - 1;
    }
    IndexIsRowStart(g);
  }

  function RowStart(g: Grid, x: int, r: int): int { r * g.width + x }

  lemma IndexIsRowStart(g: Grid)
    ensures forall x, r :: g.Cell(x, r) ==> g.Index(x, r) == RowStart(g, x, r)
  {
  }
}
