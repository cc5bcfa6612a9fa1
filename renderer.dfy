// The renderer: tracing one ray, the bucket schedule the render workers share,
// the workers that claim buckets along the spiral and fill them, and the
// render call that sets it all up and runs the workers.
//
// The workers run one after another here (see the README): each one's
// claim loop and bucket loop are modelled as written, against the shared
// schedule object that stands for the workers' static members.

module Renderers {
  import opened Colors
  import opened Images
  import opened Spirals
  import opened Boxes
  import opened Surfaces
  import opened Scenes
  import opened CubeMaps
  import opened Utility

  /** The initial maximum bounce depth. */
  const DefaultMaxDepth: nat := 10

  /** The nearest distance `traceRay` accepts a hit at. */
  const MinT: real := 0.000001

  /** The material's shading of a hit, outside this model. */
  type Shader = (Ray, Context) -> Color

  /**
   * `traceRay`: a ray at or past the depth limit contributes the default colour;
   * otherwise the background's colour in the ray's direction on a miss, and the
   * hit material's shading of the nearest hit.
   */
  function TraceRay(ray: Ray, maxDepth: nat, scene: Scene, slab: SlabTest, test: SurfaceTest, shade: Shader): (c: Color)
    reads scene
    requires CubeMaps.WellFormed(scene.settings.background)
    requires scene.settings.background.textures != [] ==> ray.direction != Vec3(0.0, 0.0, 0.0)
    ensures ray.depth >= maxDepth ==> c == Default()
    ensures ray.depth < maxDepth && BoxHit(slab(scene.box, ray), FloatMax).None? ==>
      c == Sky(scene.settings.background, ray.direction)
    ensures ray.depth < maxDepth && scene.settings.background.textures == [] && !ShadedHit(ray, scene, slab, test) ==>
      c == scene.settings.background.background
  {
    if ray.depth >= maxDepth then Default()
    else match Hit(scene.box, scene.objects, slab, test, ray, MinT, FloatMax)
      case None => Sky(scene.settings.background, ray.direction)
      case Some(context) => shade(ray, context)
  }

  /** Whether `traceRay` finds a hit in the scene for this ray. */
  ghost predicate ShadedHit(ray: Ray, scene: Scene, slab: SlabTest, test: SurfaceTest)
    reads scene
  {
    Hit(scene.box, scene.objects, slab, test, ray, MinT, FloatMax).Some?
  }

  /** Past the depth limit the scene is never consulted. */
  lemma DepthCutOffIgnoresScene(ray: Ray, maxDepth: nat, s1: Scene, s2: Scene, slab: SlabTest,
                                t1: SurfaceTest, t2: SurfaceTest, sh1: Shader, sh2: Shader)
    requires CubeMaps.WellFormed(s1.settings.background) && CubeMaps.WellFormed(s2.settings.background)
    requires s1.settings.background.textures != [] ==> ray.direction != Vec3(0.0, 0.0, 0.0)
    requires s2.settings.background.textures != [] ==> ray.direction != Vec3(0.0, 0.0, 0.0)
    requires ray.depth >= maxDepth
    ensures TraceRay(ray, maxDepth, s1, slab, t1, sh1) == TraceRay(ray, maxDepth, s2, slab, t2, sh2)
  {
  }

  // ---------------------------------------------------------------- pixels

  /** The traced colour of sample `i` of pixel (col, row): `traceRay` of the camera's i-th
      ray through the pixel (ray generation and scene are fixed by the caller). */
  type Radiance = (nat, nat, nat) -> Color

  /** The default colour plus the first `n` samples of a pixel, in order. */
  function SampleSum(radiance: Radiance, col: nat, row: nat, n: nat): Color
  {
    if n == 0 then Default() else Plus(SampleSum(radiance, col, row, n - 1), radiance(col, row, n - 1))
  }

  /**
   * The colour a worker writes for a pixel: the sum of its samples scaled
   * by 1/n, clamped to [0, 1]. The sample count must be positive, as
   * `Camera::generateRays` asserts before the samples are taken.
   */
  function PixelColor(radiance: Radiance, col: nat, row: nat, sampleCount: nat): (c: Color)
    requires sampleCount > 0
    ensures InRange(c, 0.0, 1.0)
  {
    ClampColor(Scale(SampleSum(radiance, col, row, sampleCount), 1.0 / sampleCount as real), 0.0, 1.0)
  }

  /** The sampling loop for one pixel. */
  method SamplePixel(radiance: Radiance, col: nat, row: nat, sampleCount: nat) returns (color: Color)
    requires sampleCount > 0
    ensures color == PixelColor(radiance, col, row, sampleCount)
  {
    color := Default();
    for i := 0 to sampleCount
      invariant color == SampleSum(radiance, col, row, i)
    {
      color := Plus(color, radiance(col, row, i));
    }
    color := Scale(color, 1.0 / sampleCount as real);
    color := ClampColor(color, 0.0, 1.0);
  }

  // ---------------------------------------------------------------- bucket arithmetic

  /** Pixel `c` lies in bucket `b` exactly when `c / size == b`. */
  lemma BucketOf(c: nat, size: nat, b: nat)
    requires size > 0
    ensures b * size <= c < b * size + size <==> c / size == b
  {
    var q := c / size;
    assert c == q * size + c % size;
    if q < b {
      MulMonotone(size, q + 1, b);
      assert q * size + size <= b * size;
    } else if b < q {
      MulMonotone(size, b + 1, q);
      assert b * size + size <= q * size;
    }
  }

  /** The first pixel column (or row) of bucket `b`. */
  function BucketStart(b: nat, size: nat): nat
  {
    b * size
  }

  /** Every pixel of the image lies in an existing bucket. */
  lemma PixelInGrid(c: nat, n: nat, size: nat)
    requires size > 0 && c < n
    ensures c / size < CeilDiv(n, size)
  {
    assert c / size * size <= c;
    CeilDivBelow(n, size, c / size);
  }

  // ---------------------------------------------------------------- claimed-bucket counts

  function CountRow(row: seq<bool>): nat
  {
    if row == [] then 0 else CountRow(row[..|row| - 1]) + (if row[|row| - 1] then 1 else 0)
  }

  /** The number of claimed buckets of a grid. */
  function Count(grid: seq<seq<bool>>): nat
  {
    if grid == [] then 0 else Count(grid[..|grid| - 1]) + CountRow(grid[|grid| - 1])
  }

  lemma {:induction false} CountRowClaim(row: seq<bool>, i: nat)
    requires i < |row| && !row[i]
    ensures CountRow(row[i := true]) == CountRow(row) + 1
  {
    var last := |row| - 1;
    if i < last {
      assert row[i := true][..last] == row[..last][i := true];
      CountRowClaim(row[..last], i);
    } else {
      assert row[i := true][..last] == row[..last];
    }
  }

  /** Claiming an unclaimed bucket raises the count by exactly one. */
  lemma {:induction false} CountClaim(grid: seq<seq<bool>>, j: nat, i: nat)
    requires j < |grid| && i < |grid[j]| && !grid[j][i]
    ensures Count(grid[j := grid[j][i := true]]) == Count(grid) + 1
  {
    var last := |grid| - 1;
    var g := grid[j := grid[j][i := true]];
    if j < last {
      assert g[..last] == grid[..last][j := grid[j][i := true]];
      CountClaim(grid[..last], j, i);
    } else {
      assert g[..last] == grid[..last];
      CountRowClaim(grid[j], i);
    }
  }

  lemma {:induction false} CountRowBound(row: seq<bool>)
    ensures CountRow(row) <= |row|
    ensures CountRow(row) == |row| <==> forall i | 0 <= i < |row| :: row[i]
    ensures CountRow(row) == 0 <==> forall i | 0 <= i < |row| :: !row[i]
  {
    if row != [] {
      var init := row[..|row| - 1];
      CountRowBound(init);
      assert forall i | 0 <= i < |init| :: init[i] == row[i];
    }
  }

  /** A grid of `width`-wide rows has at most height * width claimed buckets. */
  lemma {:induction false} CountAtMost(grid: seq<seq<bool>>, width: nat)
    requires forall j | 0 <= j < |grid| :: |grid[j]| == width
    ensures Count(grid) <= |grid| * width
  {
    if grid != [] {
      var last := |grid| - 1;
      CountAtMost(grid[..last], width);
      CountRowBound(grid[last]);
      RowsStep(last, width);
    }
  }

  /** When every bucket is claimed, the count is height * width. */
  lemma {:induction false} CountFull(grid: seq<seq<bool>>, width: nat)
    requires forall j | 0 <= j < |grid| :: |grid[j]| == width
    requires forall j, i | 0 <= j < |grid| && 0 <= i < width :: grid[j][i]
    ensures Count(grid) == |grid| * width
  {
    if grid != [] {
      var last := |grid| - 1;
      var init := grid[..last];
      assert forall j | 0 <= j < last :: init[j] == grid[j];
      CountFull(init, width);
      CountRowBound(grid[last]);
      RowsStep(last, width);
    }
  }

  /** When no bucket is claimed, the count is zero. */
  lemma {:induction false} CountEmpty(grid: seq<seq<bool>>)
    requires forall j, i | 0 <= j < |grid| && 0 <= i < |grid[j]| :: !grid[j][i]
    ensures Count(grid) == 0
  {
    if grid != [] {
      var last := |grid| - 1;
      var init := grid[..last];
      assert forall j | 0 <= j < last :: init[j] == grid[j];
      CountEmpty(init);
      CountRowBound(grid[last]);
    }
  }

  lemma RowsStep(rows: nat, width: nat)
    ensures (rows + 1) * width == rows * width + width
  {
  }

  // ---------------------------------------------------------------- the schedule

  /** A w-by-h claim grid, indexed [row][column], records exactly the buckets walk `e` has passed. */
  ghost predicate Tracks(grid: seq<seq<bool>>, e: Walk, w: nat, h: nat)
  {
    |grid| == h && (forall j | 0 <= j < h :: |grid[j]| == w) && Phase(e, w, h)
    && forall j, i {:trigger Visited(e, w, h, i, j)} | 0 <= j < h && 0 <= i < w ::
         grid[j][i] == Visited(e, w, h, i, j)
  }

  /** One step of the claim loop keeps the grid tracking the walk: leaving the grid means
      every bucket is claimed, a claimed bucket is passed over, and claiming a free one
      records it; inside the grid the walk's measure goes down. */
  lemma StepTracks(grid: seq<seq<bool>>, e: Walk, w: nat, h: nat)
    requires Tracks(grid, e, w, h)
    ensures var n := Advance(e, w, h);
      (!InGrid(n, w, h) ==>
         (Tracks(grid, n, w, h) && forall j, i | 0 <= j < h && 0 <= i < w :: grid[j][i]))
      && (InGrid(n, w, h) ==>
         (Below(n, e, w, h)
          && (grid[n.y][n.x] ==> Tracks(grid, n, w, h))
          && (!grid[n.y][n.x] ==> Tracks(grid[n.y := grid[n.y][n.x := true]], n, w, h))))
  {
    var n := Advance(e, w, h);
    if 1 <= w && 1 <= h {
      StepFacts(e, w, h);
      if !InGrid(n, w, h) {
        forall j, i | 0 <= j < h && 0 <= i < w
          ensures grid[j][i]
        {
          assert Visited(n, w, h, i, j) && Visited(e, w, h, i, j);
        }
      }
      if InGrid(n, w, h) && !grid[n.y][n.x] {
        var g := grid[n.y := grid[n.y][n.x := true]];
        forall j, i | 0 <= j < h && 0 <= i < w
          ensures g[j][i] == Visited(n, w, h, i, j)
        {
        }
      }
    }
  }

  /** The sizes the bucket grid is laid out with. */
  datatype Sizes = Sizes(bucketSize: nat, imageWidth: nat, imageHeight: nat, wCap: nat, hCap: nat, bucketCount: nat)

  /** The workers' shared statics: the claimed-bucket grid, the counters, the layout and
      the spiral generator's own state with its reset flag. */
  class Schedule {
    var buckets: seq<seq<bool>>
    var completed: nat
    var nextId: nat
    var bucketSize: nat
    var imageWidth: nat
    var imageHeight: nat
    var wCap: nat
    var hCap: nat
    var bucketCount: nat
    var renderFlag: bool
    var walk: Walk

    ghost function Layout(): Sizes
      reads this
    {
      Sizes(bucketSize, imageWidth, imageHeight, wCap, hCap, bucketCount)
    }

    /** The grid has hCap rows of wCap buckets. */
    ghost predicate Shaped()
      reads this
    {
      |buckets| == hCap && forall j | 0 <= j < hCap :: |buckets[j]| == wCap
    }

    /** The layout `createBuckets` computes. */
    ghost predicate Sized()
      reads this
    {
      bucketSize > 0 && wCap == CeilDiv(imageWidth, bucketSize) && hCap == CeilDiv(imageHeight, bucketSize)
      && bucketCount == hCap * wCap
    }

    /** The generator's state as the next call sees it (a pending reset restarts the walk). */
    ghost function Effective(): Walk
      reads this
    {
      if renderFlag then walk else Start
    }

    /** The schedule invariant: the claimed buckets are exactly those the walk has passed. */
    ghost predicate Valid()
      reads this
    {
      Shaped() && Tracks(buckets, Effective(), wCap, hCap)
    }

    ghost predicate AllClaimed()
      reads this
      requires Shaped()
    {
      forall j, i | 0 <= j < hCap && 0 <= i < wCap :: buckets[j][i]
    }

    /** The statics' initial values: everything zero, no grid, the generator at its reset state. */
    constructor ()
      ensures buckets == [] && completed == 0 && nextId == 0 && !renderFlag && walk == Start
      ensures Layout() == Sizes(0, 0, 0, 0, 0, 0) && Valid()
    {
      buckets := [];
      completed := 0;
      nextId := 0;
      bucketSize := 0;
      imageWidth := 0;
      imageHeight := 0;
      wCap := 0;
      hCap := 0;
      bucketCount := 0;
      renderFlag := false;
      walk := Start;
      new;
      StartFacts(0, 0);
    }

    /** `createBuckets`: lay out a fresh grid of unclaimed buckets for the image and
        schedule a reset of the walk. */
    method CreateBuckets(size: nat, width: nat, height: nat)
      requires size > 0
      modifies this
      ensures Valid() && Sized() && !renderFlag && walk == old(walk)
      ensures nextId == 0 && completed == 0
      ensures bucketSize == size && imageWidth == width && imageHeight == height
      ensures forall j | 0 <= j < hCap :: buckets[j] == seq(wCap, _ => false)
    {
      renderFlag := false;
      nextId := 0;
      completed := 0;
      bucketSize := size;
      imageWidth := width;
      imageHeight := height;
      wCap := (imageWidth + bucketSize - 1) / bucketSize;
      hCap := (imageHeight + bucketSize - 1) / bucketSize;
      bucketCount := hCap * wCap;
      var rows := if |buckets| >= hCap then buckets[..hCap] else buckets + seq(hCap - |buckets|, _ => []);
      var w := wCap;
      for j := 0 to |rows|
        invariant |rows| == hCap
        invariant forall j' | 0 <= j' < j :: rows[j'] == seq(w, _ => false)
      {
        rows := rows[j := seq(w, _ => false)];
      }
      buckets := rows;
      StartFacts(wCap, hCap);
    }

    /** `fecthNextBucket`: restart the walk if a reset is pending, turn at a ring edge,
        step, and report the new position. */
    method FetchNextBucket() returns (varX: int, varY: int)
      modifies this
      ensures renderFlag && walk == Advance(old(Effective()), wCap, hCap)
      ensures varX == walk.x && varY == walk.y
      ensures buckets == old(buckets) && completed == old(completed) && nextId == old(nextId)
      ensures Layout() == old(Layout())
    {
      if !renderFlag {
        walk := Start;
        renderFlag := true;
      }
      var x, y, dx, dy, cap := walk.x, walk.y, walk.dx, walk.dy, walk.cap;
      if (dx == 1 && x - wCap + cap + 1 == 0) || (dx == -1 && x == cap)
         || (dy == 1 && y - hCap + cap + 1 == 0) || (dy == -1 && y == cap)
      {
        var t := dx;
        dx := -dy;
        dy := t;
        if x == cap && y == hCap - cap - 1 {
          cap := cap + 1;
        }
      }
      x := x + dx;
      y := y + dy;
      walk := Walk(x, y, dx, dy, cap);
      varX, varY := x, y;
    }
  }

  /** `after` is `before` with the free bucket (i, j) claimed. */
  predicate ClaimOf(before: seq<seq<bool>>, after: seq<seq<bool>>, i: int, j: int)
  {
    0 <= j < |before| && 0 <= i < |before[j]| && !before[j][i]
    && after == before[j := before[j][i := true]]
  }

  /** The colour each pixel of a finished render should have. */
  type Picture = (nat, nat) -> Color

  /** The picture the workers render: each pixel's `PixelColor`. */
  function Frame(radiance: Radiance, sampleCount: nat): (p: Picture)
    requires sampleCount > 0
  {
    (c: nat, r: nat) => PixelColor(radiance, c, r, sampleCount)
  }

  /** Bucket (i, j) exists in the grid and is claimed. */
  predicate Claimed(grid: seq<seq<bool>>, i: int, j: int)
  {
    0 <= j < |grid| && 0 <= i < |grid[j]| && grid[j][i]
  }

  /** In a buffer of `width`-wide rows, every pixel of the first `width` by `height` whose
      bucket is claimed, other than those of bucket (bi, bj), holds its colour. */
  ghost predicate PaintedGrid(colors: seq<Color>, width: nat, height: nat, grid: seq<seq<bool>>, size: nat,
                              picture: Picture, bi: int, bj: int)
  {
    size > 0
    && forall c: nat, r: nat | c < width && r < height ::
         Claimed(grid, c / size, r / size) && !(c / size == bi && r / size == bj)
         ==> At(colors, width, c, r) == picture(c, r)
  }

  /** Claiming a bucket keeps every other claimed bucket painted. */
  lemma ClaimKeepsPainted(colors: seq<Color>, width: nat, height: nat, grid: seq<seq<bool>>, size: nat,
                          picture: Picture, bi: nat, bj: nat)
    requires PaintedGrid(colors, width, height, grid, size, picture, -1, -1)
    requires bj < |grid| && bi < |grid[bj]|
    ensures PaintedGrid(colors, width, height, grid[bj := grid[bj][bi := true]], size, picture, bi, bj)
  {
    var g := grid[bj := grid[bj][bi := true]];
    forall c: nat, r: nat | c < width && r < height && Claimed(g, c / size, r / size) && !(c / size == bi && r / size == bj)
      ensures Claimed(grid, c / size, r / size)
    {
    }
  }

  /** Filling the one unpainted bucket leaves every claimed bucket painted. */
  lemma RenderCompletesPainted(before: seq<Color>, after: seq<Color>, width: nat, height: nat,
                               grid: seq<seq<bool>>, size: nat, picture: Picture, bi: nat, bj: nat)
    requires PaintedGrid(before, width, height, grid, size, picture, bi, bj)
    requires forall c: nat, r: nat | c < width && r < height ::
      At(after, width, c, r) ==
        if bi * size <= c < bi * size + size && bj * size <= r < bj * size + size
        then picture(c, r) else At(before, width, c, r)
    ensures PaintedGrid(after, width, height, grid, size, picture, -1, -1)
  {
    forall c: nat, r: nat | c < width && r < height && Claimed(grid, c / size, r / size)
      ensures At(after, width, c, r) == picture(c, r)
    {
      BucketOf(c, size, bi);
      BucketOf(r, size, bj);
    }
  }

  /** The image holds the colour of every pixel of every claimed bucket but (bi, bj). */
  ghost predicate Painted(image: Image, s: Schedule, radiance: Radiance, sampleCount: nat, bi: int, bj: int)
    reads image, s
  {
    image.Valid() && s.Shaped() && sampleCount > 0
    && PaintedGrid(image.colors, image.width, image.height, s.buckets, s.bucketSize, Frame(radiance, sampleCount), bi, bj)
  }

  // ---------------------------------------------------------------- workers

  class Worker {
    const id: nat
    var blockX: nat
    var blockY: nat
    /** The statics every worker shares. */
    const schedule: Schedule

    /** `Worker()`: takes the next id, with its block at the origin. */
    constructor (schedule: Schedule)
      modifies schedule
      ensures this.schedule == schedule && id == old(schedule.nextId) && blockX == 0 && blockY == 0
      ensures schedule.nextId == old(schedule.nextId) + 1
      ensures schedule.buckets == old(schedule.buckets) && schedule.completed == old(schedule.completed)
      ensures schedule.renderFlag == old(schedule.renderFlag) && schedule.walk == old(schedule.walk)
      ensures schedule.Layout() == old(schedule.Layout())
      ensures old(schedule.Valid()) ==> schedule.Valid()
      ensures old(schedule.Sized()) ==> schedule.Sized()
    {
      id := schedule.nextId;
      blockX := 0;
      blockY := 0;
      this.schedule := schedule;
      new;
      schedule.nextId := schedule.nextId + 1;
    }

    /**
     * `assignBucket`: follow the spiral until it leaves the grid or reaches an
     * unclaimed bucket, and claim that one. A claim takes a bucket that was free
     * and changes nothing else in the grid; a failure leaves the grid as it was
     * and happens only once every bucket is claimed.
     */
    method AssignBucket() returns (hasAssigned: bool, ghost bi: int, ghost bj: int)
      requires schedule.Valid()
      modifies this, schedule
      ensures schedule.Valid() && schedule.renderFlag && schedule.Layout() == old(schedule.Layout())
      ensures schedule.completed == old(schedule.completed) && schedule.nextId == old(schedule.nextId)
      ensures hasAssigned ==>
        ClaimOf(old(schedule.buckets), schedule.buckets, bi, bj)
        && blockX == bi * schedule.bucketSize && blockY == bj * schedule.bucketSize
      ensures !hasAssigned ==>
        schedule.buckets == old(schedule.buckets) && blockX == old(blockX) && blockY == old(blockY)
        && schedule.AllClaimed()
    {
      hasAssigned, bi, bj := false, 0, 0;
      var s := schedule;
      ghost var w, h := s.wCap, s.hCap;
      ghost var e := s.Effective();
      while !hasAssigned
        invariant s.Layout() == old(s.Layout()) && s.completed == old(s.completed) && s.nextId == old(s.nextId)
        invariant e == s.Effective() && Tracks(s.buckets, e, w, h)
        invariant hasAssigned ==>
          s.renderFlag && ClaimOf(old(s.buckets), s.buckets, bi, bj)
          && blockX == bi * s.bucketSize && blockY == bj * s.bucketSize
        invariant !hasAssigned ==> s.buckets == old(s.buckets) && blockX == old(blockX) && blockY == old(blockY)
        decreases if hasAssigned then 0 else 1, CapRoom(e, w), Rank(e), Ahead(e, w, h)
      {
        StepTracks(s.buckets, e, w, h);
        var x, y := s.FetchNextBucket();
        e := s.walk;
        if y < 0 || y >= s.hCap || x < 0 || x >= s.wCap {
          break;
        }
        if !s.buckets[y][x] {
          blockX := BucketStart(x, s.bucketSize);
          blockY := BucketStart(y, s.bucketSize);
          s.buckets := s.buckets[y := s.buckets[y][x := true]];
          hasAssigned := true;
          bi, bj := x, y;
        }
      }
    }

    /** The pixel loops of one bucket: every image pixel of the block at (blockX, blockY)
        gets its colour, clipped at the image's right and bottom edges; no other pixel changes.
        So when the block is bucket (bi, bj) and it was the one unpainted claimed bucket,
        every claimed bucket is painted afterwards. */
    method RenderBucket(image: Image, radiance: Radiance, sampleCount: nat, ghost bi: nat, ghost bj: nat)
      requires image.Valid() && image.width == schedule.imageWidth && image.height == schedule.imageHeight
      requires sampleCount > 0
      modifies image
      ensures image.Valid() && image.width == old(image.width) && image.height == old(image.height)
      ensures forall c: nat, r: nat | c < image.width && r < image.height ::
        image.Pixel(c, r) ==
          if blockX <= c < blockX + schedule.bucketSize && blockY <= r < blockY + schedule.bucketSize
          then PixelColor(radiance, c, r, sampleCount) else old(image.Pixel(c, r))
      ensures blockX == bi * schedule.bucketSize && blockY == bj * schedule.bucketSize
        && PaintedGrid(old(image.colors), image.width, image.height, schedule.buckets, schedule.bucketSize,
                       Frame(radiance, sampleCount), bi, bj)
        ==> PaintedGrid(image.colors, image.width, image.height, schedule.buckets, schedule.bucketSize,
                        Frame(radiance, sampleCount), -1, -1)
    {
      ghost var before := image.colors;
      var size, width, height := schedule.bucketSize, schedule.imageWidth, schedule.imageHeight;
      for row := blockY to blockY + size
        invariant image.Valid() && image.width == width && image.height == height
        invariant forall c: nat, r: nat | c < width && r < height ::
          image.Pixel(c, r) ==
            if blockX <= c < blockX + size && blockY <= r < row
            then PixelColor(radiance, c, r, sampleCount) else old(image.Pixel(c, r))
      {
        for col := blockX to blockX + size
          invariant image.Valid() && image.width == width && image.height == height
          invariant forall c: nat, r: nat | c < width && r < height ::
            image.Pixel(c, r) ==
              if (blockX <= c < blockX + size && blockY <= r < row) || (r == row && blockX <= c < col)
              then PixelColor(radiance, c, r, sampleCount) else old(image.Pixel(c, r))
        {
          if row >= height || col >= width {
            break;
          }
          var color := SamplePixel(radiance, col, row, sampleCount);
          image.SetPixel(col, row, color);
        }
      }
      if blockX == bi * size && blockY == bj * size
         && PaintedGrid(before, width, height, schedule.buckets, size, Frame(radiance, sampleCount), bi, bj)
      {
        assert forall c: nat, r: nat | c < width && r < height ::
          At(image.colors, width, c, r) ==
            if bi * size <= c < bi * size + size && bj * size <= r < bj * size + size
            then Frame(radiance, sampleCount)(c, r) else At(before, width, c, r)
        by {
          forall c: nat, r: nat | c < width && r < height
            ensures At(image.colors, width, c, r) ==
              if bi * size <= c < bi * size + size && bj * size <= r < bj * size + size
              then Frame(radiance, sampleCount)(c, r) else At(before, width, c, r)
          {
            assert image.Pixel(c, r) == At(image.colors, width, c, r);
          }
        }
        RenderCompletesPainted(before, image.colors, width, height, schedule.buckets, size,
                               Frame(radiance, sampleCount), bi, bj);
      }
    }

    /**
     * `operator()`: claim and render buckets until none is left, counting each
     * rendered bucket; a raised stop flag ends the worker right after a claim,
     * before it writes a pixel. Without a stop, every bucket ends up claimed and
     * every pixel of every claimed bucket holds its colour.
     */
    method Run(image: Image, radiance: Radiance, sampleCount: nat, shouldStop: bool)
      requires schedule.Valid() && schedule.Sized() && |schedule.buckets| > 0
      requires image.width == schedule.imageWidth && image.height == schedule.imageHeight
      requires Painted(image, schedule, radiance, sampleCount, -1, -1)
      modifies this, schedule, image
      ensures schedule.Valid() && schedule.Sized() && schedule.Layout() == old(schedule.Layout())
      ensures schedule.nextId == old(schedule.nextId)
      ensures image.Valid() && image.width == old(image.width) && image.height == old(image.height)
      ensures shouldStop ==> image.colors == old(image.colors) && schedule.completed == old(schedule.completed)
      ensures !shouldStop ==> schedule.AllClaimed() && Painted(image, schedule, radiance, sampleCount, -1, -1)
      ensures !shouldStop ==>
        schedule.completed == old(schedule.completed) + Count(schedule.buckets) - Count(old(schedule.buckets))
    {
      var s := schedule;
      CountAtMost(s.buckets, s.wCap);
      while true
        invariant s.Valid() && s.Layout() == old(s.Layout()) && s.nextId == old(s.nextId)
        invariant image.Valid() && image.width == s.imageWidth && image.height == s.imageHeight
        invariant PaintedGrid(image.colors, image.width, image.height, s.buckets, s.bucketSize, Frame(radiance, sampleCount), -1, -1)
        invariant s.completed == old(s.completed) + Count(s.buckets) - Count(old(s.buckets))
        invariant Count(s.buckets) <= s.bucketCount
        invariant shouldStop ==> image.colors == old(image.colors) && s.completed == old(s.completed)
        decreases s.bucketCount - Count(s.buckets)
      {
        ghost var grid := s.buckets;
        var more, bi, bj := AssignBucket();
        if !more {
          break;
        }
        if shouldStop {
          return;
        }
        CountClaim(grid, bj, bi);
        CountAtMost(s.buckets, s.wCap);
        ClaimKeepsPainted(image.colors, image.width, image.height, grid, s.bucketSize,
                          Frame(radiance, sampleCount), bi, bj);
        RenderBucket(image, radiance, sampleCount, bi, bj);
        s.completed := s.completed + 1;
      }
    }
  }

  /** A grid with nothing claimed is vacuously painted. */
  lemma NothingClaimedPainted(colors: seq<Color>, width: nat, height: nat, grid: seq<seq<bool>>, size: nat,
                              picture: Picture)
    requires size > 0
    requires forall j, i | 0 <= j < |grid| && 0 <= i < |grid[j]| :: !grid[j][i]
    ensures PaintedGrid(colors, width, height, grid, size, picture, -1, -1)
  {
    assert forall i: int, j: int :: !Claimed(grid, i, j);
  }

  /** With every bucket claimed and painted, every pixel of the image holds its colour. */
  lemma AllPainted(colors: seq<Color>, width: nat, height: nat, grid: seq<seq<bool>>, size: nat,
                   picture: Picture)
    requires PaintedGrid(colors, width, height, grid, size, picture, -1, -1)
    requires |grid| == CeilDiv(height, size)
    requires forall j | 0 <= j < |grid| :: |grid[j]| == CeilDiv(width, size)
    requires forall j, i | 0 <= j < |grid| && 0 <= i < CeilDiv(width, size) :: grid[j][i]
    ensures forall c: nat, r: nat | c < width && r < height ::
      At(colors, width, c, r) == picture(c, r)
  {
    forall c: nat, r: nat | c < width && r < height
      ensures At(colors, width, c, r) == picture(c, r)
    {
      PixelInGrid(c, width, size);
      PixelInGrid(r, height, size);
      assert Claimed(grid, c / size, r / size);
    }
  }

  /**
   * The thread loop of `render`: start `threads` workers on the shared schedule,
   * with the stop flag lowered, and wait for each (run here one after another).
   * Afterwards every bucket is claimed and rendered when there was a worker, and
   * nothing changed when there was none.
   */
  method RunWorkers(img: Image, s: Schedule, radiance: Radiance, sampleCount: nat, threads: nat)
    requires s.Valid() && s.Sized() && |s.buckets| > 0
    requires img.width == s.imageWidth && img.height == s.imageHeight
    requires Painted(img, s, radiance, sampleCount, -1, -1)
    requires s.completed == Count(s.buckets)
    modifies img, s
    ensures s.Valid() && s.Sized() && s.Layout() == old(s.Layout())
    ensures img.Valid() && img.width == old(img.width) && img.height == old(img.height)
    ensures Painted(img, s, radiance, sampleCount, -1, -1)
    ensures s.completed == Count(s.buckets)
    ensures threads > 0 ==> s.AllClaimed()
    ensures threads == 0 ==> img.colors == old(img.colors) && s.completed == old(s.completed)
  {
    for i := 0 to threads
      invariant s.Valid() && s.Sized() && s.Layout() == old(s.Layout())
      invariant img.Valid() && img.width == old(img.width) && img.height == old(img.height)
      invariant Painted(img, s, radiance, sampleCount, -1, -1)
      invariant s.completed == Count(s.buckets)
      invariant i > 0 ==> s.AllClaimed()
      invariant i == 0 ==> img.colors == old(img.colors) && s.completed == old(s.completed)
    {
      var worker := new Worker(s);
      worker.Run(img, radiance, sampleCount, false);
    }
  }

  // ---------------------------------------------------------------- the renderer

  class Renderer {
    var image: Image
    /** `s_MaxDepth`: the bounce limit `traceRay` applies. */
    var maxDepth: nat
    /** `s_ShouldStop`: the flag workers check before each bucket. */
    var shouldStop: bool
    /** The workers' statics. */
    const schedule: Schedule

    /** `Renderer()`: a 1 by 1 image, with the statics at their initial values. */
    constructor ()
      ensures image.Valid() && image.width == 1 && image.height == 1
      ensures maxDepth == DefaultMaxDepth && !shouldStop
      ensures fresh(schedule) && schedule.Valid() && schedule.buckets == [] && schedule.completed == 0
    {
      image := new Image(1, 1, Default());
      maxDepth := DefaultMaxDepth;
      shouldStop := false;
      schedule := new Schedule();
    }

    /** `setMaxDepth`. */
    method SetMaxDepth(depth: nat)
      modifies this
      ensures maxDepth == depth && shouldStop == old(shouldStop) && image == old(image)
    {
      maxDepth := depth;
    }

    /** `shouldStop(stop)`: raise or lower the stop flag. */
    method SetShouldStop(stop: bool)
      modifies this
      ensures shouldStop == stop && maxDepth == old(maxDepth) && image == old(image)
    {
      shouldStop := stop;
    }

    /**
     * `render`: lower the stop flag, make a fresh image of the scene's resolution,
     * lay out the buckets and run the workers (as many as asked, or the hardware's
     * thread count for 0). With at least one worker every pixel ends up with its
     * colour and every bucket is counted as completed; with none the image keeps
     * its initial colour.
     */
    method Render(scene: Scene, radiance: Radiance, sampleCount: nat, threadCount: nat, hardwareThreads: nat)
      requires scene.settings.bucketSize > 0 && scene.settings.height > 0 && sampleCount > 0
      modifies this, schedule
      ensures fresh(image) && image.Valid()
      ensures image.width == scene.settings.width && image.height == scene.settings.height
      ensures !shouldStop && maxDepth == old(maxDepth)
      ensures (if threadCount == 0 then hardwareThreads else threadCount) > 0 ==>
        schedule.completed == schedule.bucketCount
        && forall c: nat, r: nat | c < image.width && r < image.height ::
             image.Pixel(c, r) == PixelColor(radiance, c, r, sampleCount)
      ensures (if threadCount == 0 then hardwareThreads else threadCount) == 0 ==>
        schedule.completed == 0
        && forall c: nat, r: nat | c < image.width && r < image.height :: image.Pixel(c, r) == Default()
    {
      shouldStop := false;
      var settings := scene.settings;
      var img := new Image(settings.width, settings.height, Default());
      image := img;
      ghost var blank := img.colors;
      assert forall c: nat, r: nat | c < img.width && r < img.height :: At(blank, img.width, c, r) == Default() by {
        forall c: nat, r: nat | c < img.width && r < img.height
          ensures At(blank, img.width, c, r) == Default()
        {
          assert img.Pixel(c, r) == Default();
        }
      }
      schedule.CreateBuckets(settings.bucketSize, settings.width, settings.height);
      var s := schedule;
      CountEmpty(s.buckets);
      NothingClaimedPainted(img.colors, img.width, img.height, s.buckets, s.bucketSize, Frame(radiance, sampleCount));
      var threads := if threadCount == 0 then hardwareThreads else threadCount;
      RunWorkers(img, s, radiance, sampleCount, threads);
      if threads > 0 {
        CountFull(s.buckets, s.wCap);
        AllPainted(img.colors, img.width, img.height, s.buckets, s.bucketSize, Frame(radiance, sampleCount));
      } else {
        assert img.colors == blank;
      }
    }
  }
}
