/**
 * The mesh as a surface: its vertex and index buffers, the box around
 * its vertices and the box of each triangle, `constructBVH`, which builds
 * the mesh's tree, and `isHit`, which walks that tree with an explicit
 * stack. The slab test of a box and the ray/triangle test are parameters.
 */
module MeshSurfaces {
  import opened Wrappers
  import opened Boxes
  import opened Pool
  import opened Trees
  import opened BvhSpec
  import opened Meshes
  import opened Surfaces

  /** `Vector3i`: the positions of a triangle's three vertices in the vertex buffer. */
  datatype Triangle = Triangle(v0: int, v1: int, v2: int)
  {
    /** `triangle[k]`, k 0, 1 or 2. */
    function At(k: nat): int
      requires k < 3
    {
      if k == 0 then v0 else if k == 1 then v1 else v2
    }
  }

  /** The triangle's vertices are positions of a buffer of `count` vertices. */
  predicate InBuffer(t: Triangle, count: nat)
  {
    0 <= t.v0 < count && 0 <= t.v1 < count && 0 <= t.v2 < count
  }

  /** The triangle's three corners, in index order. */
  function Corners(t: Triangle, vertices: seq<Vec3>): (c: seq<Vec3>)
    requires InBuffer(t, |vertices|)
    ensures |c| == 3 && forall k | 0 <= k < 3 :: c[k] == vertices[t.At(k)]
  {
    [vertices[t.v0], vertices[t.v1], vertices[t.v2]]
  }

  /** The box of a single point. */
  function PointBox(p: Vec3): Box
  {
    Box(p, p)
  }

  /** A box contains a point exactly when it contains the point's box. */
  lemma PointBoxContained(b: Box, p: Vec3)
    ensures ContainsPoint(b, p) <==> Contains(b, PointBox(p))
  {
  }

  /** A point of a box lies in every box containing it. */
  lemma PointInLarger(outer: Box, inner: Box, p: Vec3)
    requires Contains(outer, inner) && ContainsPoint(inner, p)
    ensures ContainsPoint(outer, p)
  {
    PointBoxContained(inner, p);
    ContainsTransitive(outer, inner, PointBox(p));
    PointBoxContained(outer, p);
  }

  /** A box containing `inner` and `last` holds every point `inner` holds, and `last`. */
  lemma ContainsEach(all: Box, inner: Box, init: seq<Vec3>, last: Vec3)
    requires Contains(all, inner) && ContainsPoint(all, last)
    requires forall k | 0 <= k < |init| :: ContainsPoint(inner, init[k])
    ensures forall k | 0 <= k < |init + [last]| :: ContainsPoint(all, (init + [last])[k])
  {
    forall k | 0 <= k < |init + [last]| ensures ContainsPoint(all, (init + [last])[k]) {
      if k < |init| {
        PointInLarger(all, inner, init[k]);
      }
    }
  }

  /** The componentwise min and max over `points`, combined in order from the first. */
  ghost function Bounds(points: seq<Vec3>): Box
    requires points != []
  {
    if |points| == 1 then PointBox(points[0])
    else Union(Bounds(points[..|points| - 1]), PointBox(points[|points| - 1]))
  }

  /** Every point lies in its bounds, and the bounds have min <= max on every axis. */
  lemma {:induction false} BoundsContainAll(points: seq<Vec3>)
    requires points != []
    ensures WellFormed(Bounds(points))
    ensures forall k | 0 <= k < |points| :: ContainsPoint(Bounds(points), points[k])
  {
    if |points| > 1 {
      var init := points[..|points| - 1];
      var last := points[|points| - 1];
      BoundsContainAll(init);
      UnionWellFormed(Bounds(init), PointBox(last));
      UnionContainsBoth(Bounds(init), PointBox(last));
      PointInLarger(Bounds(points), PointBox(last), last);
      assert points == init + [last];
      ContainsEach(Bounds(points), Bounds(init), init, last);
    }
  }

  /** The bounds are the smallest box holding every point. */
  lemma {:induction false} BoundsIsLeast(points: seq<Vec3>, c: Box)
    requires points != []
    requires forall k | 0 <= k < |points| :: ContainsPoint(c, points[k])
    ensures Contains(c, Bounds(points))
  {
    PointBoxContained(c, points[|points| - 1]);
    if |points| > 1 {
      var init := points[..|points| - 1];
      assert forall k | 0 <= k < |init| :: init[k] == points[k];
      BoundsIsLeast(init, c);
      UnionIsLeast(Bounds(init), PointBox(points[|points| - 1]), c);
    }
  }

  /** A triangle's box lies within the box of the whole vertex buffer. */
  lemma TriangleInMesh(t: Triangle, vertices: seq<Vec3>)
    requires InBuffer(t, |vertices|)
    ensures Contains(Bounds(vertices), Bounds(Corners(t, vertices)))
  {
    BoundsContainAll(vertices);
    BoundsIsLeast(Corners(t, vertices), Bounds(vertices));
  }

  // ------------------------------------------------------------ the traversal

  /**
   * The Moller-Trumbore part of `rayTriangleIntersection` for the triangle
   * at a position of the index buffer, back-face culling included: the hit
   * record it fills in, distance first, or none when the ray misses.
   */
  type TriangleTest = (int, Ray) -> Option<Context>

  /**
   * `rayTriangleIntersection(triangle, ray, context, minT, maxT, culling)`:
   * the candidate hit, rejected when its distance lies below `minT` or
   * above `maxT`.
   */
  function TriangleHit(test: TriangleTest, t: int, ray: Ray, minT: real, maxT: real): (r: Option<Context>)
    ensures r.Some? <==> test(t, ray).Some? && minT <= test(t, ray).value.distance <= maxT
    ensures r.Some? ==> r == test(t, ray)
  {
    match test(t, ray)
    case None => None
    case Some(c) => if c.distance < minT || c.distance > maxT then None else Some(c)
  }

  /** A node's box test: the slab test, then the check against the bound `maxT`. */
  predicate Passes(box: Box, slab: SlabTest, ray: Ray, maxT: real)
  {
    BoxHit(slab(box, ray), maxT).Some?
  }

  /**
   * The triangles the traversal tries below a node, in the order it tries
   * them: none when the node's box fails; the node's own triangles when it
   * holds some; otherwise those of the right subtree, then of the left one
   * (the right child is pushed last, so it is popped first).
   */
  function Reached(s: Shape, slab: SlabTest, ray: Ray, maxT: real): seq<int>
  {
    match s
    case Nil => []
    case Stub(box, value) => if Passes(box, slab, ray, maxT) then value else []
    case Branch(box, value, left, right) =>
      if !Passes(box, slab, ray, maxT) then []
      else if value != [] then value
      else Reached(right, slab, ray, maxT) + Reached(left, slab, ray, maxT)
  }

  /** The triangles still to be tried below the nodes on the stack, the top (last) node first. */
  function Pending(stack: seq<Shape>, slab: SlabTest, ray: Ray, maxT: real): seq<int>
  {
    if stack == [] then []
    else Reached(stack[|stack| - 1], slab, ray, maxT) + Pending(stack[..|stack| - 1], slab, ray, maxT)
  }

  /** The number of nodes on the stack and below them. */
  function StackSize(stack: seq<Shape>): nat
  {
    if stack == [] then 0 else Size(stack[|stack| - 1]) + StackSize(stack[..|stack| - 1])
  }

  /** The latest accepted hit and the running bound `innerMaxT`. */
  datatype SweepState = SweepState(found: Option<Context>, bound: real)

  /**
   * The triangles tried in order, starting from the float maximum: each
   * accepted hit replaces the one before it and its distance becomes the
   * bound for the triangles after it.
   */
  function Sweep(tris: seq<int>, test: TriangleTest, ray: Ray, minT: real): SweepState
  {
    if tris == [] then SweepState(None, FloatMax)
    else
      var before := Sweep(tris[..|tris| - 1], test, ray, minT);
      match TriangleHit(test, tris[|tris| - 1], ray, minT, before.bound)
      case Some(c) => SweepState(Some(c), c.distance)
      case None => before
  }

  /**
   * `Mesh::isHit` on the mesh's box and tree: a failed mesh-box test
   * answers no hit at once; otherwise the bound it reports is the bound of
   * every node's box test, and the reached triangles are swept.
   */
  function MeshHit(box: Box, s: Shape, slab: SlabTest, test: TriangleTest, ray: Ray, minT: real, maxT: real)
    : (r: Option<Context>)
    ensures BoxHit(slab(box, ray), maxT).None? ==> r.None?
  {
    match BoxHit(slab(box, ray), maxT)
    case None => None
    case Some(bound) => Sweep(Reached(s, slab, ray, bound), test, ray, minT).found
  }

  /** While nothing is accepted the bound stays at the float maximum; after an acceptance it is that hit's distance. */
  lemma {:induction false} SweepBound(tris: seq<int>, test: TriangleTest, ray: Ray, minT: real)
    ensures var s := Sweep(tris, test, ray, minT);
      (s.found.None? ==> s.bound == FloatMax) && (s.found.Some? ==> s.bound == s.found.value.distance)
  {
    if tris != [] {
      SweepBound(tris[..|tris| - 1], test, ray, minT);
    }
  }

  /** The sweep finds a hit iff some triangle is accepted under the float maximum. */
  lemma {:induction false} SweepMissIff(tris: seq<int>, test: TriangleTest, ray: Ray, minT: real)
    ensures Sweep(tris, test, ray, minT).found.None? <==> forall k | 0 <= k < |tris| :: TriangleHit(test, tris[k], ray, minT, FloatMax).None?
  {
    if tris != [] {
      var init := tris[..|tris| - 1];
      SweepMissIff(init, test, ray, minT);
      SweepBound(init, test, ray, minT);
      assert forall k | 0 <= k < |init| :: init[k] == tris[k];
    }
  }

  /**
   * `isHit` answers a hit iff the mesh-box test passes and some triangle
   * reached through nodes whose box tests passed is accepted.
   */
  lemma MeshHitIff(box: Box, s: Shape, slab: SlabTest, test: TriangleTest, ray: Ray, minT: real, maxT: real)
    ensures MeshHit(box, s, slab, test, ray, minT, maxT).Some? <==>
      BoxHit(slab(box, ray), maxT).Some? &&
      exists k | 0 <= k < |Reached(s, slab, ray, BoxHit(slab(box, ray), maxT).value)| ::
        TriangleHit(test, Reached(s, slab, ray, BoxHit(slab(box, ray), maxT).value)[k], ray, minT, FloatMax).Some?
  {
    if BoxHit(slab(box, ray), maxT).Some? {
      var bound := BoxHit(slab(box, ray), maxT).value;
      var r := Reached(s, slab, ray, bound);
      assert MeshHit(box, s, slab, test, ray, minT, maxT) == Sweep(r, test, ray, minT).found;
      SweepMissIff(r, test, ray, minT);
      if Sweep(r, test, ray, minT).found.Some? {
        var k :| 0 <= k < |r| && TriangleHit(test, r[k], ray, minT, FloatMax).Some?;
        assert TriangleHit(test, Reached(s, slab, ray, BoxHit(slab(box, ray), maxT).value)[k], ray, minT, FloatMax).Some?;
      } else {
        assert forall k | 0 <= k < |r| :: TriangleHit(test, r[k], ray, minT, FloatMax).None?;
      }
    }
  }

  /** Triangle k is accepted under the bound the sweep passes to it. */
  predicate AcceptedAt(tris: seq<int>, test: TriangleTest, ray: Ray, minT: real, k: nat)
    requires k < |tris|
  {
    TriangleHit(test, tris[k], ray, minT, Sweep(tris[..k], test, ray, minT).bound).Some?
  }

  /** Dropping the last triangle does not change what an earlier one saw. */
  lemma PrefixAccepted(tris: seq<int>, test: TriangleTest, ray: Ray, minT: real, k: nat)
    requires k < |tris| - 1
    ensures AcceptedAt(tris[..|tris| - 1], test, ray, minT, k) == AcceptedAt(tris, test, ray, minT, k)
    ensures tris[..|tris| - 1][..k] == tris[..k] && tris[..|tris| - 1][k] == tris[k]
  {
    assert tris[..|tris| - 1][..k] == tris[..k];
  }

  /**
   * Triangle k was accepted with the record the sweep reports, under the
   * bound then current, and every later triangle was rejected under its
   * bound.
   */
  predicate LastAccepted(tris: seq<int>, test: TriangleTest, ray: Ray, minT: real, k: nat)
    requires k < |tris|
  {
    TriangleHit(test, tris[k], ray, minT, Sweep(tris[..k], test, ray, minT).bound) == Sweep(tris, test, ray, minT).found &&
    forall j: nat | k < j < |tris| :: !AcceptedAt(tris, test, ray, minT, j)
  }

  /** The reported hit is the last acceptance. */
  lemma {:induction false} SweepLastAccepted(tris: seq<int>, test: TriangleTest, ray: Ray, minT: real)
    requires Sweep(tris, test, ray, minT).found.Some?
    ensures exists k: nat | k < |tris| :: LastAccepted(tris, test, ray, minT, k)
  {
    var n := |tris| - 1;
    var init := tris[..n];
    if AcceptedAt(tris, test, ray, minT, n) {
      assert LastAccepted(tris, test, ray, minT, n);
    } else {
      assert Sweep(tris, test, ray, minT) == Sweep(init, test, ray, minT);
      SweepLastAccepted(init, test, ray, minT);
      var k: nat :| k < |init| && LastAccepted(init, test, ray, minT, k);
      PrefixAccepted(tris, test, ray, minT, k);
      forall j: nat | k < j < |tris|
        ensures !AcceptedAt(tris, test, ray, minT, j)
      {
        if j < n {
          PrefixAccepted(tris, test, ray, minT, j);
        }
      }
      assert LastAccepted(tris, test, ray, minT, k);
    }
  }

  /** One more triangle never raises the bound: an accepted hit lies within the bound it was tested under. */
  lemma SweepStep(tris: seq<int>, test: TriangleTest, ray: Ray, minT: real)
    requires tris != []
    ensures Sweep(tris, test, ray, minT).bound <= Sweep(tris[..|tris| - 1], test, ray, minT).bound
  {
  }

  /** `innerMaxT` never grows along the sweep, from the float maximum down. */
  lemma {:induction false} SweepBoundShrinks(tris: seq<int>, test: TriangleTest, ray: Ray, minT: real, i: nat)
    requires i <= |tris|
    ensures Sweep(tris, test, ray, minT).bound <= Sweep(tris[..i], test, ray, minT).bound <= FloatMax
  {
    if i < |tris| {
      var init := tris[..|tris| - 1];
      assert init[..i] == tris[..i];
      SweepBoundShrinks(init, test, ray, minT, i);
      SweepStep(tris, test, ray, minT);
    } else {
      assert tris[..i] == tris;
      if tris != [] {
        SweepBoundShrinks(tris[..|tris| - 1], test, ray, minT, |tris| - 1);
        SweepStep(tris, test, ray, minT);
      }
    }
  }

  /** Every triangle the traversal tries is held by some node of the tree. */
  lemma {:induction false} ReachedAreLeaves(s: Shape, slab: SlabTest, ray: Ray, maxT: real)
    ensures forall i | i in Reached(s, slab, ray, maxT) :: i in Leaves(s)
  {
    match s
    case Nil =>
    case Stub(_, _) =>
    case Branch(_, _, left, right) =>
      ReachedAreLeaves(left, slab, ray, maxT);
      ReachedAreLeaves(right, slab, ray, maxT);
  }

  /** Only childless nodes hold triangles, and every node's box passes the test. */
  ghost predicate OpenTo(s: Shape, slab: SlabTest, ray: Ray, maxT: real)
  {
    match s
    case Nil => true
    case Stub(box, _) => Passes(box, slab, ray, maxT)
    case Branch(box, value, left, right) =>
      Passes(box, slab, ray, maxT) && (value != [] ==> left.Nil? && right.Nil?) &&
      OpenTo(left, slab, ray, maxT) && OpenTo(right, slab, ray, maxT)
  }

  /**
   * When every box passes, the traversal tries every triangle of every
   * leaf exactly as often as the leaves hold it.
   */
  lemma {:induction false} ReachedAll(s: Shape, slab: SlabTest, ray: Ray, maxT: real)
    requires OpenTo(s, slab, ray, maxT)
    ensures multiset(Reached(s, slab, ray, maxT)) == multiset(Leaves(s))
  {
    match s
    case Nil =>
    case Stub(_, _) =>
    case Branch(_, value, left, right) =>
      ReachedAll(left, slab, ray, maxT);
      ReachedAll(right, slab, ray, maxT);
      if value != [] {
        assert Leaves(s) == value + [] + [];
      }
  }

  /** In a tree the builder makes, only childless nodes hold triangles. */
  lemma {:induction false} BuiltLeavesChildless(cfg: Config, info: SplitInfo, depth: nat, deferAt: Option<nat>,
                                                slab: SlabTest, ray: Ray, maxT: real)
    requires IndicesIn(info.indices, |cfg.boxes|)
    requires forall b: Box :: Passes(b, slab, ray, maxT)
    decreases cfg.maxDepth - depth
    ensures OpenTo(BuildShape(cfg, info, depth, deferAt), slab, ray, maxT)
  {
    if info.indices == [] || IsLeaf(cfg, info, depth) || (deferAt.Some? && depth >= deferAt.value) {
    } else {
      var p := SplitVolume(cfg.boxes, info, depth);
      BuiltLeavesChildless(cfg, p.left, depth + 1, deferAt, slab, ray, maxT);
      BuiltLeavesChildless(cfg, p.right, depth + 1, deferAt, slab, ray, maxT);
    }
  }

  /** Popping the top of the stack: its triangles come first, then the rest. */
  lemma PendingPop(stack: seq<Shape>, slab: SlabTest, ray: Ray, maxT: real)
    requires stack != []
    ensures Pending(stack, slab, ray, maxT) ==
            Reached(stack[|stack| - 1], slab, ray, maxT) + Pending(stack[..|stack| - 1], slab, ray, maxT)
    ensures StackSize(stack) == Size(stack[|stack| - 1]) + StackSize(stack[..|stack| - 1])
  {
  }

  /** Pushing one node on the stack puts its triangles in front. */
  lemma PendingPush(stack: seq<Shape>, s: Shape, slab: SlabTest, ray: Ray, maxT: real)
    ensures Pending(stack + [s], slab, ray, maxT) == Reached(s, slab, ray, maxT) + Pending(stack, slab, ray, maxT)
    ensures StackSize(stack + [s]) == Size(s) + StackSize(stack)
  {
    assert (stack + [s])[..|stack|] == stack;
  }

  /**
   * A child is pushed exactly when it is not empty; either way its
   * triangles come before those already on the stack.
   */
  lemma ChildPushed(before: seq<Shape>, after: seq<Shape>, c: Shape, slab: SlabTest, ray: Ray, maxT: real)
    requires after == if c.Nil? then before else before + [c]
    ensures Pending(after, slab, ray, maxT) == Reached(c, slab, ray, maxT) + Pending(before, slab, ray, maxT)
    ensures StackSize(after) == Size(c) + StackSize(before)
  {
    if !c.Nil? {
      PendingPush(before, c, slab, ray, maxT);
    } else {
      assert Reached(c, slab, ray, maxT) == [];
    }
  }

  /** Every node on the stack is a node of the memory that realizes the closed shape beside it. */
  ghost predicate OnStack(cells: map<Chunk, Node>, nodes: seq<Ref>, shapes: seq<Shape>)
  {
    |nodes| == |shapes| &&
    forall k | 0 <= k < |nodes| :: nodes[k].Ptr? && Realizes(cells, nodes[k], shapes[k]) && Closed(shapes[k])
  }

  /**
   * The top of the stack is a branch node whose box and value are those
   * of its shape, and whose children are null exactly where the shape's
   * subtrees are empty; the rest of the stack stays on the stack.
   */
  lemma StackPop(cells: map<Chunk, Node>, nodes: seq<Ref>, shapes: seq<Shape>)
    requires OnStack(cells, nodes, shapes) && nodes != []
    ensures OnStack(cells, nodes[..|nodes| - 1], shapes[..|shapes| - 1])
    ensures var r, s := nodes[|nodes| - 1], shapes[|shapes| - 1];
      s.Branch? && r.chunk in cells && cells[r.chunk].box == s.box && cells[r.chunk].value == s.value &&
      Realizes(cells, cells[r.chunk].left, s.left) && Closed(s.left) && (cells[r.chunk].left.Null? <==> s.left.Nil?) &&
      Realizes(cells, cells[r.chunk].right, s.right) && Closed(s.right) && (cells[r.chunk].right.Null? <==> s.right.Nil?)
  {
    var r, s := nodes[|nodes| - 1], shapes[|shapes| - 1];
    assert Realizes(cells, r, s) && Closed(s);
    match s
    case Branch(_, _, left, right) =>
      match left {
        case Nil =>
        case Branch(_, _, _, _) =>
        case Stub(_, _) =>
      }
      match right {
        case Nil =>
        case Branch(_, _, _, _) =>
        case Stub(_, _) =>
      }
  }

  /** Pushing a node of the memory with its closed shape keeps the stack well formed. */
  lemma StackPush(cells: map<Chunk, Node>, nodes: seq<Ref>, shapes: seq<Shape>, r: Ref, s: Shape)
    requires OnStack(cells, nodes, shapes) && r.Ptr? && Realizes(cells, r, s) && Closed(s)
    ensures OnStack(cells, nodes + [r], shapes + [s])
  {
  }

  /**
   * After popping the branch `s`, what is left to try: nothing of `s`
   * when its box fails, its own triangles when it holds some, otherwise
   * its right subtree's triangles, then its left subtree's.
   */
  lemma Popped(tried: seq<int>, s: Shape, rest: seq<Shape>, slab: SlabTest, ray: Ray, maxT: real, all: seq<int>)
    requires s.Branch?
    requires tried + (Reached(s, slab, ray, maxT) + Pending(rest, slab, ray, maxT)) == all
    ensures !Passes(s.box, slab, ray, maxT) ==> tried + Pending(rest, slab, ray, maxT) == all
    ensures Passes(s.box, slab, ray, maxT) && s.value != [] ==>
      (tried + s.value) + Pending(rest, slab, ray, maxT) == all
    ensures Passes(s.box, slab, ray, maxT) && s.value == [] ==>
      tried + (Reached(s.right, slab, ray, maxT) + (Reached(s.left, slab, ray, maxT) + Pending(rest, slab, ray, maxT))) == all
  {
  }

  /**
   * The inner loop of the mesh traversal: every triangle of one leaf is
   * tested against the closest distance accepted so far, which shrinks
   * with each accepted hit.
   */
  method TestTriangles(test: TriangleTest, ray: Ray, minT: real, context: Context, ghost tried: seq<int>,
                       triangles: seq<int>, isHit: bool, result: Context, innerMaxT: real)
    returns (isHit': bool, result': Context, innerMaxT': real)
    requires Sweep(tried, test, ray, minT) == SweepState(if isHit then Some(result) else None, innerMaxT)
    requires !isHit ==> result == context
    ensures Sweep(tried + triangles, test, ray, minT) == SweepState(if isHit' then Some(result') else None, innerMaxT')
    ensures !isHit' ==> result' == context
  {
    isHit', result', innerMaxT' := isHit, result, innerMaxT;
    assert tried + triangles[..0] == tried;
    for i := 0 to |triangles|
      invariant Sweep(tried + triangles[..i], test, ray, minT) ==
                SweepState(if isHit' then Some(result') else None, innerMaxT')
      invariant !isHit' ==> result' == context
    {
      assert (tried + triangles[..i + 1])[..|tried| + i] == tried + triangles[..i];
      var accepted := TriangleHit(test, triangles[i], ray, minT, innerMaxT');
      if accepted.Some? {
        isHit', result' := true, accepted.value;
        innerMaxT' := result'.distance;
      }
    }
    assert triangles[..|triangles|] == triangles;
  }

  // ------------------------------------------------------------ construction

  /** Every triangle's vertices are positions of a buffer of `count` vertices. */
  predicate AllInBuffer(triangles: seq<Triangle>, count: nat)
  {
    forall k | 0 <= k < |triangles| :: InBuffer(triangles[k], count)
  }

  /** The index list `0, 1, …, n - 1`. */
  function Identity(n: nat): (ids: seq<int>)
    ensures |ids| == n && forall k | 0 <= k < n :: ids[k] == k
    ensures IndicesIn(ids, n)
  {
    seq(n, k => k)
  }

  /** The box of each triangle, in index-buffer order. */
  ghost function TriangleBoxes(triangles: seq<Triangle>, vertices: seq<Vec3>): (boxes: seq<Box>)
    requires AllInBuffer(triangles, |vertices|)
    ensures |boxes| == |triangles|
    ensures forall k | 0 <= k < |triangles| :: boxes[k] == Bounds(Corners(triangles[k], vertices))
  {
    seq(|triangles|, k requires 0 <= k < |triangles| => Bounds(Corners(triangles[k], vertices)))
  }

  /**
   * The tree `constructBVH` builds over the mesh: every triangle, in the
   * mesh's box, from depth 0, with nodes deferred at `deferAt`.
   */
  ghost function MeshTree(vertices: seq<Vec3>, triangles: seq<Triangle>, box: Box, maxPerLeaf: nat, maxDepth: nat,
                          deferAt: Option<nat>): Shape
    requires AllInBuffer(triangles, |vertices|)
  {
    BuildShape(Config(TriangleBoxes(triangles, vertices), maxPerLeaf, maxDepth),
               SplitInfo(box, Identity(|triangles|)), 0, deferAt)
  }

  /**
   * Over the box of the vertex buffer every triangle's box is proper and
   * touches the root, so no childless node of the mesh's tree is empty.
   */
  lemma MeshLeavesHoldTriangles(vertices: seq<Vec3>, triangles: seq<Triangle>, maxPerLeaf: nat, maxDepth: nat,
                                deferAt: Option<nat>)
    requires vertices != [] && AllInBuffer(triangles, |vertices|)
    ensures LeavesHoldTriangles(MeshTree(vertices, triangles, Bounds(vertices), maxPerLeaf, maxDepth, deferAt))
  {
    var cfg := Config(TriangleBoxes(triangles, vertices), maxPerLeaf, maxDepth);
    var root := SplitInfo(Bounds(vertices), Identity(|triangles|));
    forall k | 0 <= k < |root.indices|
      ensures WellFormed(cfg.boxes[root.indices[k]]) && Overlaps(root.box, cfg.boxes[root.indices[k]])
    {
      var t := triangles[k];
      BoundsContainAll(Corners(t, vertices));
      TriangleInMesh(t, vertices);
      ContainedOverlaps(Bounds(vertices), Bounds(Corners(t, vertices)));
    }
    LeavesNonEmpty(cfg, root, 0, deferAt);
  }

  /** A tree built without deferral has no open nodes. */
  lemma {:induction false} SequentialClosed(cfg: Config, info: SplitInfo, depth: nat)
    requires IndicesIn(info.indices, |cfg.boxes|)
    decreases cfg.maxDepth - depth
    ensures Closed(BuildShape(cfg, info, depth, None))
  {
    if info.indices != [] && !IsLeaf(cfg, info, depth) {
      var p := SplitVolume(cfg.boxes, info, depth);
      SequentialClosed(cfg, p.left, depth + 1);
      SequentialClosed(cfg, p.right, depth + 1);
    }
  }

  /** With no node deferred, the first pass already is the sequential tree. */
  lemma NothingDeferred(cfg: Config, info: SplitInfo, d: nat)
    requires IndicesIn(info.indices, |cfg.boxes|)
    requires Deferred(cfg, info, 0, d) == []
    ensures BuildShape(cfg, info, 0, Some(d)) == BuildShape(cfg, info, 0, None)
  {
    ConcurrentBuildIsSequential(cfg, info, 0, d);
    FillNoStubs(BuildShape(cfg, info, 0, Some(d)));
  }

  /**
   * Right after the first pass, whose nodes realize `s` from `r`, the
   * records and the main tree are ready for the workers: the records are
   * to be completed with the completions of the deferred nodes, placed in
   * the stubs of `s`.
   */
  lemma WorkersReady(builder: TreeBuilder, info: SplitInfo, main: BoundaryTree, r: Ref)
    requires IndicesIn(info.indices, |builder.triangleBoxes|)
    requires var s := BuildShape(builder.Cfg(), info, 0, Some(builder.startingDepth));
      Realizes(main.mem.cells, r, s) && NoDup(Chunks(main.mem.cells, r, s)) &&
      Recorded([], builder.workers.workerNodes, Deferred(builder.Cfg(), info, 0, builder.startingDepth),
               StubChunks(main.mem.cells, r, s))
    requires ReadyFor(builder.workers, main) && main.Allocatable()
    ensures var s := BuildShape(builder.Cfg(), info, 0, Some(builder.startingDepth));
      builder.Working(main, main.mem.cells, StubChunks(main.mem.cells, r, s),
                      Completions(builder.Cfg(), Deferred(builder.Cfg(), info, 0, builder.startingDepth),
                                  builder.startingDepth, builder.startingDepth + 1), [])
  {
    var cfg, d := builder.Cfg(), builder.startingDepth;
    var cells := main.mem.cells;
    var s := BuildShape(cfg, info, 0, Some(d));
    var ws := builder.workers.workerNodes;
    var infos := Deferred(cfg, info, 0, d);
    var roots := StubChunks(cells, r, s);
    assert ws[0..] == ws;
    CompletesOf(cfg, ws, infos, d);
    StubChunksOfRealized(cells, r, s);
    ChunksOfRealized(cells, r, s);
    StubChunksNoDup(cells, r, s);
    ProgressStart(cells, roots, Completions(cfg, infos, d, d + 1));
    PhaseStart(builder.workers, main);
  }

  /**
   * The first pass takes fewer chunks than one block holds, so the main
   * tree's allocator has a free chunk left for the blocks handed to it.
   */
  lemma FirstPassLeavesRoom(cfg: Config, info: SplitInfo, main: BoundaryTree, r: Ref)
    requires IndicesIn(info.indices, |cfg.boxes|) && r.Ptr? && main.Allocatable()
    requires var s := BuildShape(cfg, info, 0, Some(ConcurrencyDepth));
      Realizes(main.mem.cells, r, s) && NoDup(Chunks(main.mem.cells, r, s)) &&
      main.alloc.issued == set c | c in Chunks(main.mem.cells, r, s)
    ensures main.alloc.freeList != []
  {
    var s := BuildShape(cfg, info, 0, Some(ConcurrencyDepth));
    ChunksOfRealized(main.mem.cells, r, s);
    NoDupCard(Chunks(main.mem.cells, r, s));
    MeshFirstPassBound(cfg, info);
    main.FreeChunkRemains();
  }

  /**
   * Once every record is completed, the nodes of the first pass keep
   * their boxes and values, those that are not stubs keep their links,
   * and every stub has its completion attached.
   */
  lemma ProgressKept(c0: map<Chunk, Node>, cells: map<Chunk, Node>, r: Ref, s: Shape, comps: seq<(Shape, Shape)>,
                     added: seq<seq<Chunk>>)
    requires Realizes(c0, r, s) && NoDup(Chunks(c0, r, s))
    requires Progress(c0, cells, StubChunks(c0, r, s), comps, added) && |added| == StubCount(s)
    ensures Kept(c0, cells, r, s) && |comps| == StubCount(s)
    ensures AttachedAll(cells, StubChunks(c0, r, s), comps, added)
  {
    var roots := StubChunks(c0, r, s);
    StubChunksOfRealized(c0, r, s);
    ChunksOfRealized(c0, r, s);
    assert roots[..|added|] == roots && comps[..|added|] == comps;
    forall c | c in Chunks(c0, r, s) && c in roots
      ensures c in cells && cells[c].box == c0[c].box && cells[c].value == c0[c].value
    {
      var j :| 0 <= j < |roots| && roots[j] == c;
    }
  }

  /**
   * Once every record is completed, the first pass's nodes with the
   * attached subtrees realize the sequential tree, each node once.
   */
  lemma WorkersFilled(cfg: Config, info: SplitInfo, d: nat, c0: map<Chunk, Node>, cells: map<Chunk, Node>, r: Ref,
                      added: seq<seq<Chunk>>)
    requires IndicesIn(info.indices, |cfg.boxes|)
    requires Realizes(c0, r, BuildShape(cfg, info, 0, Some(d))) && NoDup(Chunks(c0, r, BuildShape(cfg, info, 0, Some(d))))
    requires Progress(c0, cells, StubChunks(c0, r, BuildShape(cfg, info, 0, Some(d))),
                      Completions(cfg, Deferred(cfg, info, 0, d), d, d + 1), added)
    requires |added| == StubCount(BuildShape(cfg, info, 0, Some(d)))
    ensures Realizes(cells, r, BuildShape(cfg, info, 0, None))
    ensures NoDup(Chunks(cells, r, BuildShape(cfg, info, 0, None)))
  {
    var s := BuildShape(cfg, info, 0, Some(d));
    var comps := Completions(cfg, Deferred(cfg, info, 0, d), d, d + 1);
    ProgressKept(c0, cells, r, s, comps, added);
    FillRealizes(c0, cells, r, s, comps);
    FillChunks(c0, cells, r, s, comps, added);
    ConcurrentBuildIsSequential(cfg, info, 0, d);
    NoDupAppend(Chunks(c0, r, s), Flatten(added));
    assert multiset(Chunks(c0, r, s) + Flatten(added)) == multiset(Chunks(c0, r, s)) + multiset(Flatten(added));
    MultisetNoDup(Chunks(c0, r, s) + Flatten(added), Chunks(cells, r, BuildShape(cfg, info, 0, None)));
  }

  /** No block of `a` is a block of `b`. */
  ghost predicate BlocksApart(a: PoolAllocator, b: PoolAllocator)
    reads a, b
  {
    forall x | x in a.blocks :: x !in b.blocks
  }

  /**
   * The workers from the `j`-th on hold allocators that may be handed
   * over to `main`'s: each is in working order and shares no block with
   * `main`'s allocator nor with another worker's.
   */
  ghost predicate Mergeable(wi: WorkerInfo, main: BoundaryTree, j: nat)
    reads wi, wi.trees, wi.allocs, main, main.alloc
  {
    var ws := wi.workerNodes;
    (forall i | j <= i < |ws| :: ws[i].bvh in wi.trees && ws[i].bvh.alloc in wi.allocs) &&
    (forall i | j <= i < |ws| :: BlocksApart(ws[i].bvh.alloc, main.alloc)) &&
    (forall i, k | j <= i < |ws| && j <= k < |ws| && i != k :: BlocksApart(ws[i].bvh.alloc, ws[k].bvh.alloc))
  }

  /**
   * Once every worker has finished, every worker tree and the main tree
   * may hand over and receive blocks.
   */
  lemma ReadyToTransfer(wi: WorkerInfo, main: BoundaryTree, k: nat)
    requires TreesApart(wi, main) && PhaseHoldings(Holdings(wi), HoldingOf(main), main.mem.cells, k)
    ensures main.Allocatable() && Mergeable(wi, main, 0)
    ensures forall j | 0 <= j < |wi.workerNodes| :: wi.workerNodes[j].bvh.Allocatable()
  {
    var ws := wi.workerNodes;
    AllocatableSound(main);
    forall j | 0 <= j < |ws| ensures Holdings(wi)[j] == HoldingOf(ws[j].bvh) {
      HoldingAt(wi, j);
    }
    forall j | 0 <= j < |ws| ensures ws[j].bvh.Allocatable() {
      AllocatableSound(ws[j].bvh);
      EmptySound(main.mem.cells);
    }
  }

  /** A valid tree with no nodes and no blocks left. */
  ghost predicate Emptied(t: BoundaryTree)
    reads t, t.alloc, t.mem
  {
    t.Valid() && t.root == Null && t.alloc.blocks == []
  }

  /**
   * The last loop of `constructBVH`: every worker tree hands its blocks
   * to the main tree's allocator, so that the main tree frees them when
   * it is destroyed, and is left empty.
   */
  method TransferWorkerBlocks(wi: WorkerInfo, main: BoundaryTree)
    requires TreesApart(wi, main) && Mergeable(wi, main, 0)
    requires main.Allocatable() && main.alloc.freeList != []
    requires forall j | 0 <= j < |wi.workerNodes| :: wi.workerNodes[j].bvh.Allocatable()
    modifies wi.trees, wi.allocs, main.alloc
    ensures main.Allocatable() && main.alloc.freeList != []
    ensures forall j, b | 0 <= j < |wi.workerNodes| && b in old(wi.workerNodes[j].bvh.alloc.blocks) :: b in main.alloc.blocks
    ensures forall j | 0 <= j < |wi.workerNodes| :: Emptied(wi.workerNodes[j].bvh)
  {
    ghost var ws := wi.workerNodes;
    for j := 0 to |wi.workerNodes|
      invariant wi.workerNodes == ws && TreesApart(wi, main) && Mergeable(wi, main, j)
      invariant main.Allocatable() && main.alloc.freeList != []
      invariant forall i | j <= i < |ws| :: ws[i].bvh.Allocatable() && ws[i].bvh.alloc.blocks == old(ws[i].bvh.alloc.blocks)
      invariant forall i, b | 0 <= i < j && b in old(ws[i].bvh.alloc.blocks) :: b in main.alloc.blocks
      invariant forall i | 0 <= i < j :: Emptied(ws[i].bvh)
    {
      HandOver(wi, main, j);
    }
  }

  /** One turn of that loop: the `j`-th worker tree hands its blocks over. */
  method HandOver(wi: WorkerInfo, main: BoundaryTree, j: nat)
    requires TreesApart(wi, main) && Mergeable(wi, main, j) && j < |wi.workerNodes|
    requires main.Allocatable() && main.alloc.freeList != [] && wi.workerNodes[j].bvh.Allocatable()
    modifies wi.workerNodes[j].bvh, wi.workerNodes[j].bvh.alloc, main.alloc
    ensures Mergeable(wi, main, j + 1) && main.Allocatable() && main.alloc.freeList != []
    ensures main.alloc.blocks == old(main.alloc.blocks) + old(wi.workerNodes[j].bvh.alloc.blocks)
    ensures Emptied(wi.workerNodes[j].bvh)
  {
    var ws := wi.workerNodes;
    assert forall i | j < i < |ws| :: ws[i].bvh.alloc != ws[j].bvh.alloc && ws[i].bvh.alloc != main.alloc;
    ws[j].bvh.TransferAllocatedBlocks(main);
  }

  /**
   * The hand-over loop of `constructBVH` after the workers are done: every
   * worker tree gives its blocks to the main tree, which keeps its nodes.
   */
  method HandOverAll(wi: WorkerInfo, main: BoundaryTree, ghost done: nat)
    requires TreesApart(wi, main) && PhaseHoldings(Holdings(wi), HoldingOf(main), main.mem.cells, done)
    requires main.alloc.freeList != []
    modifies wi.trees, wi.allocs, main.alloc
    ensures main.Allocatable() && main.alloc.freeList != []
    ensures forall j, b | 0 <= j < |wi.workerNodes| && b in old(wi.workerNodes[j].bvh.alloc.blocks) :: b in main.alloc.blocks
    ensures forall j | 0 <= j < |wi.workerNodes| :: Emptied(wi.workerNodes[j].bvh)
    ensures main.mem.cells == old(main.mem.cells) && main.mem.destroyed == old(main.mem.destroyed)
  {
    ReadyToTransfer(wi, main, done);
    TransferWorkerBlocks(wi, main);
  }

  /** Before `startConcurrency`: the main tree keeps a free chunk and every record is ready to be completed. */
  lemma DeferredReady(builder: TreeBuilder, info: SplitInfo, main: BoundaryTree, root: Ref)
    requires builder.startingDepth == ConcurrencyDepth
    requires IndicesIn(info.indices, |builder.triangleBoxes|) && builder.workers.workerNodes != []
    requires var s := BuildShape(builder.Cfg(), info, 0, Some(ConcurrencyDepth));
      Realizes(main.mem.cells, root, s) && NoDup(Chunks(main.mem.cells, root, s)) &&
      Recorded([], builder.workers.workerNodes, Deferred(builder.Cfg(), info, 0, ConcurrencyDepth),
               StubChunks(main.mem.cells, root, s)) &&
      main.alloc.issued == set c | c in Chunks(main.mem.cells, root, s)
    requires ReadyFor(builder.workers, main) && main.Allocatable()
    ensures main.alloc.freeList != []
    ensures |builder.workers.workerNodes| == StubCount(BuildShape(builder.Cfg(), info, 0, Some(ConcurrencyDepth)))
    ensures var s := BuildShape(builder.Cfg(), info, 0, Some(ConcurrencyDepth));
      builder.Working(main, main.mem.cells, StubChunks(main.mem.cells, root, s),
                      Completions(builder.Cfg(), Deferred(builder.Cfg(), info, 0, ConcurrencyDepth),
                                  ConcurrencyDepth, ConcurrencyDepth + 1), [])
  {
    FirstPassLeavesRoom(builder.Cfg(), info, main, root);
    WorkersReady(builder, info, main, root);
  }

  /**
   * The worker phase of `constructBVH`, once the first pass has deferred
   * some nodes: the workers complete them (`startConcurrency`), then every
   * worker tree hands its blocks to the main tree. With at least one
   * thread the main tree's root then realizes the tree built without
   * deferral, with every node distinct.
   */
  method CompleteDeferred(builder: TreeBuilder, info: SplitInfo, main: BoundaryTree, root: Ref, hardwareThreads: nat)
    requires builder.startingDepth == ConcurrencyDepth && builder.nextNode == 0
    requires IndicesIn(info.indices, |builder.triangleBoxes|) && builder.workers.workerNodes != []
    requires var s := BuildShape(builder.Cfg(), info, 0, Some(ConcurrencyDepth));
      Realizes(main.mem.cells, root, s) && NoDup(Chunks(main.mem.cells, root, s)) &&
      Recorded([], builder.workers.workerNodes, Deferred(builder.Cfg(), info, 0, ConcurrencyDepth),
               StubChunks(main.mem.cells, root, s)) &&
      main.alloc.issued == set c | c in Chunks(main.mem.cells, root, s)
    requires ReadyFor(builder.workers, main) && main.Allocatable()
    modifies builder, builder.workers.trees, builder.workers.allocs, main.mem, main.alloc
    ensures main.Allocatable() && main.mem.destroyed == old(main.mem.destroyed)
    ensures hardwareThreads > 0 ==>
      var s := BuildShape(builder.Cfg(), info, 0, None);
      Realizes(main.mem.cells, root, s) && NoDup(Chunks(main.mem.cells, root, s))
  {
    var workerInfo := builder.workers;
    ghost var cfg := builder.Cfg();
    ghost var first := BuildShape(cfg, info, 0, Some(ConcurrencyDepth));
    ghost var c0 := main.mem.cells;
    ghost var roots := StubChunks(c0, root, first);
    ghost var comps := Completions(cfg, Deferred(cfg, info, 0, ConcurrencyDepth), ConcurrencyDepth,
                                   ConcurrencyDepth + 1);
    DeferredReady(builder, info, main, root);
    ghost var added := builder.StartConcurrency(0, hardwareThreads, main, c0, roots, comps);
    ghost var cells := main.mem.cells;
    HandOverAll(workerInfo, main, |added|);
    if hardwareThreads > 0 {
      WorkersFilled(cfg, info, ConcurrencyDepth, c0, cells, root, added);
    }
  }

  /**
   * The tree building of `constructBVH` on a cleared tree: the first pass
   * up to the concurrency depth, and the worker phase when it deferred
   * any node. With at least one thread, or when nothing was deferred,
   * the root then realizes the tree built without deferral, with every
   * node distinct.
   */
  method BuildHierarchy(bvh: BoundaryTree, triangleBoxes: seq<Box>, info: SplitInfo, maxPerLeaf: nat, maxDepth: nat,
                        hardwareThreads: nat)
    requires bvh.Valid() && bvh.root == Null && bvh.shape == Nil && bvh.alloc.issued == {}
    requires IndicesIn(info.indices, |triangleBoxes|)
    modifies bvh, bvh.alloc, bvh.mem
    ensures bvh.Allocatable() && bvh.shape == Nil && bvh.mem.destroyed == old(bvh.mem.destroyed)
    ensures var cfg := Config(triangleBoxes, maxPerLeaf, maxDepth);
      hardwareThreads > 0 || StubCount(BuildShape(cfg, info, 0, Some(ConcurrencyDepth))) == 0 ==>
        Realizes(bvh.mem.cells, bvh.root, BuildShape(cfg, info, 0, None)) &&
        Closed(BuildShape(cfg, info, 0, None)) &&
        NoDup(Chunks(bvh.mem.cells, bvh.root, BuildShape(cfg, info, 0, None)))
  {
    var workerInfo := new WorkerInfo(ConcurrencyDepth);
    var builder := new TreeBuilder(workerInfo, triangleBoxes, maxPerLeaf, ConcurrencyDepth, maxDepth);
    ghost var cfg := builder.Cfg();
    ghost var first := BuildShape(cfg, info, 0, Some(ConcurrencyDepth));
    var root := builder.BuildTree(info, bvh, workerInfo, 0);
    assert workerInfo.workerNodes[0..] == workerInfo.workerNodes;
    SequentialClosed(cfg, info, 0);
    if workerInfo.workerNodes == [] {
      NothingDeferred(cfg, info, ConcurrencyDepth);
    } else {
      assert StubCount(first) != 0;
      CompleteDeferred(builder, info, bvh, root, hardwareThreads);
    }
  }

  // ------------------------------------------------------------ the mesh

  /**
   * `Mesh`: the vertex and index buffers, the box around the vertices and
   * the tree over the triangles. `maxTrianglesPerLeaf` is
   * `m_MaxTrianglesPerLeaf` and `maxTreeDepth` the value of
   * `s_MaxTreeDepth` while the mesh is built.
   */
  class Mesh {
    var vertices: seq<Vec3>
    var triangles: seq<Triangle>
    var box: Box
    const bvh: BoundaryTree
    const maxTrianglesPerLeaf: nat
    const maxTreeDepth: nat

    /**
     * `Mesh(vertexBuffer, indexBuffer, material)`: takes the buffers, then
     * builds the box around the vertices and the tree over the triangles
     * (`calculateVertexNormals` is not part of this model). The tree's
     * nodes live in `mem`; `hardwareThreads` is what
     * `std::thread::hardware_concurrency()` reports.
     */
    constructor (vertexBuffer: seq<Vec3>, indexBuffer: seq<Triangle>, mem: Memory, hardwareThreads: nat)
      requires vertexBuffer != [] && AllInBuffer(indexBuffer, |vertexBuffer|)
      modifies mem
      ensures vertices == vertexBuffer && triangles == indexBuffer && box == Bounds(vertexBuffer)
      ensures maxTrianglesPerLeaf == DefaultMaxTrianglesPerLeaf && maxTreeDepth == DefaultMaxTreeDepth
      ensures bvh.mem == mem && bvh.Allocatable()
      ensures hardwareThreads > 0 ==>
        bvh.Valid() && bvh.shape == MeshTree(vertices, triangles, box, maxTrianglesPerLeaf, maxTreeDepth, None)
    {
      vertices := vertexBuffer;
      triangles := indexBuffer;
      box := PointBox(vertexBuffer[0]);
      bvh := new BoundaryTree(mem);
      maxTrianglesPerLeaf := DefaultMaxTrianglesPerLeaf;
      maxTreeDepth := DefaultMaxTreeDepth;
      new;
      ConstructAABB();
      ConstructBVH(hardwareThreads);
    }

    /**
     * `constructAABB()`: starts from the first vertex and lowers each min
     * component and raises each max component over every vertex, the
     * first included. The per-axis update is that of `AABB::combine` with
     * the vertex's own box.
     */
    method ConstructAABB()
      requires vertices != []
      modifies this
      ensures vertices == old(vertices) && triangles == old(triangles)
      ensures box == Bounds(vertices)
    {
      var vs := vertices;
      var b := PointBox(vs[0]);
      for i := 0 to |vs|
        modifies {}
        invariant b == Bounds(vs[..if i == 0 then 1 else i])
      {
        b := Combine(b, PointBox(vs[i]));
        if i == 0 {
          UnionSelf(b);
        } else {
          assert vs[..i + 1][..i] == vs[..i];
        }
      }
      assert vs[..|vs|] == vs;
      box := b;
    }

    /**
     * `constructTriangleAABB(triangle)`: starts from the first corner and
     * takes the componentwise min and max over the other two.
     */
    method ConstructTriangleAABB(t: Triangle) returns (r: Box)
      requires InBuffer(t, |vertices|)
      ensures r == Bounds(Corners(t, vertices))
    {
      var corners := Corners(t, vertices);
      r := PointBox(vertices[t.At(0)]);
      for k := 1 to 3
        invariant r == Bounds(corners[..k])
      {
        r := Combine(r, PointBox(vertices[t.At(k)]));
        assert corners[..k + 1][..k] == corners[..k];
      }
      assert corners[..3] == corners;
    }

    /**
     * `constructBVH()`: the index list 0..n-1 and the box of every
     * triangle; the tree is cleared and built by a builder that defers the
     * nodes at depth 6; if any node was deferred, the workers complete
     * the records and then every record's tree hands its blocks to the
     * mesh's tree. With at least one worker, or with nothing deferred,
     * the tree is the sequential build of every triangle. Clearing
     * destroys the old tree's nodes.
     */
    method ConstructBVH(hardwareThreads: nat)
      requires bvh.Valid() && AllInBuffer(triangles, |vertices|)
      modifies bvh, bvh.alloc, bvh.mem
      ensures bvh.Allocatable()
      ensures bvh.mem.destroyed == old(bvh.mem.destroyed) + old(PostOrder(bvh.mem.cells, bvh.root, bvh.shape))
      ensures hardwareThreads > 0 || StubCount(MeshTree(vertices, triangles, box, maxTrianglesPerLeaf, maxTreeDepth,
                                                        Some(ConcurrencyDepth))) == 0
        ==> bvh.Valid() && bvh.shape == MeshTree(vertices, triangles, box, maxTrianglesPerLeaf, maxTreeDepth, None)
    {
      ghost var target := MeshTree(vertices, triangles, box, maxTrianglesPerLeaf, maxTreeDepth, None);
      var triangleBoxes, triangleIndices := ConstructTriangleBoxes();
      bvh.Clear();
      BuildHierarchy(bvh, triangleBoxes, SplitInfo(box, triangleIndices), maxTrianglesPerLeaf, maxTreeDepth,
                     hardwareThreads);
      if hardwareThreads > 0 || StubCount(MeshTree(vertices, triangles, box, maxTrianglesPerLeaf, maxTreeDepth,
                                                   Some(ConcurrencyDepth))) == 0 {
        bvh.shape := target;
      }
    }

    /**
     * The first loop of `constructBVH`: the triangle indices in order, and
     * each triangle's box (`constructTriangleAABB`).
     */
    method ConstructTriangleBoxes() returns (triangleBoxes: seq<Box>, triangleIndices: seq<int>)
      requires AllInBuffer(triangles, |vertices|)
      ensures triangleBoxes == TriangleBoxes(triangles, vertices)
      ensures triangleIndices == Identity(|triangles|)
    {
      triangleBoxes, triangleIndices := [], [];
      for i := 0 to |triangles|
        invariant |triangleIndices| == i && forall k | 0 <= k < i :: triangleIndices[k] == k
        invariant |triangleBoxes| == i
        invariant forall k | 0 <= k < i :: triangleBoxes[k] == Bounds(Corners(triangles[k], vertices))
      {
        triangleIndices := triangleIndices + [i];
        var triangleBox := ConstructTriangleAABB(triangles[i]);
        triangleBoxes := triangleBoxes + [triangleBox];
      }
    }

    /**
     * `isHit(ray, context, minT, maxT)`: the mesh-box test, which also
     * narrows maxT to its biased exit distance; then the nodes are popped
     * from a stack that starts with the root. A node whose box passes the
     * test against that maxT either has its triangles tried in order, each
     * acceptance replacing the context and lowering `innerMaxT`, which
     * starts at the float maximum, or has its non-null children pushed,
     * left first. `context` is the caller's record, returned untouched
     * without a hit. The root is dereferenced unchecked, so the tree must
     * have one.
     */
    method IsHit(slab: SlabTest, test: TriangleTest, ray: Ray, context: Context, minT: real, maxT: real)
      returns (isHit: bool, result: Context)
      requires bvh.Valid() && bvh.root.Ptr?
      ensures isHit == MeshHit(box, bvh.shape, slab, test, ray, minT, maxT).Some?
      ensures result == if isHit then MeshHit(box, bvh.shape, slab, test, ray, minT, maxT).value else context
    {
      var boxHit := BoxHit(slab(box, ray), maxT);
      if boxHit.None? {
        return false, context;
      }
      var bound := boxHit.value;
      var cells := bvh.mem.cells;
      var nodes := [bvh.root];
      ghost var shapes := [bvh.shape];
      ghost var tried: seq<int> := [];
      ghost var all := Reached(bvh.shape, slab, ray, bound);
      PendingPush([], bvh.shape, slab, ray, bound);
      StackPush(cells, [], [], bvh.root, bvh.shape);
      isHit, result := false, context;
      var innerMaxT := FloatMax;
      while nodes != []
        invariant OnStack(cells, nodes, shapes)
        invariant tried + Pending(shapes, slab, ray, bound) == all
        invariant Sweep(tried, test, ray, minT) == SweepState(if isHit then Some(result) else None, innerMaxT)
        invariant !isHit ==> result == context
        decreases StackSize(shapes)
      {
        var top := nodes[|nodes| - 1];
        ghost var s := shapes[|shapes| - 1];
        StackPop(cells, nodes, shapes);
        PendingPop(shapes, slab, ray, bound);
        nodes, shapes := nodes[..|nodes| - 1], shapes[..|shapes| - 1];
        Popped(tried, s, shapes, slab, ray, bound, all);
        var node := cells[top.chunk];
        var temp := BoxHit(slab(node.box, ray), bound);
        if temp.Some? {
          if node.value != [] {
            isHit, result, innerMaxT := TestTriangles(test, ray, minT, context, tried, node.value, isHit, result, innerMaxT);
            tried := tried + node.value;
          } else {
            ghost var rest := shapes;
            if node.left.Ptr? {
              StackPush(cells, nodes, shapes, node.left, s.left);
              nodes, shapes := nodes + [node.left], shapes + [s.left];
            }
            ghost var middle := shapes;
            ChildPushed(rest, middle, s.left, slab, ray, bound);
            if node.right.Ptr? {
              StackPush(cells, nodes, shapes, node.right, s.right);
              nodes, shapes := nodes + [node.right], shapes + [s.right];
            }
            ChildPushed(middle, shapes, s.right, slab, ray, bound);
          }
        }
      }
      assert tried == all;
    }
  }
}
