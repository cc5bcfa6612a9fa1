/**
 * The bounding-volume tree: nodes holding a box, a value (the triangle
 * indices of a leaf) and two child pointers, placed in chunks taken from
 * the tree's own pool allocator.
 *
 * The nodes live in `Memory`, the part of the process heap the pools
 * hand out, as a map from chunk to node. Pointers are `Ref`s. A `Shape`
 * is the value a tree denotes; `Realizes` says that the nodes reachable
 * from a pointer spell out a shape.
 */
module Trees {
  import opened Boxes
  import opened Pool

  /** The number of node chunks in each block of a tree's allocator. */
  const NodesPerBlock: nat := 512

  /** A node pointer: null, or the chunk the node was placed in. */
  datatype Ref = Null | Ptr(chunk: Chunk)

  /** `Node<std::vector<int>>`: children, box and the leaf's triangle indices. */
  datatype Node = Node(left: Ref, right: Ref, box: Box, value: seq<int>)

  /** `Node(aabb)`: no children and an empty value. */
  function NewNode(box: Box): (n: Node)
    ensures n.left.Null? && n.right.Null? && n.box == box && n.value == []
  {
    Node(Null, Null, box, [])
  }

  /** The cells of `cells` that do not lie in any of `blocks`. */
  ghost function Without(cells: map<Chunk, Node>, blocks: seq<Block>): (m: map<Chunk, Node>)
    ensures forall c | c in m :: c in cells && m[c] == cells[c] && c.block !in blocks
    ensures forall c | c in cells && c.block !in blocks :: c in m
  {
    map c | c in cells && c.block !in blocks :: cells[c]
  }

  /** The node memory: every node placed in some pool chunk. */
  class Memory {
    var cells: map<Chunk, Node>
    /** The chunks whose node has been destroyed, in destruction order. */
    ghost var destroyed: seq<Chunk>

    constructor ()
      ensures cells == map[] && destroyed == []
    {
      cells := map[];
      destroyed := [];
    }

    /** `::operator delete` of whole blocks: whatever their chunks held is gone. */
    method Release(blocks: seq<Block>)
      modifies this
      ensures cells == Without(old(cells), blocks)
      ensures destroyed == old(destroyed)
    {
      cells := map c | c in cells && c.block !in blocks :: cells[c];
    }
  }

  /**
   * What a tree denotes. `Stub` is a node whose children the shape leaves
   * open (they are attached later by another builder).
   */
  datatype Shape =
    | Nil
    | Branch(box: Box, value: seq<int>, left: Shape, right: Shape)
    | Stub(box: Box, value: seq<int>)

  /** A shape without open nodes. */
  predicate Closed(s: Shape)
  {
    match s
    case Nil => true
    case Branch(_, _, left, right) => Closed(left) && Closed(right)
    case Stub(_, _) => false
  }

  /** The number of nodes of a shape. */
  function Size(s: Shape): nat
  {
    match s
    case Nil => 0
    case Branch(_, _, left, right) => 1 + Size(left) + Size(right)
    case Stub(_, _) => 1
  }

  /** The nodes reachable from `r` in `cells` spell out `s`. */
  ghost predicate Realizes(cells: map<Chunk, Node>, r: Ref, s: Shape)
    decreases s
  {
    match s
    case Nil => r.Null?
    case Branch(box, value, left, right) =>
      r.Ptr? && r.chunk in cells && cells[r.chunk].box == box && cells[r.chunk].value == value &&
      Realizes(cells, cells[r.chunk].left, left) && Realizes(cells, cells[r.chunk].right, right)
    case Stub(box, value) =>
      r.Ptr? && r.chunk in cells && cells[r.chunk].box == box && cells[r.chunk].value == value
  }

  /** The chunks of the nodes that realize `s` from `r`, in pre-order. */
  ghost function Chunks(cells: map<Chunk, Node>, r: Ref, s: Shape): seq<Chunk>
    decreases s
  {
    match s
    case Nil => []
    case Branch(_, _, left, right) =>
      if r.Ptr? && r.chunk in cells then
        [r.chunk] + Chunks(cells, cells[r.chunk].left, left) + Chunks(cells, cells[r.chunk].right, right)
      else []
    case Stub(_, _) => if r.Ptr? then [r.chunk] else []
  }

  /** The chunks of the nodes that realize `s` from `r`, children first. */
  ghost function PostOrder(cells: map<Chunk, Node>, r: Ref, s: Shape): seq<Chunk>
    decreases s
  {
    match s
    case Nil => []
    case Branch(_, _, left, right) =>
      if r.Ptr? && r.chunk in cells then
        PostOrder(cells, cells[r.chunk].left, left) + PostOrder(cells, cells[r.chunk].right, right) + [r.chunk]
      else []
    case Stub(_, _) => if r.Ptr? then [r.chunk] else []
  }

  /** A realized shape has one chunk per node, each of them a cell. */
  lemma {:induction false} ChunksOfRealized(cells: map<Chunk, Node>, r: Ref, s: Shape)
    requires Realizes(cells, r, s)
    decreases s
    ensures |Chunks(cells, r, s)| == Size(s)
    ensures forall c | c in Chunks(cells, r, s) :: c in cells
    ensures r.Ptr? <==> Chunks(cells, r, s) != []
    ensures r.Ptr? ==> Chunks(cells, r, s)[0] == r.chunk
  {
    match s
    case Nil =>
    case Branch(_, _, left, right) =>
      ChunksOfRealized(cells, cells[r.chunk].left, left);
      ChunksOfRealized(cells, cells[r.chunk].right, right);
    case Stub(_, _) =>
  }

  /** Destruction order visits each node of the tree exactly as often as pre-order does. */
  lemma {:induction false} PostOrderPermutesChunks(cells: map<Chunk, Node>, r: Ref, s: Shape)
    decreases s
    ensures multiset(PostOrder(cells, r, s)) == multiset(Chunks(cells, r, s))
  {
    match s
    case Nil =>
    case Branch(_, _, left, right) =>
      if r.Ptr? && r.chunk in cells {
        PostOrderPermutesChunks(cells, cells[r.chunk].left, left);
        PostOrderPermutesChunks(cells, cells[r.chunk].right, right);
      }
    case Stub(_, _) =>
  }

  /**
   * Frame: a realized shape depends only on the cells of its own nodes.
   * Any memory that agrees on those cells realizes it too, with the same nodes.
   */
  lemma {:induction false} RealizesFrame(c1: map<Chunk, Node>, c2: map<Chunk, Node>, r: Ref, s: Shape)
    requires Realizes(c1, r, s)
    requires forall c | c in Chunks(c1, r, s) :: c in c1 && c in c2 && c2[c] == c1[c]
    decreases s
    ensures Realizes(c2, r, s)
    ensures Chunks(c2, r, s) == Chunks(c1, r, s)
    ensures PostOrder(c2, r, s) == PostOrder(c1, r, s)
    ensures StubChunks(c2, r, s) == StubChunks(c1, r, s)
  {
    match s
    case Nil =>
    case Branch(_, _, left, right) =>
      assert r.chunk in Chunks(c1, r, s);
      RealizesFrame(c1, c2, c1[r.chunk].left, left);
      RealizesFrame(c1, c2, c1[r.chunk].right, right);
    case Stub(_, _) =>
  }

  /** Adding cells never disturbs a realized shape. */
  lemma RealizesExtend(c1: map<Chunk, Node>, c2: map<Chunk, Node>, r: Ref, s: Shape)
    requires Realizes(c1, r, s)
    requires forall c | c in c1 :: c in c2 && c2[c] == c1[c]
    ensures Realizes(c2, r, s)
    ensures Chunks(c2, r, s) == Chunks(c1, r, s)
    ensures StubChunks(c2, r, s) == StubChunks(c1, r, s)
  {
    ChunksOfRealized(c1, r, s);
    RealizesFrame(c1, c2, r, s);
  }

  /** The number of levels of a shape. */
  function Height(s: Shape): nat
  {
    match s
    case Nil => 0
    case Stub(_, _) => 1
    case Branch(_, _, left, right) =>
      1 + (if Height(left) < Height(right) then Height(right) else Height(left))
  }

  /** The values of all nodes, in pre-order: for a BVH, the triangle indices of its leaves. */
  function Leaves(s: Shape): seq<int>
  {
    match s
    case Nil => []
    case Stub(_, value) => value
    case Branch(_, value, left, right) => value + Leaves(left) + Leaves(right)
  }

  /** The number of stubs of a shape. */
  function StubCount(s: Shape): nat
  {
    match s
    case Nil => 0
    case Branch(_, _, left, right) => StubCount(left) + StubCount(right)
    case Stub(_, _) => 1
  }

  /**
   * Attaches the k-th pair of subtrees below the k-th stub, stubs counted
   * in pre-order; every other node stays as it is.
   */
  function Fill(s: Shape, comps: seq<(Shape, Shape)>): (f: Shape)
    requires |comps| == StubCount(s)
    ensures s.Nil? <==> f.Nil?
  {
    match s
    case Nil => Nil
    case Stub(box, value) => Branch(box, value, comps[0].0, comps[0].1)
    case Branch(box, value, left, right) =>
      Branch(box, value, Fill(left, comps[..StubCount(left)]), Fill(right, comps[StubCount(left)..]))
  }

  /** A branch is filled by filling its left stubs first, then its right ones. */
  lemma FillBranch(box: Box, value: seq<int>, left: Shape, right: Shape, cl: seq<(Shape, Shape)>, cr: seq<(Shape, Shape)>)
    requires |cl| == StubCount(left) && |cr| == StubCount(right)
    ensures Fill(Branch(box, value, left, right), cl + cr) == Branch(box, value, Fill(left, cl), Fill(right, cr))
  {
    assert (cl + cr)[..|cl|] == cl;
    assert (cl + cr)[|cl|..] == cr;
  }

  /** Filling every stub with closed subtrees closes the shape. */
  lemma {:induction false} FillClosed(s: Shape, comps: seq<(Shape, Shape)>)
    requires |comps| == StubCount(s)
    requires forall k | 0 <= k < |comps| :: Closed(comps[k].0) && Closed(comps[k].1)
    ensures Closed(Fill(s, comps))
  {
    match s
    case Nil =>
    case Stub(_, _) =>
    case Branch(_, _, left, right) =>
      var n := StubCount(left);
      FillClosed(left, comps[..n]);
      FillClosed(right, comps[n..]);
  }

  /** The chunks of the stubs of `s`, in pre-order. */
  ghost function StubChunks(cells: map<Chunk, Node>, r: Ref, s: Shape): seq<Chunk>
    decreases s
  {
    match s
    case Nil => []
    case Branch(_, _, left, right) =>
      if r.Ptr? && r.chunk in cells then
        StubChunks(cells, cells[r.chunk].left, left) + StubChunks(cells, cells[r.chunk].right, right)
      else []
    case Stub(_, _) => if r.Ptr? then [r.chunk] else []
  }

  /** In a realized shape there is one stub chunk per stub, and each is a chunk of the shape. */
  lemma {:induction false} StubChunksOfRealized(cells: map<Chunk, Node>, r: Ref, s: Shape)
    requires Realizes(cells, r, s)
    decreases s
    ensures |StubChunks(cells, r, s)| == StubCount(s)
    ensures forall c | c in StubChunks(cells, r, s) :: c in Chunks(cells, r, s)
  {
    match s
    case Nil =>
    case Branch(_, _, left, right) =>
      StubChunksOfRealized(cells, cells[r.chunk].left, left);
      StubChunksOfRealized(cells, cells[r.chunk].right, right);
    case Stub(_, _) =>
  }

  /** The stub at `p` has had `comp` attached below it. */
  ghost predicate StubFilled(cells: map<Chunk, Node>, p: Chunk, comp: (Shape, Shape))
  {
    p in cells && Realizes(cells, cells[p].left, comp.0) && Realizes(cells, cells[p].right, comp.1)
  }

  /** The k-th stub has the k-th pair of subtrees attached below it, for every k. */
  ghost predicate FilledAll(cells: map<Chunk, Node>, stubs: seq<Chunk>, comps: seq<(Shape, Shape)>)
  {
    |stubs| == |comps| && forall k | 0 <= k < |comps| :: StubFilled(cells, stubs[k], comps[k])
  }

  /** The first `n` stubs are filled by the first `n` pairs. */
  lemma FilledPrefix(cells: map<Chunk, Node>, stubs: seq<Chunk>, comps: seq<(Shape, Shape)>, n: nat)
    requires FilledAll(cells, stubs, comps) && n <= |comps|
    ensures FilledAll(cells, stubs[..n], comps[..n])
  {
  }

  /** The stubs after the first `n` are filled by the pairs after the first `n`. */
  lemma FilledSuffix(cells: map<Chunk, Node>, stubs: seq<Chunk>, comps: seq<(Shape, Shape)>, n: nat)
    requires FilledAll(cells, stubs, comps) && n <= |comps|
    ensures FilledAll(cells, stubs[n..], comps[n..])
  {
    forall k | 0 <= k < |comps| - n ensures StubFilled(cells, stubs[n..][k], comps[n..][k]) {
      assert stubs[n..][k] == stubs[n + k] && comps[n..][k] == comps[n + k];
    }
  }

  /** Pieces of a list without repetitions: the head is in neither part, and the parts are disjoint. */
  lemma NoDupParts<T>(x: T, a: seq<T>, b: seq<T>)
    requires NoDup([x] + a + b)
    ensures NoDup(a) && NoDup(b) && x !in a && x !in b
    ensures forall y | y in a :: y !in b
  {
    var s := [x] + a + b;
    assert s[0] == x;
    forall i, j | 0 <= i < j < |a| ensures a[i] != a[j] {
      assert a[i] == s[i + 1] && a[j] == s[j + 1];
    }
    forall i, j | 0 <= i < j < |b| ensures b[i] != b[j] {
      assert b[i] == s[i + 1 + |a|] && b[j] == s[j + 1 + |a|];
    }
    forall y | y in a ensures y != x && y !in b {
      var i :| 0 <= i < |a| && a[i] == y;
      assert s[i + 1] == y;
      forall j | 0 <= j < |b| ensures b[j] != y {
        assert s[j + 1 + |a|] == b[j];
      }
    }
    forall y | y in b ensures y != x {
      var j :| 0 <= j < |b| && b[j] == y;
      assert s[j + 1 + |a|] == y;
    }
  }

  /**
   * The skeleton `s` realized from `r` in `c1` is intact in `c2`: every
   * node keeps its box and value, and every node other than a stub is
   * kept as it was.
   */
  ghost predicate Kept(c1: map<Chunk, Node>, c2: map<Chunk, Node>, r: Ref, s: Shape)
  {
    (forall c | c in Chunks(c1, r, s) ::
       c in c1 && c in c2 && c2[c].box == c1[c].box && c2[c].value == c1[c].value) &&
    (forall c | c in Chunks(c1, r, s) && c !in StubChunks(c1, r, s) :: c in c1 && c in c2 && c2[c] == c1[c])
  }

  /** How the nodes and stubs of a realized branch without repetitions split between its two sides. */
  lemma BranchParts(cells: map<Chunk, Node>, r: Ref, s: Shape)
    requires s.Branch? && Realizes(cells, r, s) && NoDup(Chunks(cells, r, s))
    ensures var l, rt := cells[r.chunk].left, cells[r.chunk].right;
      Chunks(cells, r, s) == [r.chunk] + Chunks(cells, l, s.left) + Chunks(cells, rt, s.right) &&
      StubChunks(cells, r, s) == StubChunks(cells, l, s.left) + StubChunks(cells, rt, s.right) &&
      |StubChunks(cells, l, s.left)| == StubCount(s.left) && r.chunk !in StubChunks(cells, r, s) &&
      NoDup(Chunks(cells, l, s.left)) && NoDup(Chunks(cells, rt, s.right)) &&
      (forall c | c in StubChunks(cells, l, s.left) :: c in Chunks(cells, l, s.left)) &&
      (forall c | c in StubChunks(cells, rt, s.right) :: c in Chunks(cells, rt, s.right)) &&
      (forall c | c in Chunks(cells, l, s.left) :: c !in Chunks(cells, rt, s.right))
  {
    var l, rt := cells[r.chunk].left, cells[r.chunk].right;
    StubChunksOfRealized(cells, l, s.left);
    StubChunksOfRealized(cells, rt, s.right);
    NoDupParts(r.chunk, Chunks(cells, l, s.left), Chunks(cells, rt, s.right));
  }

  /** An intact branch has its node kept and both sides intact. */
  lemma KeptParts(c1: map<Chunk, Node>, c2: map<Chunk, Node>, r: Ref, s: Shape)
    requires s.Branch? && Realizes(c1, r, s) && NoDup(Chunks(c1, r, s)) && Kept(c1, c2, r, s)
    ensures r.chunk in c2 && c2[r.chunk] == c1[r.chunk]
    ensures Kept(c1, c2, c1[r.chunk].left, s.left) && Kept(c1, c2, c1[r.chunk].right, s.right)
  {
    BranchParts(c1, r, s);
    var l, rt := c1[r.chunk].left, c1[r.chunk].right;
    assert r.chunk in Chunks(c1, r, s);
    forall c | c in Chunks(c1, l, s.left) && c !in StubChunks(c1, l, s.left)
      ensures c in c1 && c in c2 && c2[c] == c1[c]
    {
      assert c in Chunks(c1, r, s) && c !in StubChunks(c1, rt, s.right);
    }
    forall c | c in Chunks(c1, rt, s.right) && c !in StubChunks(c1, rt, s.right)
      ensures c in c1 && c in c2 && c2[c] == c1[c]
    {
      assert c in Chunks(c1, r, s) && c !in StubChunks(c1, l, s.left);
    }
  }

  /**
   * Attaching subtrees below the stubs of a realized skeleton: if the
   * skeleton is intact and the k-th stub has the k-th pair of subtrees
   * below it, then the skeleton with its stubs filled is realized.
   */
  lemma {:induction false} FillRealizes(c1: map<Chunk, Node>, c2: map<Chunk, Node>, r: Ref, s: Shape,
                                        comps: seq<(Shape, Shape)>)
    requires Realizes(c1, r, s) && NoDup(Chunks(c1, r, s))
    requires |comps| == StubCount(s) && Kept(c1, c2, r, s)
    requires FilledAll(c2, StubChunks(c1, r, s), comps)
    decreases s
    ensures Realizes(c2, r, Fill(s, comps))
  {
    match s
    case Nil =>
    case Stub(_, _) =>
      assert StubChunks(c1, r, s) == [r.chunk];
      assert r.chunk in Chunks(c1, r, s);
    case Branch(_, _, left, right) =>
      var l, rt := c1[r.chunk].left, c1[r.chunk].right;
      var n := StubCount(left);
      var stubs := StubChunks(c1, r, s);
      BranchParts(c1, r, s);
      KeptParts(c1, c2, r, s);
      assert stubs[..n] == StubChunks(c1, l, left) && stubs[n..] == StubChunks(c1, rt, right);
      FilledPrefix(c2, stubs, comps, n);
      FilledSuffix(c2, stubs, comps, n);
      FillRealizes(c1, c2, l, left, comps[..n]);
      FillRealizes(c1, c2, rt, right, comps[n..]);
  }

  /** A shape without stubs is left as it is by filling. */
  lemma {:induction false} FillNoStubs(s: Shape)
    requires StubCount(s) == 0
    ensures Fill(s, []) == s
  {
    match s
    case Nil =>
    case Stub(_, _) =>
    case Branch(_, _, left, right) =>
      FillNoStubs(left);
      FillNoStubs(right);
  }

  /** The stubs of a shape whose nodes are distinct are distinct. */
  lemma {:induction false} StubChunksNoDup(cells: map<Chunk, Node>, r: Ref, s: Shape)
    requires Realizes(cells, r, s) && NoDup(Chunks(cells, r, s))
    decreases s
    ensures NoDup(StubChunks(cells, r, s))
  {
    match s
    case Nil =>
    case Stub(_, _) =>
    case Branch(_, _, left, right) =>
      var l, rt := cells[r.chunk].left, cells[r.chunk].right;
      assert Chunks(cells, r, s) == [r.chunk] + Chunks(cells, l, left) + Chunks(cells, rt, right);
      NoDupParts(r.chunk, Chunks(cells, l, left), Chunks(cells, rt, right));
      StubChunksNoDup(cells, l, left);
      StubChunksNoDup(cells, rt, right);
      StubChunksOfRealized(cells, l, left);
      StubChunksOfRealized(cells, rt, right);
      NoDupAppend(StubChunks(cells, l, left), StubChunks(cells, rt, right));
  }

  /** The concatenation of a list of lists, in order. */
  function Flatten<T>(xs: seq<seq<T>>): seq<T>
  {
    if xs == [] then [] else Flatten(xs[..|xs| - 1]) + xs[|xs| - 1]
  }

  /** Flattening distributes over concatenation. */
  lemma {:induction false} FlattenAppend<T>(xs: seq<seq<T>>, ys: seq<seq<T>>)
    ensures Flatten(xs + ys) == Flatten(xs) + Flatten(ys)
  {
    if ys == [] {
      assert xs + ys == xs;
    } else {
      var init := ys[..|ys| - 1];
      assert (xs + ys)[..|xs + ys| - 1] == xs + init;
      assert (xs + ys)[|xs + ys| - 1] == ys[|ys| - 1];
      FlattenAppend(xs, init);
    }
  }

  /** Flattening a list cut in two flattens the parts. */
  lemma FlattenSplit<T>(xs: seq<seq<T>>, n: nat)
    requires n <= |xs|
    ensures Flatten(xs) == Flatten(xs[..n]) + Flatten(xs[n..])
  {
    assert xs == xs[..n] + xs[n..];
    FlattenAppend(xs[..n], xs[n..]);
  }

  /** The nodes attached below the stub at `p`: those of its left subtree, then its right one. */
  ghost function Attached(cells: map<Chunk, Node>, p: Chunk, comp: (Shape, Shape)): seq<Chunk>
    requires p in cells
  {
    Chunks(cells, cells[p].left, comp.0) + Chunks(cells, cells[p].right, comp.1)
  }

  /** The k-th stub has the k-th pair attached below it, and `added[k]` lists the attached nodes. */
  ghost predicate AttachedAll(cells: map<Chunk, Node>, stubs: seq<Chunk>, comps: seq<(Shape, Shape)>,
                              added: seq<seq<Chunk>>)
  {
    |stubs| == |comps| && |added| == |comps| &&
    forall k | 0 <= k < |comps| ::
      StubFilled(cells, stubs[k], comps[k]) && added[k] == Attached(cells, stubs[k], comps[k])
  }

  /** The first `n` stubs have the first `n` pairs attached. */
  lemma AttachedPrefix(cells: map<Chunk, Node>, stubs: seq<Chunk>, comps: seq<(Shape, Shape)>,
                       added: seq<seq<Chunk>>, n: nat)
    requires AttachedAll(cells, stubs, comps, added) && n <= |comps|
    ensures AttachedAll(cells, stubs[..n], comps[..n], added[..n])
  {
  }

  /** The stubs after the first `n` have the pairs after the first `n` attached. */
  lemma AttachedSuffix(cells: map<Chunk, Node>, stubs: seq<Chunk>, comps: seq<(Shape, Shape)>,
                       added: seq<seq<Chunk>>, n: nat)
    requires AttachedAll(cells, stubs, comps, added) && n <= |comps|
    ensures AttachedAll(cells, stubs[n..], comps[n..], added[n..])
  {
    forall k | 0 <= k < |comps| - n
      ensures StubFilled(cells, stubs[n..][k], comps[n..][k])
      ensures added[n..][k] == Attached(cells, stubs[n..][k], comps[n..][k])
    {
      assert stubs[n..][k] == stubs[n + k] && comps[n..][k] == comps[n + k] && added[n..][k] == added[n + k];
    }
  }

  /**
   * The nodes of a filled skeleton are the skeleton's own nodes together
   * with, for each stub, the nodes attached below it (`added[k]`).
   */
  lemma {:induction false} FillChunks(c1: map<Chunk, Node>, c2: map<Chunk, Node>, r: Ref, s: Shape,
                                      comps: seq<(Shape, Shape)>, added: seq<seq<Chunk>>)
    requires Realizes(c1, r, s) && NoDup(Chunks(c1, r, s))
    requires |comps| == StubCount(s) && Kept(c1, c2, r, s)
    requires AttachedAll(c2, StubChunks(c1, r, s), comps, added)
    decreases s
    ensures multiset(Chunks(c2, r, Fill(s, comps))) == multiset(Chunks(c1, r, s)) + multiset(Flatten(added))
  {
    match s
    case Nil =>
    case Stub(_, _) =>
      assert StubChunks(c1, r, s) == [r.chunk];
      assert added[..0] == [];
      assert Flatten(added) == added[0];
    case Branch(_, _, left, right) =>
      var l, rt := c1[r.chunk].left, c1[r.chunk].right;
      var n := StubCount(left);
      var stubs := StubChunks(c1, r, s);
      BranchParts(c1, r, s);
      KeptParts(c1, c2, r, s);
      AttachedPrefix(c2, stubs, comps, added, n);
      AttachedSuffix(c2, stubs, comps, added, n);
      assert stubs[..n] == StubChunks(c1, l, left) && stubs[n..] == StubChunks(c1, rt, right);
      FillChunks(c1, c2, l, left, comps[..n], added[..n]);
      FillChunks(c1, c2, rt, right, comps[n..], added[n..]);
      FillBranchChunks(c2, r.chunk, s.box, s.value, Fill(left, comps[..n]), Fill(right, comps[n..]));
      FlattenSplit(added, n);
      MultisetRegroup(r.chunk, Chunks(c2, l, Fill(left, comps[..n])), Chunks(c2, rt, Fill(right, comps[n..])),
                      Chunks(c1, l, left), Chunks(c1, rt, right), Flatten(added[..n]), Flatten(added[n..]));
  }

  /** The nodes of a branch: its own chunk, then those of each side. */
  lemma FillBranchChunks(cells: map<Chunk, Node>, p: Chunk, box: Box, value: seq<int>, fl: Shape, fr: Shape)
    requires p in cells
    ensures Chunks(cells, Ptr(p), Branch(box, value, fl, fr)) ==
            [p] + Chunks(cells, cells[p].left, fl) + Chunks(cells, cells[p].right, fr)
  {
  }

  /** Multiset bookkeeping for a node above two parts, each made of an old and an added piece. */
  lemma MultisetRegroup<T>(x: T, a: seq<T>, b: seq<T>, oa: seq<T>, ob: seq<T>, na: seq<T>, nb: seq<T>)
    requires multiset(a) == multiset(oa) + multiset(na) && multiset(b) == multiset(ob) + multiset(nb)
    ensures multiset([x] + a + b) == multiset([x] + oa + ob) + multiset(na + nb)
  {
  }

  /** `BoundaryTree<std::vector<int>>`: a root pointer and the allocator of its nodes. */
  class BoundaryTree {
    var root: Ref
    const alloc: PoolAllocator
    const mem: Memory
    /** The tree the nodes reachable from the root spell out. */
    ghost var shape: Shape

    /**
     * The allocator is consistent, hands out blocks of 512 chunks, and none
     * of its free chunks holds a node.
     */
    ghost predicate Allocatable()
      reads this, alloc, mem
    {
      alloc.Valid() && alloc.chunksPerBlock == NodesPerBlock &&
      (forall b | b in alloc.blocks :: b.size == NodesPerBlock) &&
      (forall c | c in alloc.freeList :: c !in mem.cells)
    }

    /** A tree just constructed on `mem`: no root, no blocks, nothing on loan. */
    ghost predicate Pristine(mem: Memory)
      reads this, alloc
    {
      this.mem == mem && root == Null && shape == Nil && alloc.chunksPerBlock == NodesPerBlock &&
      alloc.freeList == [] && alloc.blocks == [] && alloc.issued == {}
    }

    /** A pristine tree is valid. */
    lemma PristineValid(mem: Memory)
      requires Pristine(mem)
      ensures Valid()
    {
      assert Owned(alloc.blocks) == {};
    }

    /**
     * Fewer nodes on loan than one block holds, but at least one: the free
     * list cannot be empty.
     */
    lemma FreeChunkRemains()
      requires Allocatable() && 0 < |alloc.issued| < NodesPerBlock
      ensures alloc.freeList != []
    {
      Conservation(alloc);
      FreeListNonEmpty(alloc);
    }

    /** Allocatable, and the root realizes a closed shape whose nodes are all distinct. */
    ghost predicate Valid()
      reads this, alloc, mem
    {
      Allocatable() && Realizes(mem.cells, root, shape) && Closed(shape) &&
      NoDup(Chunks(mem.cells, root, shape))
    }

    /** `BoundaryTree()`: an empty tree with a fresh 512-chunk allocator. */
    constructor (mem: Memory)
      ensures Valid() && fresh(alloc) && Pristine(mem)
    {
      this.mem := mem;
      root := Null;
      alloc := new PoolAllocator(NodesPerBlock);
      shape := Nil;
    }

    /**
     * `createNode(aabb)`: places a childless node in a chunk from the
     * allocator, and makes it the root when the tree had none.
     */
    method CreateNode(box: Box) returns (node: Chunk)
      requires Allocatable()
      modifies this, alloc, mem
      ensures Allocatable()
      ensures node !in old(mem.cells) && mem.cells == old(mem.cells)[node := NewNode(box)]
      ensures node !in old(alloc.issued) && alloc.issued == old(alloc.issued) + {node}
      ensures root == if old(root).Null? then Ptr(node) else old(root)
      ensures forall b | b in old(alloc.blocks) :: b in alloc.blocks
      ensures forall b | b in alloc.blocks && b !in old(alloc.blocks) :: fresh(b)
      ensures shape == old(shape) && mem.destroyed == old(mem.destroyed)
    {
      node := AllocateChunk();
      mem.cells := mem.cells[node := NewNode(box)];
      if root.Null? {
        root := Ptr(node);
      }
      assert node in alloc.issued;
    }

    /** The allocation half of `createNode`: a chunk from the allocator, not yet holding a node. */
    method AllocateChunk() returns (node: Chunk)
      requires Allocatable()
      modifies alloc
      ensures Allocatable()
      ensures node !in mem.cells
      ensures node !in old(alloc.issued) && alloc.issued == old(alloc.issued) + {node}
      ensures forall b | b in old(alloc.blocks) :: b in alloc.blocks
      ensures forall b | b in alloc.blocks && b !in old(alloc.blocks) :: fresh(b)
    {
      ghost var free, blocks := alloc.freeList, alloc.blocks;
      node := alloc.Allocate();
      if free == [] {
        assert alloc.blocks == blocks + [node.block];
      } else {
        assert forall c | c in alloc.freeList :: c in free;
      }
    }

    /**
     * `deallocateNode(node)`: destroys the left subtree, then the right
     * one, then the node itself. The memory stays with the allocator.
     */
    method DeallocateNode(r: Ref, ghost s: Shape)
      requires Realizes(mem.cells, r, s) && Closed(s)
      modifies mem
      decreases s
      ensures mem.cells == old(mem.cells)
      ensures mem.destroyed == old(mem.destroyed) + PostOrder(mem.cells, r, s)
    {
      if r == Null {
        return;
      }
      var n := mem.cells[r.chunk];
      DeallocateNode(n.left, s.left);
      DeallocateNode(n.right, s.right);
      mem.destroyed := mem.destroyed + [r.chunk];
    }

    /**
     * `clear()`: destroys every node, returns every block of the
     * allocator to the system and leaves the tree empty.
     */
    method Clear()
      requires Valid()
      modifies this, alloc, mem
      ensures Valid() && root == Null && shape == Nil
      ensures alloc.freeList == [] && alloc.blocks == [] && alloc.issued == {}
      ensures mem.destroyed == old(mem.destroyed) + old(PostOrder(mem.cells, root, shape))
      ensures mem.cells == Without(old(mem.cells), old(alloc.blocks))
    {
      DeallocateNode(root, shape);
      var released := alloc.FreeAllocatedMemory();
      mem.Release(released);
      root := Null;
      shape := Nil;
    }

    /** Every node is destroyed exactly once by `Clear`. */
    lemma ClearDestroysEachNodeOnce()
      requires Valid()
      ensures multiset(PostOrder(mem.cells, root, shape)) == multiset(Chunks(mem.cells, root, shape))
      ensures NoDup(PostOrder(mem.cells, root, shape))
    {
      PostOrderPermutesChunks(mem.cells, root, shape);
      MultisetNoDup(Chunks(mem.cells, root, shape), PostOrder(mem.cells, root, shape));
    }

    /**
     * `transferAllocatedBlocks(other)`: forgets the root (the nodes are
     * now reachable only through the tree they were built for) and hands
     * the free chunks and the blocks over to other's allocator, which
     * from then on frees them.
     */
    method TransferAllocatedBlocks(other: BoundaryTree)
      requires Allocatable() && other.Allocatable()
      requires other != this && other.alloc != alloc && other.mem == mem
      requires other.alloc.freeList != []
      requires forall b | b in alloc.blocks :: b !in other.alloc.blocks
      modifies this, alloc, other.alloc
      ensures Valid() && root == Null && shape == Nil
      ensures other.Allocatable()
      ensures other.alloc.freeList == old(other.alloc.freeList) + old(alloc.freeList)
      ensures other.alloc.blocks == old(other.alloc.blocks) + old(alloc.blocks)
      ensures other.alloc.issued == old(other.alloc.issued) + old(alloc.issued)
      ensures alloc.freeList == [] && alloc.blocks == [] && alloc.issued == {}
    {
      root := Null;
      shape := Nil;
      alloc.TransferOwnership(other.alloc);
    }

    /**
     * `~BoundaryTree()`: destroys every node below the root, then the
     * allocator's destructor (`freeAllocatedMemory`) returns every block
     * to the system. A tree that handed its blocks over with
     * `transferAllocatedBlocks` has no root and no block left, so its
     * destruction leaves the memory as it was.
     */
    method Destroy()
      requires Valid()
      modifies alloc, mem
      ensures mem.destroyed == old(mem.destroyed) + old(PostOrder(mem.cells, root, shape))
      ensures mem.cells == Without(old(mem.cells), old(alloc.blocks))
      ensures alloc.freeList == [] && alloc.blocks == [] && alloc.issued == {}
      ensures old(root).Null? && old(alloc.blocks) == [] ==>
        mem.cells == old(mem.cells) && mem.destroyed == old(mem.destroyed)
    {
      DeallocateNode(root, shape);
      var released := alloc.FreeAllocatedMemory();
      mem.Release(released);
      if old(root).Null? && released == [] {
        assert mem.cells == old(mem.cells);
      }
    }
  }

  /** A permutation of a list without repetitions has none either. */
  lemma MultisetNoDup<T>(a: seq<T>, b: seq<T>)
    requires NoDup(a) && multiset(a) == multiset(b)
    ensures NoDup(b)
  {
    forall i, j | 0 <= i < j < |b| ensures b[i] != b[j] {
      if b[i] == b[j] {
        var x := b[i];
        assert multiset(b)[x] >= 2 by {
          assert b == b[..i] + [x] + b[i + 1..j] + [x] + b[j + 1..];
        }
        NoDupCount(a, x);
        assert false;
      }
    }
  }

  /** In a list without repetitions every element occurs at most once. */
  lemma {:induction false} NoDupCount<T>(a: seq<T>, x: T)
    requires NoDup(a)
    ensures multiset(a)[x] <= 1
  {
    if a != [] {
      var init := a[..|a| - 1];
      assert a == init + [a[|a| - 1]];
      NoDupCount(init, x);
      if a[|a| - 1] == x {
        assert x !in init;
      }
    }
  }
}
