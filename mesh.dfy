/**
 * `Mesh`'s BVH construction: `splitBoundingVolume`, the `TreeBuilder`
 * that builds the first levels on the calling thread and records the
 * nodes at the concurrency depth, the workers that complete those nodes
 * in trees of their own, and `constructBVH`, which ties them together and
 * hands the workers' memory to the mesh's tree.
 *
 * Every node lives in one `Memory`; the shape a tree denotes is the
 * link between the builder here and the pure builder of `BvhSpec`.
 */
module Meshes {
  import opened Wrappers
  import opened Boxes
  import opened Pool
  import opened Trees
  import opened BvhSpec
  import Utility

  /**
   * `splitBoundingVolume(aabb, triangleIndexBuffer, triangleAABBs, depth)`:
   * splits the box on axis `depth % 3` and walks the triangles once,
   * appending each index to the half (or both halves) its box intersects.
   */
  method SplitBoundingVolume(box: Box, indices: seq<int>, boxes: seq<Box>, depth: nat) returns (pair: SplitPair)
    requires IndicesIn(indices, |boxes|)
    ensures pair == SplitVolume(boxes, SplitInfo(box, indices), depth)
  {
    SplitAxisIsRemainder(depth);
    var halves := Split(box, depth % 3);
    var left, right := [], [];
    for i := 0 to |indices|
      invariant left == Overlapping(boxes, halves.leftBox, indices[..i])
      invariant right == Overlapping(boxes, halves.rightBox, indices[..i])
    {
      assert indices[..i + 1][..i] == indices[..i];
      var triangleBox := boxes[indices[i]];
      var inLeft := Intersects(halves.leftBox, triangleBox);
      if inLeft {
        left := left + [indices[i]];
      }
      var inRight := Intersects(halves.rightBox, triangleBox);
      if inRight {
        right := right + [indices[i]];
      }
    }
    assert indices[..|indices|] == indices;
    pair := SplitPair(SplitInfo(halves.leftBox, left), SplitInfo(halves.rightBox, right));
  }

  /**
   * `Mesh::WorkerNode`: a node left for a worker, with its box and
   * triangles, and the tree the worker allocates the node's subtrees in.
   */
  datatype WorkerNode = WorkerNode(box: Box, root: Chunk, indices: seq<int>, bvh: BoundaryTree)

  /** The part of a record the builder splits again. */
  function InfoOf(w: WorkerNode): SplitInfo
  {
    SplitInfo(w.box, w.indices)
  }

  /** `ws` records the deferred nodes `infos`, placed in the chunks `roots`. */
  ghost predicate Describes(ws: seq<WorkerNode>, infos: seq<SplitInfo>, roots: seq<Chunk>)
  {
    |ws| == |infos| && |ws| == |roots| &&
    forall k | 0 <= k < |ws| :: InfoOf(ws[k]) == infos[k] && ws[k].root == roots[k]
  }

  /** Records with no tree in common and no allocator in common. */
  ghost predicate Separate(ws: seq<WorkerNode>)
  {
    forall i, j | 0 <= i < j < |ws| :: ws[i].bvh != ws[j].bvh && ws[i].bvh.alloc != ws[j].bvh.alloc
  }

  /** Two records' lists describe the concatenation of what each describes. */
  lemma DescribesAppend(a: seq<WorkerNode>, ia: seq<SplitInfo>, ra: seq<Chunk>,
                        b: seq<WorkerNode>, ib: seq<SplitInfo>, rb: seq<Chunk>)
    requires Describes(a, ia, ra) && Describes(b, ib, rb)
    ensures Describes(a + b, ia + ib, ra + rb)
  {
    forall k | 0 <= k < |a + b|
      ensures InfoOf((a + b)[k]) == (ia + ib)[k] && (a + b)[k].root == (ra + rb)[k]
    {
      if k >= |a| {
        assert (a + b)[k] == b[k - |a|] && (ia + ib)[k] == ib[k - |a|] && (ra + rb)[k] == rb[k - |a|];
      }
    }
  }

  /**
   * `before` grew into `after` by the new cells `added` alone: every old
   * cell is kept as it was, and every cell of `after` is old or added.
   */
  ghost predicate Grown(before: map<Chunk, Node>, after: map<Chunk, Node>, added: seq<Chunk>)
  {
    (forall c | c in before :: c in after && after[c] == before[c]) &&
    (forall c | c in added :: c !in before && c in after) &&
    (forall c | c in after :: c in before || c in added)
  }

  /**
   * The cells of an inner node built in three steps grow by the node and
   * the two subtrees: the node is created (`c0` to `c1`), the left subtree
   * is built (`c1` to `c2`) and linked (`c3`), then the right one is built
   * (`c4`) and linked (`c5`).
   */
  lemma GrowBranch(c0: map<Chunk, Node>, c1: map<Chunk, Node>, c2: map<Chunk, Node>, c3: map<Chunk, Node>,
                   c4: map<Chunk, Node>, c5: map<Chunk, Node>, node: Chunk, n1: Node, n3: Node, n5: Node,
                   a: seq<Chunk>, b: seq<Chunk>)
    requires node !in c0 && c1 == c0[node := n1]
    requires Grown(c1, c2, a) && c3 == c2[node := n3]
    requires Grown(c3, c4, b) && c5 == c4[node := n5]
    ensures Grown(c0, c5, [node] + a + b)
    ensures forall c | c in a :: c in c2 && c in c5 && c5[c] == c2[c] && c != node && c !in b
    ensures forall c | c in b :: c in c4 && c in c5 && c5[c] == c4[c] && c != node
  {
    forall c | c in c0 ensures c in c5 && c5[c] == c0[c] {
      assert c in c1 && c in c2 && c in c3 && c in c4;
    }
    forall c | c in a ensures c !in c0 && c in c5 && c5[c] == c2[c] && c != node && c !in b {
      assert c in c3 && c in c4;
    }
    forall c | c in b ensures c !in c0 && c in c5 && c5[c] == c4[c] && c != node {
      assert c !in c3;
    }
    forall c | c in c5 ensures c in c0 || c in [node] + a + b {
      if c != node && c !in b {
        assert c in c3 && c in c2;
      }
    }
  }

  /** A node whose children realize two shapes realizes the branch over them. */
  lemma BranchAt(cells: map<Chunk, Node>, p: Chunk, box: Box, value: seq<int>, l: Ref, sl: Shape, rr: Ref, sr: Shape)
    requires p in cells && cells[p] == Node(l, rr, box, value)
    requires Realizes(cells, l, sl) && Realizes(cells, rr, sr)
    ensures Realizes(cells, Ptr(p), Branch(box, value, sl, sr))
    ensures Chunks(cells, Ptr(p), Branch(box, value, sl, sr)) == [p] + Chunks(cells, l, sl) + Chunks(cells, rr, sr)
    ensures StubChunks(cells, Ptr(p), Branch(box, value, sl, sr)) == StubChunks(cells, l, sl) + StubChunks(cells, rr, sr)
  {
  }

  /**
   * An inner node linked over two subtrees built one after the other:
   * `c2` holds the left subtree, `c4` the right one, `c5` the linked node.
   * When neither subtree's cells changed since it was built and the two
   * share no cells, the node realizes the branch, newly and without
   * repetitions.
   */
  lemma GlueBranch(c2: map<Chunk, Node>, c4: map<Chunk, Node>, c5: map<Chunk, Node>, node: Chunk, box: Box,
                   l: Ref, sl: Shape, rr: Ref, sr: Shape)
    requires Realizes(c2, l, sl) && NoDup(Chunks(c2, l, sl))
    requires Realizes(c4, rr, sr) && NoDup(Chunks(c4, rr, sr))
    requires node in c5 && c5[node] == Node(l, rr, box, [])
    requires forall c | c in Chunks(c2, l, sl) :: c in c2 && c in c5 && c5[c] == c2[c] && c != node && c !in Chunks(c4, rr, sr)
    requires forall c | c in Chunks(c4, rr, sr) :: c in c4 && c in c5 && c5[c] == c4[c] && c != node
    ensures Realizes(c5, Ptr(node), Branch(box, [], sl, sr))
    ensures Chunks(c5, Ptr(node), Branch(box, [], sl, sr)) == [node] + Chunks(c2, l, sl) + Chunks(c4, rr, sr)
    ensures StubChunks(c5, Ptr(node), Branch(box, [], sl, sr)) == StubChunks(c2, l, sl) + StubChunks(c4, rr, sr)
    ensures NoDup(Chunks(c5, Ptr(node), Branch(box, [], sl, sr)))
  {
    var cl, cr := Chunks(c2, l, sl), Chunks(c4, rr, sr);
    assert Realizes(c5, l, sl) && Chunks(c5, l, sl) == cl && StubChunks(c5, l, sl) == StubChunks(c2, l, sl) by {
      RealizesFrame(c2, c5, l, sl);
    }
    assert Realizes(c5, rr, sr) && Chunks(c5, rr, sr) == cr && StubChunks(c5, rr, sr) == StubChunks(c4, rr, sr) by {
      RealizesFrame(c4, c5, rr, sr);
    }
    BranchAt(c5, node, box, [], l, sl, rr, sr);
    NoDupCons(node, cl, cr);
  }

  /** A head outside two disjoint lists without repetitions, followed by both, has none. */
  lemma NoDupCons<T>(x: T, a: seq<T>, b: seq<T>)
    requires NoDup(a) && NoDup(b) && x !in a && x !in b
    requires forall y | y in a :: y !in b
    ensures NoDup([x] + a + b)
  {
    NoDupAppend(a, b);
    NoDupAppend([x], a + b);
    assert [x] + a + b == [x] + (a + b);
  }

  /** The elements of a list headed by `x` and followed by `a` and `b`. */
  lemma SetOfCons<T>(x: T, a: seq<T>, b: seq<T>)
    ensures (set c | c in [x] + a + b) == {x} + (set c | c in a) + (set c | c in b)
  {
  }

  /** A list extended twice: the first list is a prefix of the last, and the two extensions make up its rest. */
  lemma PrefixChain<T>(w0: seq<T>, w1: seq<T>, w2: seq<T>)
    requires |w0| <= |w1| <= |w2| && w1[..|w0|] == w0 && w2[..|w1|] == w1
    ensures w2[..|w0|] == w0 && w2[|w0|..] == w1[|w0|..] + w2[|w1|..]
  {
    assert w2[..|w1|][..|w0|] == w2[..|w0|];
    assert w2 == w2[..|w1|] + w2[|w1|..];
  }

  /** Two lists of separate records with nothing in common make one. */
  lemma SeparateAppend(a: seq<WorkerNode>, b: seq<WorkerNode>)
    requires Separate(a) && Separate(b)
    requires forall i, j | 0 <= i < |a| && 0 <= j < |b| :: a[i].bvh != b[j].bvh && a[i].bvh.alloc != b[j].bvh.alloc
    ensures Separate(a + b)
  {
    forall i, j | 0 <= i < j < |a + b|
      ensures (a + b)[i].bvh != (a + b)[j].bvh && (a + b)[i].bvh.alloc != (a + b)[j].bvh.alloc
    {
      if j < |a| {
      } else if i >= |a| {
        assert (a + b)[i] == b[i - |a|] && (a + b)[j] == b[j - |a|];
      } else {
        assert (a + b)[i] == a[i] && (a + b)[j] == b[j - |a|];
      }
    }
  }

  /**
   * Building a subtree from `r` that realizes `s` took the cells `c0` to
   * `cells` and the chunks on loan `i0` to `issued`: the subtree's nodes
   * are distinct, new, the only new cells, and exactly the new loans.
   */
  ghost predicate Built(c0: map<Chunk, Node>, i0: set<Chunk>, cells: map<Chunk, Node>, issued: set<Chunk>,
                        r: Ref, s: Shape)
  {
    Realizes(cells, r, s) && NoDup(Chunks(cells, r, s)) && Grown(c0, cells, Chunks(cells, r, s)) &&
    issued == i0 + set c | c in Chunks(cells, r, s)
  }

  /**
   * A half built from `c0` to `built` (as `Built` says) and then linked
   * below `node`, on the left when `isLeft`, giving `cells`.
   */
  ghost predicate Linked(c0: map<Chunk, Node>, i0: set<Chunk>, built: map<Chunk, Node>, issued: set<Chunk>,
                         cells: map<Chunk, Node>, node: Chunk, child: Ref, s: Shape, isLeft: bool)
  {
    Built(c0, i0, built, issued, child, s) && node in built &&
    cells == built[node := if isLeft then built[node].(left := child) else built[node].(right := child)]
  }

  /** A node made a leaf right after its creation is built. */
  lemma BuiltLeaf(c0: map<Chunk, Node>, i0: set<Chunk>, c2: map<Chunk, Node>, node: Chunk, box: Box, value: seq<int>)
    requires node !in c0 && c2 == c0[node := NewNode(box)][node := NewNode(box).(value := value)]
    ensures Built(c0, i0, c2, i0 + {node}, Ptr(node), Branch(box, value, Nil, Nil))
    ensures StubChunks(c2, Ptr(node), Branch(box, value, Nil, Nil)) == []
  {
    assert Chunks(c2, Ptr(node), Branch(box, value, Nil, Nil)) == [node];
  }

  /** A node left open right after its creation is built, as a stub. */
  lemma BuiltStub(c0: map<Chunk, Node>, i0: set<Chunk>, c1: map<Chunk, Node>, node: Chunk, box: Box)
    requires node !in c0 && c1 == c0[node := NewNode(box)]
    ensures Built(c0, i0, c1, i0 + {node}, Ptr(node), Stub(box, []))
    ensures StubChunks(c1, Ptr(node), Stub(box, [])) == [node]
  {
    assert Chunks(c1, Ptr(node), Stub(box, [])) == [node];
  }

  /** An inner node over two subtrees built one after the other is built (see `GrowBranch`). */
  lemma BuiltBranch(c0: map<Chunk, Node>, i0: set<Chunk>, c1: map<Chunk, Node>, c2: map<Chunk, Node>, i2: set<Chunk>,
                    c3: map<Chunk, Node>, c4: map<Chunk, Node>, i4: set<Chunk>, c5: map<Chunk, Node>,
                    node: Chunk, box: Box, l: Ref, sl: Shape, rr: Ref, sr: Shape)
    requires node !in c0 && c1 == c0[node := NewNode(box)]
    requires Linked(c1, i0 + {node}, c2, i2, c3, node, l, sl, true) && Linked(c3, i2, c4, i4, c5, node, rr, sr, false)
    ensures Built(c0, i0, c5, i4, Ptr(node), Branch(box, [], sl, sr))
    ensures StubChunks(c5, Ptr(node), Branch(box, [], sl, sr)) == StubChunks(c2, l, sl) + StubChunks(c4, rr, sr)
  {
    var cl, cr := Chunks(c2, l, sl), Chunks(c4, rr, sr);
    GrowBranch(c0, c1, c2, c3, c4, c5, node, NewNode(box), c3[node], c5[node], cl, cr);
    GlueBranch(c2, c4, c5, node, box, l, sl, rr, sr);
    SetOfCons(node, cl, cr);
  }

  /**
   * The last case of `buildTree` on the node memory: a node created in
   * `c0` and both halves of its split linked below it make the node's
   * branch, whose deferred nodes are those of the left half, then those
   * of the right half.
   */
  lemma BelowBuilt(cfg: Config, info: SplitInfo, depth: nat, deferAt: Option<nat>,
                   c0: map<Chunk, Node>, i0: set<Chunk>, c1: map<Chunk, Node>, c2: map<Chunk, Node>, i2: set<Chunk>,
                   c3: map<Chunk, Node>, c4: map<Chunk, Node>, i4: set<Chunk>, c5: map<Chunk, Node>,
                   node: Chunk, l: Ref, rr: Ref)
    requires IndicesIn(info.indices, |cfg.boxes|) && info.indices != [] && !IsLeaf(cfg, info, depth)
    requires deferAt.Some? ==> depth < deferAt.value
    requires node !in c0 && c1 == c0[node := NewNode(info.box)]
    requires var p := SplitVolume(cfg.boxes, info, depth);
      Linked(c1, i0 + {node}, c2, i2, c3, node, l, BuildShape(cfg, p.left, depth + 1, deferAt), true) &&
      Linked(c3, i2, c4, i4, c5, node, rr, BuildShape(cfg, p.right, depth + 1, deferAt), false)
    ensures Built(c0, i0, c5, i4, Ptr(node), BuildShape(cfg, info, depth, deferAt))
    ensures var p := SplitVolume(cfg.boxes, info, depth);
      StubChunks(c5, Ptr(node), BuildShape(cfg, info, depth, deferAt)) ==
      StubChunks(c2, l, BuildShape(cfg, p.left, depth + 1, deferAt)) +
      StubChunks(c4, rr, BuildShape(cfg, p.right, depth + 1, deferAt))
  {
    var p := SplitVolume(cfg.boxes, info, depth);
    var sl, sr := BuildShape(cfg, p.left, depth + 1, deferAt), BuildShape(cfg, p.right, depth + 1, deferAt);
    assert BuildShape(cfg, info, depth, deferAt) == Branch(info.box, [], sl, sr);
    BuiltBranch(c0, i0, c1, c2, i2, c3, c4, i4, c5, node, info.box, l, sl, rr, sr);
  }

  /** The records of a split node are those of its left half, then those of its right half. */
  lemma BelowRecorded(cfg: Config, info: SplitInfo, depth: nat, workerDepth: nat,
                      w0: seq<WorkerNode>, w1: seq<WorkerNode>, w2: seq<WorkerNode>, ra: seq<Chunk>, rb: seq<Chunk>)
    requires IndicesIn(info.indices, |cfg.boxes|) && info.indices != [] && !IsLeaf(cfg, info, depth)
    requires depth < workerDepth
    requires var p := SplitVolume(cfg.boxes, info, depth);
      Recorded(w0, w1, Deferred(cfg, p.left, depth + 1, workerDepth), ra) &&
      Recorded(w1, w2, Deferred(cfg, p.right, depth + 1, workerDepth), rb)
    ensures Recorded(w0, w2, Deferred(cfg, info, depth, workerDepth), ra + rb)
  {
    var p := SplitVolume(cfg.boxes, info, depth);
    RecordedAppend(w0, w1, w2, Deferred(cfg, p.left, depth + 1, workerDepth), ra,
                   Deferred(cfg, p.right, depth + 1, workerDepth), rb);
  }

  /**
   * From `w0` to `w`, the records list was extended by records of the
   * nodes `infos` placed in the chunks `roots`.
   */
  ghost predicate Recorded(w0: seq<WorkerNode>, w: seq<WorkerNode>, infos: seq<SplitInfo>, roots: seq<Chunk>)
  {
    |w| >= |w0| && w[..|w0|] == w0 && Describes(w[|w0|..], infos, roots)
  }

  /** Two extensions one after the other make one. */
  lemma RecordedAppend(w0: seq<WorkerNode>, w1: seq<WorkerNode>, w2: seq<WorkerNode>,
                       ia: seq<SplitInfo>, ra: seq<Chunk>, ib: seq<SplitInfo>, rb: seq<Chunk>)
    requires Recorded(w0, w1, ia, ra) && Recorded(w1, w2, ib, rb)
    ensures Recorded(w0, w2, ia + ib, ra + rb)
  {
    PrefixChain(w0, w1, w2);
    DescribesAppend(w1[|w0|..], ia, ra, w2[|w1|..], ib, rb);
  }

  /**
   * The records' trees are separate, each of them is among `trees`, its
   * allocator among `allocs`, and each tree is still empty, on `mem`.
   */
  ghost predicate RecordsReady(ws: seq<WorkerNode>, trees: set<BoundaryTree>, allocs: set<PoolAllocator>, mem: Memory)
    reads trees, allocs
  {
    Separate(ws) &&
    forall k | 0 <= k < |ws| :: ws[k].bvh in trees && ws[k].bvh.alloc in allocs && ws[k].bvh.Pristine(mem)
  }

  /**
   * `Mesh::WorkerInfo`: the records of deferred nodes and the depth at
   * which nodes are deferred. `trees` and `allocs` collect the records'
   * trees and their allocators.
   */
  class WorkerInfo {
    var workerNodes: seq<WorkerNode>
    const depth: nat
    ghost var trees: set<BoundaryTree>
    ghost var allocs: set<PoolAllocator>

    constructor (depth: nat)
      ensures workerNodes == [] && this.depth == depth && trees == {} && allocs == {}
    {
      workerNodes := [];
      this.depth := depth;
      trees := {};
      allocs := {};
    }

    /**
     * `workerNodes.emplace_back(aabb, root, triangleIndexBuffer)`: a record
     * of the node with a new, empty tree of its own on `bvh`'s memory.
     */
    method Record(box: Box, root: Chunk, indices: seq<int>, bvh: BoundaryTree) returns (tree: BoundaryTree)
      requires ReadyFor(this, bvh)
      modifies this
      ensures ReadyFor(this, bvh) && fresh(tree) && fresh(tree.alloc)
      ensures trees == old(trees) + {tree} && allocs == old(allocs) + {tree.alloc}
      ensures workerNodes == old(workerNodes) + [WorkerNode(box, root, indices, tree)]
    {
      tree := new BoundaryTree(bvh.mem);
      workerNodes := workerNodes + [WorkerNode(box, root, indices, tree)];
      trees := trees + {tree};
      allocs := allocs + {tree.alloc};
    }
  }

  /**
   * The records are ready for the workers, and none of their trees is
   * `bvh` or shares its allocator.
   */
  ghost predicate ReadyFor(wi: WorkerInfo, bvh: BoundaryTree)
    reads wi, wi.trees, wi.allocs
  {
    bvh !in wi.trees && bvh.alloc !in wi.allocs && RecordsReady(wi.workerNodes, wi.trees, wi.allocs, bvh.mem)
  }

  /** No deferral without a records list; otherwise deferral at its depth. */
  function DeferAt(workerInfo: WorkerInfo?): Option<nat>
  {
    if workerInfo == null then None else Some(workerInfo.depth)
  }

  // ------------------------------------------------------ completing the records

  /**
   * From `before` to `after` only the node at `p` changed, keeping its box
   * and value, and the new nodes `added` appeared.
   */
  ghost predicate OnlyAttached(before: map<Chunk, Node>, after: map<Chunk, Node>, p: Chunk, added: seq<Chunk>)
  {
    p in before && p in after && after[p].box == before[p].box && after[p].value == before[p].value &&
    (forall c | c in before && c != p :: c in after && after[c] == before[c]) &&
    (forall c | c in added :: c !in before && c in after) &&
    (forall c | c in after :: c in before || c in added)
  }

  /**
   * `after` is `before` with the pair `comp` attached below the node at
   * `p`: the nodes attached (`added`) are distinct and all new, and no
   * other node changed.
   */
  ghost predicate AttachedBelow(before: map<Chunk, Node>, after: map<Chunk, Node>, p: Chunk, comp: (Shape, Shape),
                                added: seq<Chunk>)
  {
    OnlyAttached(before, after, p, added) &&
    StubFilled(after, p, comp) && added == Attached(after, p, comp) && NoDup(added)
  }

  /** The cell bookkeeping of `AttachHalves`. */
  lemma HalvesOnly(c1: map<Chunk, Node>, i1: set<Chunk>, c2: map<Chunk, Node>, i2: set<Chunk>,
                   c3: map<Chunk, Node>, c4: map<Chunk, Node>, i4: set<Chunk>, c5: map<Chunk, Node>,
                   p: Chunk, l: Ref, sl: Shape, rr: Ref, sr: Shape)
    requires p in c1
    requires Linked(c1, i1, c2, i2, c3, p, l, sl, true) && Linked(c3, i2, c4, i4, c5, p, rr, sr, false)
    ensures OnlyAttached(c1, c5, p, Chunks(c2, l, sl) + Chunks(c4, rr, sr))
    ensures c5[p] == c1[p].(left := l, right := rr)
    ensures forall c | c in Chunks(c2, l, sl) :: c in c2 && c5[c] == c2[c] && c !in Chunks(c4, rr, sr)
    ensures forall c | c in Chunks(c4, rr, sr) :: c in c4 && c5[c] == c4[c]
  {
    var c0 := c1 - {p};
    assert c1 == c0[p := c1[p]];
    GrowBranch(c0, c1, c2, c3, c4, c5, p, c1[p], c3[p], c5[p], Chunks(c2, l, sl), Chunks(c4, rr, sr));
  }

  /**
   * Two subtrees built one after the other and linked below an existing
   * node `p` (`c1` to `c3` the left one, `c3` to `c5` the right one) are
   * attached below it, and the chunks on loan grew by their nodes.
   */
  lemma AttachHalves(c1: map<Chunk, Node>, i1: set<Chunk>, c2: map<Chunk, Node>, i2: set<Chunk>,
                     c3: map<Chunk, Node>, c4: map<Chunk, Node>, i4: set<Chunk>, c5: map<Chunk, Node>,
                     p: Chunk, l: Ref, sl: Shape, rr: Ref, sr: Shape)
    requires p in c1
    requires Linked(c1, i1, c2, i2, c3, p, l, sl, true) && Linked(c3, i2, c4, i4, c5, p, rr, sr, false)
    ensures AttachedBelow(c1, c5, p, (sl, sr), Chunks(c2, l, sl) + Chunks(c4, rr, sr))
    ensures c5[p] == c1[p].(left := l, right := rr)
  {
    HalvesOnly(c1, i1, c2, i2, c3, c4, i4, c5, p, l, sl, rr, sr);
    RealizesFrame(c2, c5, l, sl);
    RealizesFrame(c4, c5, rr, sr);
    NoDupAppend(Chunks(c2, l, sl), Chunks(c4, rr, sr));
  }

  /** The chunks on loan after two halves are built grew by the nodes of both. */
  lemma HalvesIssued(c1: map<Chunk, Node>, i1: set<Chunk>, c2: map<Chunk, Node>, i2: set<Chunk>,
                     c3: map<Chunk, Node>, c4: map<Chunk, Node>, i4: set<Chunk>, l: Ref, sl: Shape, rr: Ref, sr: Shape)
    requires Built(c1, i1, c2, i2, l, sl) && Built(c3, i2, c4, i4, rr, sr)
    ensures i4 == i1 + set c | c in Chunks(c2, l, sl) + Chunks(c4, rr, sr)
  {
    SetOfAppend(Chunks(c2, l, sl), Chunks(c4, rr, sr));
  }

  /** The elements of a concatenation. */
  lemma SetOfAppend<T>(a: seq<T>, b: seq<T>)
    ensures (set c | c in a + b) == (set c | c in a) + (set c | c in b)
  {
  }

  /** A prefix one longer. */
  lemma TakeNext<T>(s: seq<T>, k: nat)
    requires k < |s|
    ensures s[..k + 1] == s[..k] + [s[k]]
  {
  }

  /**
   * The records' plan: record k is placed in `roots[k]`, its triangles
   * are in range, and it is to be completed with `comps[k]`, its halves
   * split at depth `d` and built from `d + 1`.
   */
  ghost predicate Plan(cfg: Config, ws: seq<WorkerNode>, d: nat, roots: seq<Chunk>, comps: seq<(Shape, Shape)>)
  {
    |roots| == |ws| &&
    (forall k | 0 <= k < |ws| :: ws[k].root == roots[k] && IndicesIn(ws[k].indices, |cfg.boxes|)) &&
    Completes(cfg, ws, d, comps)
  }

  /**
   * `comps[k]` is the completion of record k, for every k; stated from
   * the last record back, so that a proof unfolds only as many records
   * as it looks at.
   */
  ghost predicate Completes(cfg: Config, ws: seq<WorkerNode>, d: nat, comps: seq<(Shape, Shape)>)
    decreases |ws|
  {
    |comps| == |ws| &&
    (ws != [] ==>
       IndicesIn(ws[|ws| - 1].indices, |cfg.boxes|) &&
       comps[|ws| - 1] == Completion(cfg, InfoOf(ws[|ws| - 1]), d, d + 1) &&
       Completes(cfg, ws[..|ws| - 1], d, comps[..|ws| - 1]))
  }

  /** The completion of record k. */
  lemma {:induction false} CompletesAt(cfg: Config, ws: seq<WorkerNode>, d: nat, comps: seq<(Shape, Shape)>, k: nat)
    requires Completes(cfg, ws, d, comps) && k < |ws|
    decreases |ws|
    ensures IndicesIn(ws[k].indices, |cfg.boxes|) && comps[k] == Completion(cfg, InfoOf(ws[k]), d, d + 1)
  {
    var n := |ws| - 1;
    if k < n {
      CompletesAt(cfg, ws[..n], d, comps[..n], k);
    }
  }

  /** The records of the nodes `infos` are completed by the completions of `infos`. */
  lemma {:induction false} CompletesOf(cfg: Config, ws: seq<WorkerNode>, infos: seq<SplitInfo>, d: nat)
    requires |ws| == |infos| && forall k | 0 <= k < |ws| :: InfoOf(ws[k]) == infos[k]
    requires forall k | 0 <= k < |infos| :: IndicesIn(infos[k].indices, |cfg.boxes|)
    decreases |ws|
    ensures Completes(cfg, ws, d, Completions(cfg, infos, d, d + 1))
  {
    if ws != [] {
      var n := |ws| - 1;
      CompletesOf(cfg, ws[..n], infos[..n], d);
      assert Completions(cfg, infos, d, d + 1)[..n] == Completions(cfg, infos[..n], d, d + 1);
    }
  }

  /**
   * The first |added| records have been completed, starting from the
   * cells `c0`: their nodes keep box and value and have their pairs
   * attached, `added[k]` listing the nodes attached below record k; the
   * attached nodes are distinct, new and the only new cells, and every
   * other old cell is as it was.
   */
  ghost predicate Progress(c0: map<Chunk, Node>, cells: map<Chunk, Node>, roots: seq<Chunk>,
                           comps: seq<(Shape, Shape)>, added: seq<seq<Chunk>>)
  {
    |added| <= |roots| && |roots| == |comps| && NoDup(roots) &&
    (forall j | 0 <= j < |roots| :: roots[j] in c0) &&
    AttachedAll(cells, roots[..|added|], comps[..|added|], added) &&
    (forall j | 0 <= j < |added| ::
       roots[j] in cells && cells[roots[j]].box == c0[roots[j]].box && cells[roots[j]].value == c0[roots[j]].value) &&
    (forall c | c in c0 && c !in roots[..|added|] :: c in cells && cells[c] == c0[c]) &&
    NoDup(Flatten(added)) &&
    (forall c | c in Flatten(added) :: c !in c0 && c in cells) &&
    (forall c | c in cells :: c in c0 || c in Flatten(added))
  }

  /** Nothing completed yet. */
  lemma ProgressStart(c0: map<Chunk, Node>, roots: seq<Chunk>, comps: seq<(Shape, Shape)>)
    requires |roots| == |comps| && NoDup(roots) && forall j | 0 <= j < |roots| :: roots[j] in c0
    ensures Progress(c0, c0, roots, comps, [])
  {
  }

  /** The next record's node is still as it was. */
  lemma ProgressNext(c0: map<Chunk, Node>, cells: map<Chunk, Node>, roots: seq<Chunk>,
                     comps: seq<(Shape, Shape)>, added: seq<seq<Chunk>>)
    requires Progress(c0, cells, roots, comps, added) && |added| < |roots|
    ensures roots[|added|] in cells && cells[roots[|added|]] == c0[roots[|added|]]
  {
  }

  /** An element of one of the lists is in their concatenation. */
  lemma {:induction false} FlattenMember<T>(xs: seq<seq<T>>, j: nat, x: T)
    requires j < |xs| && x in xs[j]
    ensures x in Flatten(xs)
  {
    if j < |xs| - 1 {
      FlattenMember(xs[..|xs| - 1], j, x);
    }
  }

  /**
   * A pair attached below `q` stays attached when only the cell `p`,
   * which is neither `q` nor one of the attached nodes, changes.
   */
  lemma FilledKept(cells: map<Chunk, Node>, cells': map<Chunk, Node>, q: Chunk, comp: (Shape, Shape), p: Chunk)
    requires StubFilled(cells, q, comp) && q != p && p !in Attached(cells, q, comp)
    requires forall c | c in cells && c != p :: c in cells' && cells'[c] == cells[c]
    ensures StubFilled(cells', q, comp) && Attached(cells', q, comp) == Attached(cells, q, comp)
  {
    var n := cells[q];
    ChunksOfRealized(cells, n.left, comp.0);
    ChunksOfRealized(cells, n.right, comp.1);
    RealizesFrame(cells, cells', n.left, comp.0);
    RealizesFrame(cells, cells', n.right, comp.1);
  }

  /** Pairs attached below other nodes stay attached when only the cell `p` changes. */
  lemma AttachedAllKept(cells: map<Chunk, Node>, cells': map<Chunk, Node>, stubs: seq<Chunk>,
                        comps: seq<(Shape, Shape)>, added: seq<seq<Chunk>>, p: Chunk)
    requires AttachedAll(cells, stubs, comps, added) && p !in stubs && p !in Flatten(added)
    requires forall c | c in cells && c != p :: c in cells' && cells'[c] == cells[c]
    ensures AttachedAll(cells', stubs, comps, added)
  {
    forall j | 0 <= j < |comps|
      ensures StubFilled(cells', stubs[j], comps[j]) && added[j] == Attached(cells', stubs[j], comps[j])
    {
      forall c | c in Attached(cells, stubs[j], comps[j]) ensures c != p {
        FlattenMember(added, j, c);
      }
      FilledKept(cells, cells', stubs[j], comps[j], p);
    }
  }

  /** One more stub with its pair attached. */
  lemma AttachedAllAppend(cells: map<Chunk, Node>, stubs: seq<Chunk>, comps: seq<(Shape, Shape)>,
                          added: seq<seq<Chunk>>, p: Chunk, comp: (Shape, Shape), a: seq<Chunk>)
    requires AttachedAll(cells, stubs, comps, added)
    requires StubFilled(cells, p, comp) && a == Attached(cells, p, comp)
    ensures AttachedAll(cells, stubs + [p], comps + [comp], added + [a])
  {
  }

  /** Completing the next record extends the progress by its attached nodes. */
  lemma ProgressStep(c0: map<Chunk, Node>, cells: map<Chunk, Node>, cells': map<Chunk, Node>, roots: seq<Chunk>,
                     comps: seq<(Shape, Shape)>, added: seq<seq<Chunk>>, a: seq<Chunk>)
    requires Progress(c0, cells, roots, comps, added) && |added| < |roots|
    requires AttachedBelow(cells, cells', roots[|added|], comps[|added|], a)
    ensures Progress(c0, cells', roots, comps, added + [a])
  {
    var k, p := |added|, roots[|added|];
    ProgressNext(c0, cells, roots, comps, added);
    var added' := added + [a];
    assert added'[..k] == added;
    assert Flatten(added') == Flatten(added) + a;
    TakeNext(roots, k);
    TakeNext(comps, k);
    AttachedAllKept(cells, cells', roots[..k], comps[..k], added, p);
    AttachedAllAppend(cells', roots[..k], comps[..k], added, p, comps[k], a);
    ProgressFrame(c0, cells, cells', roots, comps, added, a);
    ProgressFrameOld(c0, cells, cells', roots, comps, added, a);
  }

  /** The bookkeeping half of `ProgressStep`: which cells are old, new and unchanged. */
  lemma ProgressFrame(c0: map<Chunk, Node>, cells: map<Chunk, Node>, cells': map<Chunk, Node>, roots: seq<Chunk>,
                      comps: seq<(Shape, Shape)>, added: seq<seq<Chunk>>, a: seq<Chunk>)
    requires Progress(c0, cells, roots, comps, added) && |added| < |roots|
    requires AttachedBelow(cells, cells', roots[|added|], comps[|added|], a)
    ensures NoDup(Flatten(added) + a)
    ensures forall c | c in Flatten(added) + a :: c !in c0 && c in cells'
    ensures forall c | c in cells' :: c in c0 || c in Flatten(added) + a
  {
    var k := |added|;
    assert forall c | c in c0 :: c in cells by {
      forall c | c in c0 ensures c in cells {
        if c in roots[..k] {
          var j :| 0 <= j < k && roots[..k][j] == c;
        }
      }
    }
    NoDupAppend(Flatten(added), a);
  }

  /** The old cells after one more record is completed. */
  lemma ProgressFrameOld(c0: map<Chunk, Node>, cells: map<Chunk, Node>, cells': map<Chunk, Node>, roots: seq<Chunk>,
                         comps: seq<(Shape, Shape)>, added: seq<seq<Chunk>>, a: seq<Chunk>)
    requires Progress(c0, cells, roots, comps, added) && |added| < |roots|
    requires OnlyAttached(cells, cells', roots[|added|], a)
    ensures forall c | c in c0 && c !in roots[..|added| + 1] :: c in cells' && cells'[c] == c0[c]
    ensures forall j | 0 <= j < |added| + 1 ::
      roots[j] in cells' && cells'[roots[j]].box == c0[roots[j]].box && cells'[roots[j]].value == c0[roots[j]].value
  {
    var k, p := |added|, roots[|added|];
    ProgressNext(c0, cells, roots, comps, added);
    TakeNext(roots, k);
    forall j | 0 <= j < k ensures roots[j] != p {
      assert roots[..k][j] == roots[j];
    }
  }

  /** How many of `n` records a counter at `m` has handed out. */
  function Handed(m: nat, n: nat): nat
  {
    if m <= n then m else n
  }

  /** Every chunk a consistent allocator has on loan or free belongs to one of its blocks. */
  lemma ChunksInBlocks(free: seq<Chunk>, issued: set<Chunk>, blocks: seq<Block>)
    requires Accounted(free, issued, blocks)
    ensures forall c | c in issued :: c.block in blocks
    ensures forall c | c in free :: c.block in blocks
  {
    forall c | c in issued ensures c.block in blocks {
      assert c in Owned(blocks);
    }
    forall c | c in free ensures c.block in blocks {
      assert c in Owned(blocks);
    }
  }

  /** What a tree's allocator holds: its free list, the chunks on loan, its blocks and their size. */
  datatype Holding = Holding(free: seq<Chunk>, issued: set<Chunk>, blocks: seq<Block>, chunksPerBlock: nat)

  /** An allocator with nothing yet: the state of a tree just constructed. */
  function EmptyHolding(): Holding
  {
    Holding([], {}, [], NodesPerBlock)
  }

  ghost function HoldingOf(t: BoundaryTree): Holding
    reads t.alloc
  {
    Holding(t.alloc.freeList, t.alloc.issued, t.alloc.blocks, t.alloc.chunksPerBlock)
  }

  /** The holding of an allocatable tree whose nodes are `cells`. */
  ghost predicate Sound(h: Holding, cells: map<Chunk, Node>)
  {
    h.chunksPerBlock == NodesPerBlock && NoDup(h.blocks) && Accounted(h.free, h.issued, h.blocks) &&
    (forall b | b in h.blocks :: b.size == NodesPerBlock) &&
    (forall c | c in h.free :: c !in cells)
  }

  /** A tree is allocatable exactly when its holding is sound on its memory. */
  lemma AllocatableSound(t: BoundaryTree)
    ensures t.Allocatable() <==> Sound(HoldingOf(t), t.mem.cells)
  {
  }

  /** The empty holding is sound on any memory. */
  lemma EmptySound(cells: map<Chunk, Node>)
    ensures Sound(EmptyHolding(), cells)
  {
    assert Owned([]) == {};
  }

  /** The holdings of the records' trees, in record order. */
  ghost function Holdings(wi: WorkerInfo): (hs: seq<Holding>)
    reads wi, wi.allocs
    requires forall j | 0 <= j < |wi.workerNodes| :: wi.workerNodes[j].bvh.alloc in wi.allocs
    ensures |hs| == |wi.workerNodes|
  {
    seq(|wi.workerNodes|, j reads wi, wi.allocs requires 0 <= j < |wi.workerNodes| && wi.workerNodes[j].bvh.alloc in wi.allocs => HoldingOf(wi.workerNodes[j].bvh))
  }

  /** The j-th holding is that of the j-th record's tree. */
  lemma HoldingAt(wi: WorkerInfo, j: nat)
    requires forall j | 0 <= j < |wi.workerNodes| :: wi.workerNodes[j].bvh.alloc in wi.allocs
    requires j < |wi.workerNodes|
    ensures Holdings(wi)[j] == HoldingOf(wi.workerNodes[j].bvh)
  {
  }

  /** The holdings after only the k-th record's tree changed, to `h`. */
  lemma HoldingsUpdated(wi: WorkerInfo, hs: seq<Holding>, k: nat, h: Holding)
    requires forall j | 0 <= j < |wi.workerNodes| :: wi.workerNodes[j].bvh.alloc in wi.allocs
    requires |hs| == |wi.workerNodes| && k < |hs| && HoldingOf(wi.workerNodes[k].bvh) == h
    requires forall j | 0 <= j < |hs| && j != k :: HoldingOf(wi.workerNodes[j].bvh) == hs[j]
    ensures Holdings(wi) == hs[k := h]
  {
    forall j | 0 <= j < |hs| ensures Holdings(wi)[j] == hs[k := h][j] {
      HoldingAt(wi, j);
    }
    SameSeq(Holdings(wi), hs[k := h]);
  }

  lemma SameSeq<T>(a: seq<T>, b: seq<T>)
    requires |a| == |b| && forall j | 0 <= j < |a| :: a[j] == b[j]
    ensures a == b
  {
  }

  /** Every block any of the holdings has. */
  ghost function Taken(hs: seq<Holding>, mh: Holding): set<Block>
  {
    (set b | b in mh.blocks) + (set j, b | 0 <= j < |hs| && b in hs[j].blocks :: b)
  }

  /** No block of `h` is a block of `mh` or of a holding among `hs` other than the k-th. */
  ghost predicate BlocksApart(hs: seq<Holding>, mh: Holding)
  {
    (forall j, b | 0 <= j < |hs| && b in hs[j].blocks :: b !in mh.blocks) &&
    (forall i, j, b | 0 <= i < |hs| && 0 <= j < |hs| && i != j && b in hs[i].blocks :: b !in hs[j].blocks)
  }

  /**
   * The allocators while the workers run: the first `k` records' trees
   * are allocatable on `cells`, the rest still have nothing, the main
   * tree is allocatable, and no two allocators share a block.
   */
  ghost predicate PhaseHoldings(hs: seq<Holding>, mh: Holding, cells: map<Chunk, Node>, k: nat)
  {
    k <= |hs| && Sound(mh, cells) && BlocksApart(hs, mh) &&
    (forall j | k <= j < |hs| :: hs[j] == EmptyHolding()) &&
    (forall j | 0 <= j < k :: Sound(hs[j], cells))
  }

  /** Free chunks of blocks apart from `nb` are none of the chunks `a` of blocks in `nb`. */
  lemma FreeMisses(h: Holding, a: seq<Chunk>, nb: seq<Block>)
    requires Accounted(h.free, h.issued, h.blocks)
    requires forall c | c in a :: c.block in nb
    requires forall b | b in h.blocks :: b !in nb
    ensures forall c | c in h.free :: c !in a
  {
    ChunksInBlocks(h.free, h.issued, h.blocks);
  }

  /**
   * Record `k` was completed: its allocator now holds `h`, sound on the
   * new cells, whose new nodes `a` are all in blocks nobody else had.
   */
  lemma PhaseStep(hs: seq<Holding>, mh: Holding, cells: map<Chunk, Node>, cells': map<Chunk, Node>, k: nat,
                  h: Holding, a: seq<Chunk>)
    requires PhaseHoldings(hs, mh, cells, k) && k < |hs|
    requires Sound(h, cells')
    requires forall c | c in cells' :: c in cells || c in a
    requires forall c | c in a :: c.block in h.blocks
    requires forall b | b in h.blocks :: b !in Taken(hs, mh)
    ensures PhaseHoldings(hs[k := h], mh, cells', k + 1)
  {
    var hs' := hs[k := h];
    forall j, b | 0 <= j < |hs| && j != k && b in hs[j].blocks ensures b !in h.blocks {
      assert b in Taken(hs, mh);
    }
    forall b | b in mh.blocks ensures b !in h.blocks {
      assert b in Taken(hs, mh);
    }
    FreeMisses(mh, a, h.blocks);
    forall j | 0 <= j < k ensures Sound(hs'[j], cells') {
      FreeMisses(hs[j], a, h.blocks);
    }
  }

  /** The next record's tree has nothing yet and its node is still as it was. */
  lemma WorkerReady(c0: map<Chunk, Node>, cells: map<Chunk, Node>, roots: seq<Chunk>, comps: seq<(Shape, Shape)>,
                    added: seq<seq<Chunk>>, hs: seq<Holding>, mh: Holding, h: Holding)
    requires Progress(c0, cells, roots, comps, added) && PhaseHoldings(hs, mh, cells, |added|)
    requires |added| < |hs| == |roots| && h == hs[|added|]
    ensures Sound(h, cells) && h.blocks == []
    ensures |added| < |roots| && roots[|added|] in cells
  {
    EmptySound(cells);
    ProgressNext(c0, cells, roots, comps, added);
  }

  /**
   * One record completed: its pair is attached, its allocator now holds
   * `h`, sound on the new cells, and the nodes attached are chunks on
   * loan from blocks nobody else had.
   */
  lemma WorkerStep(c0: map<Chunk, Node>, cells: map<Chunk, Node>, cells': map<Chunk, Node>, roots: seq<Chunk>,
                   comps: seq<(Shape, Shape)>, added: seq<seq<Chunk>>, a: seq<Chunk>,
                   hs: seq<Holding>, mh: Holding, h: Holding)
    requires Progress(c0, cells, roots, comps, added) && PhaseHoldings(hs, mh, cells, |added|)
    requires |added| < |roots| && |added| < |hs|
    requires AttachedBelow(cells, cells', roots[|added|], comps[|added|], a)
    requires Sound(h, cells') && h.issued == hs[|added|].issued + set c | c in a
    requires forall b | b in h.blocks :: b !in Taken(hs, mh)
    ensures Progress(c0, cells', roots, comps, added + [a])
    ensures PhaseHoldings(hs[|added| := h], mh, cells', |added| + 1)
  {
    ProgressStep(c0, cells, cells', roots, comps, added, a);
    ChunksInBlocks(h.free, h.issued, h.blocks);
    PhaseStep(hs, mh, cells, cells', |added|, h, a);
  }

  /** Records ready for the workers, beside an allocatable main tree, start the worker phase. */
  lemma PhaseStart(wi: WorkerInfo, main: BoundaryTree)
    requires ReadyFor(wi, main) && main.Allocatable()
    ensures PhaseHoldings(Holdings(wi), HoldingOf(main), main.mem.cells, 0)
  {
    AllocatableSound(main);
    forall j | 0 <= j < |wi.workerNodes| ensures Holdings(wi)[j] == EmptyHolding() {
      HoldingAt(wi, j);
    }
  }

  /**
   * What the worker phase leaves unchanged: the records' trees are
   * separate, known to `wi`, on the main tree's memory, and none of them
   * is the main tree or shares its allocator.
   */
  ghost predicate TreesApart(wi: WorkerInfo, main: BoundaryTree)
    reads wi
  {
    var ws := wi.workerNodes;
    Separate(ws) && main !in wi.trees && main.alloc !in wi.allocs &&
    forall j | 0 <= j < |ws| :: ws[j].bvh in wi.trees && ws[j].bvh.alloc in wi.allocs && ws[j].bvh.mem == main.mem
  }

  /**
   * `Mesh::TreeBuilder`. `maxTreeDepth` is the value of `s_MaxTreeDepth`
   * while the builder runs; `workers` is the records list
   * `m_WorkerNodes` points to, and `triangleBoxes` the boxes
   * `m_TriangleAABBs` points to.
   */
  class TreeBuilder {
    /** `m_NextNode`: the next record to hand out (an `int` that only counts up from 0). */
    var nextNode: nat
    const startingDepth: nat
    const maxTrianglesPerLeaf: nat
    const maxTreeDepth: nat
    const workers: WorkerInfo
    const triangleBoxes: seq<Box>

    /** The builder's inputs, as the pure builder takes them. */
    function Cfg(): Config
    {
      Config(triangleBoxes, maxTrianglesPerLeaf, maxTreeDepth)
    }

    /** `TreeBuilder(mesh, workerNodes, triangleAABBs, maxTrianglesPerLeaf, startingDepth)`. */
    constructor (workers: WorkerInfo, triangleBoxes: seq<Box>, maxTrianglesPerLeaf: nat, startingDepth: nat,
                 maxTreeDepth: nat)
      ensures this.workers == workers && this.triangleBoxes == triangleBoxes
      ensures this.maxTrianglesPerLeaf == maxTrianglesPerLeaf && this.startingDepth == startingDepth
      ensures this.maxTreeDepth == maxTreeDepth && nextNode == 0
    {
      this.workers := workers;
      this.triangleBoxes := triangleBoxes;
      this.maxTrianglesPerLeaf := maxTrianglesPerLeaf;
      this.startingDepth := startingDepth;
      this.maxTreeDepth := maxTreeDepth;
      nextNode := 0;
    }

    /**
     * `buildTree(boxInfo, bvh, workerInfo, depth)`: no node for no
     * triangles; otherwise a node in `bvh`, which becomes a leaf holding
     * the triangles, or is recorded for a worker at the concurrency depth,
     * or gets the two halves built below it (`BuildBelow`).
     *
     * The nodes created realize `BuildShape` of the same arguments, are
     * new and distinct, and are exactly the chunks now on loan; the records
     * appended describe the deferred nodes in order, each with a fresh,
     * empty tree of its own.
     */
    method BuildTree(info: SplitInfo, bvh: BoundaryTree, workerInfo: WorkerInfo?, depth: nat) returns (r: Ref)
      requires IndicesIn(info.indices, |triangleBoxes|)
      requires bvh.Allocatable()
      requires workerInfo != null ==> ReadyFor(workerInfo, bvh)
      modifies bvh, bvh.alloc, bvh.mem, workerInfo
      decreases maxTreeDepth - depth, 1
      ensures bvh.Allocatable()
      ensures Built(old(bvh.mem.cells), old(bvh.alloc.issued), bvh.mem.cells, bvh.alloc.issued, r,
                    BuildShape(Cfg(), info, depth, DeferAt(workerInfo)))
      ensures bvh.root == if old(bvh.root).Null? then r else old(bvh.root)
      ensures bvh.shape == old(bvh.shape) && bvh.mem.destroyed == old(bvh.mem.destroyed)
      ensures forall b | b in old(bvh.alloc.blocks) :: b in bvh.alloc.blocks
      ensures forall b | b in bvh.alloc.blocks :: b in old(bvh.alloc.blocks) || fresh(b)
      ensures workerInfo != null ==>
        Recorded(old(workerInfo.workerNodes), workerInfo.workerNodes, Deferred(Cfg(), info, depth, workerInfo.depth),
                 StubChunks(bvh.mem.cells, r, BuildShape(Cfg(), info, depth, DeferAt(workerInfo))))
      ensures workerInfo != null ==> ReadyFor(workerInfo, bvh)
      ensures workerInfo != null ==> forall t | t in workerInfo.trees :: t in old(workerInfo.trees) || fresh(t)
      ensures workerInfo != null ==> forall a | a in workerInfo.allocs :: a in old(workerInfo.allocs) || fresh(a)
    {
      if |info.indices| == 0 {
        if workerInfo != null {
          assert workerInfo.workerNodes[|workerInfo.workerNodes|..] == [];
        }
        return Null;
      }
      ghost var c0, i0 := bvh.mem.cells, bvh.alloc.issued;
      var node := bvh.CreateNode(info.box);
      r := Ptr(node);
      if |info.indices| <= maxTrianglesPerLeaf || depth >= maxTreeDepth {
        bvh.mem.cells := bvh.mem.cells[node := bvh.mem.cells[node].(value := info.indices)];
        BuiltLeaf(c0, i0, bvh.mem.cells, node, info.box, info.indices);
        if workerInfo != null {
          assert workerInfo.workerNodes[|workerInfo.workerNodes|..] == [];
        }
      } else if workerInfo != null && depth >= workerInfo.depth {
        var tree := workerInfo.Record(info.box, node, info.indices, bvh);
        BuiltStub(c0, i0, bvh.mem.cells, node, info.box);
        assert workerInfo.workerNodes[|old(workerInfo.workerNodes)|..] == [WorkerNode(info.box, node, info.indices, tree)];
      } else {
        BuildBelow(node, info, bvh, workerInfo, depth, c0, i0);
      }
    }

    /**
     * The last case of `buildTree`: the node's box is split on axis
     * `depth % 3` and the two halves are built one level deeper, left
     * first, each linked below `node` as soon as it is built.
     */
    method BuildBelow(node: Chunk, info: SplitInfo, bvh: BoundaryTree, workerInfo: WorkerInfo?, depth: nat,
                      ghost c0: map<Chunk, Node>, ghost i0: set<Chunk>)
      requires IndicesIn(info.indices, |triangleBoxes|)
      requires info.indices != [] && !IsLeaf(Cfg(), info, depth)
      requires workerInfo != null ==> depth < workerInfo.depth
      requires bvh.Allocatable() && bvh.root.Ptr?
      requires node !in c0 && bvh.mem.cells == c0[node := NewNode(info.box)]
      requires bvh.alloc.issued == i0 + {node}
      requires workerInfo != null ==> ReadyFor(workerInfo, bvh)
      modifies bvh, bvh.alloc, bvh.mem, workerInfo
      decreases maxTreeDepth - depth, 0
      ensures bvh.Allocatable()
      ensures Built(c0, i0, bvh.mem.cells, bvh.alloc.issued, Ptr(node),
                    BuildShape(Cfg(), info, depth, DeferAt(workerInfo)))
      ensures bvh.root == old(bvh.root)
      ensures bvh.shape == old(bvh.shape) && bvh.mem.destroyed == old(bvh.mem.destroyed)
      ensures forall b | b in old(bvh.alloc.blocks) :: b in bvh.alloc.blocks
      ensures forall b | b in bvh.alloc.blocks :: b in old(bvh.alloc.blocks) || fresh(b)
      ensures workerInfo != null ==>
        Recorded(old(workerInfo.workerNodes), workerInfo.workerNodes, Deferred(Cfg(), info, depth, workerInfo.depth),
                 StubChunks(bvh.mem.cells, Ptr(node), BuildShape(Cfg(), info, depth, DeferAt(workerInfo))))
      ensures workerInfo != null ==> ReadyFor(workerInfo, bvh)
      ensures workerInfo != null ==> forall t | t in workerInfo.trees :: t in old(workerInfo.trees) || fresh(t)
      ensures workerInfo != null ==> forall a | a in workerInfo.allocs :: a in old(workerInfo.allocs) || fresh(a)
    {
      ghost var c1 := bvh.mem.cells;
      ghost var w0 := if workerInfo == null then [] else workerInfo.workerNodes;
      var pair := SplitBoundingVolume(info.box, info.indices, triangleBoxes, depth);
      var left, c2 := BuildHalf(node, pair.left, true, bvh, workerInfo, depth + 1);
      ghost var c3, i2 := bvh.mem.cells, bvh.alloc.issued;
      ghost var w1 := if workerInfo == null then [] else workerInfo.workerNodes;
      ghost var b1 := bvh.alloc.blocks;
      ghost var t1 := if workerInfo == null then {} else workerInfo.trees;
      ghost var a1 := if workerInfo == null then {} else workerInfo.allocs;
      var right, c4 := BuildHalf(node, pair.right, false, bvh, workerInfo, depth + 1);
      forall b | b in bvh.alloc.blocks ensures b in old(bvh.alloc.blocks) || fresh(b) {
        if b in b1 {
        }
      }
      if workerInfo != null {
        forall t | t in workerInfo.trees ensures t in old(workerInfo.trees) || fresh(t) {
          if t in t1 {
          }
        }
        forall a | a in workerInfo.allocs ensures a in old(workerInfo.allocs) || fresh(a) {
          if a in a1 {
          }
        }
      }
      BelowBuilt(Cfg(), info, depth, DeferAt(workerInfo), c0, i0, c1, c2, i2, c3, c4, bvh.alloc.issued, bvh.mem.cells,
                 node, left, right);
      if workerInfo != null {
        BelowRecorded(Cfg(), info, depth, workerInfo.depth, w0, w1, workerInfo.workerNodes,
                      StubChunks(c2, left, BuildShape(Cfg(), pair.left, depth + 1, DeferAt(workerInfo))),
                      StubChunks(c4, right, BuildShape(Cfg(), pair.right, depth + 1, DeferAt(workerInfo))));
      }
    }

    /**
     * One half below `node`: `root->left = buildTree(...)` when `isLeft`,
     * `root->right = buildTree(...)` otherwise. `built` is the node memory
     * after the half is built and before it is linked.
     */
    method BuildHalf(node: Chunk, half: SplitInfo, isLeft: bool, bvh: BoundaryTree, workerInfo: WorkerInfo?, depth: nat)
      returns (child: Ref, ghost built: map<Chunk, Node>)
      requires IndicesIn(half.indices, |triangleBoxes|)
      requires bvh.Allocatable() && node in bvh.mem.cells
      requires workerInfo != null ==> ReadyFor(workerInfo, bvh)
      modifies bvh, bvh.alloc, bvh.mem, workerInfo
      decreases maxTreeDepth - depth, 2
      ensures bvh.Allocatable()
      ensures Linked(old(bvh.mem.cells), old(bvh.alloc.issued), built, bvh.alloc.issued, bvh.mem.cells, node, child,
                     BuildShape(Cfg(), half, depth, DeferAt(workerInfo)), isLeft)
      ensures bvh.root == if old(bvh.root).Null? then child else old(bvh.root)
      ensures bvh.shape == old(bvh.shape) && bvh.mem.destroyed == old(bvh.mem.destroyed)
      ensures forall b | b in old(bvh.alloc.blocks) :: b in bvh.alloc.blocks
      ensures forall b | b in bvh.alloc.blocks :: b in old(bvh.alloc.blocks) || fresh(b)
      ensures workerInfo != null ==>
        Recorded(old(workerInfo.workerNodes), workerInfo.workerNodes, Deferred(Cfg(), half, depth, workerInfo.depth),
                 StubChunks(built, child, BuildShape(Cfg(), half, depth, DeferAt(workerInfo))))
      ensures workerInfo != null ==> ReadyFor(workerInfo, bvh)
      ensures workerInfo != null ==> forall t | t in workerInfo.trees :: t in old(workerInfo.trees) || fresh(t)
      ensures workerInfo != null ==> forall a | a in workerInfo.allocs :: a in old(workerInfo.allocs) || fresh(a)
    {
      child := BuildTree(half, bvh, workerInfo, depth);
      built := bvh.mem.cells;
      var n := bvh.mem.cells[node];
      bvh.mem.cells := bvh.mem.cells[node := if isLeft then n.(left := child) else n.(right := child)];
    }

    /**
     * `constructTree(node, triangleAABBs)`: splits a record's box on axis
     * `startingDepth % 3` and builds each half below the record's node,
     * left first, in the record's own tree and with no deferral. The
     * halves are built from depth `startingDepth + 1`, one level below the
     * node; `constructTree` as written passes `m_StartingDepth` (see the finding
     * `BvhSpec.WorkerStartsOneLevelTooHigh`).
     */
    method ConstructTree(node: WorkerNode) returns (ghost added: seq<Chunk>)
      requires IndicesIn(node.indices, |triangleBoxes|)
      requires node.bvh.Allocatable() && node.root in node.bvh.mem.cells
      modifies node.bvh, node.bvh.alloc, node.bvh.mem
      ensures node.bvh.Allocatable()
      ensures AttachedBelow(old(node.bvh.mem.cells), node.bvh.mem.cells, node.root,
                            Completion(Cfg(), InfoOf(node), startingDepth, startingDepth + 1), added)
      ensures node.bvh.alloc.issued == old(node.bvh.alloc.issued) + set c | c in added
      ensures var n := node.bvh.mem.cells[node.root];
        node.bvh.root == if old(node.bvh.root).Ptr? then old(node.bvh.root) else if n.left.Ptr? then n.left else n.right
      ensures node.bvh.shape == old(node.bvh.shape) && node.bvh.mem.destroyed == old(node.bvh.mem.destroyed)
      ensures forall b | b in old(node.bvh.alloc.blocks) :: b in node.bvh.alloc.blocks
      ensures forall b | b in node.bvh.alloc.blocks :: b in old(node.bvh.alloc.blocks) || fresh(b)
    {
      var bvh := node.bvh;
      ghost var c1, i1 := bvh.mem.cells, bvh.alloc.issued;
      var pair := SplitBoundingVolume(node.box, node.indices, triangleBoxes, startingDepth);
      var left, c2 := BuildHalf(node.root, pair.left, true, bvh, null, startingDepth + 1);
      ghost var c3, i2 := bvh.mem.cells, bvh.alloc.issued;
      var right, c4 := BuildHalf(node.root, pair.right, false, bvh, null, startingDepth + 1);
      ghost var sl := BuildShape(Cfg(), pair.left, startingDepth + 1, None);
      ghost var sr := BuildShape(Cfg(), pair.right, startingDepth + 1, None);
      AttachHalves(c1, i1, c2, i2, c3, c4, bvh.alloc.issued, bvh.mem.cells, node.root, left, sl, right, sr);
      HalvesIssued(c1, i1, c2, i2, c3, c4, bvh.alloc.issued, left, sl, right, sr);
      added := Chunks(c2, left, sl) + Chunks(c4, right, sr);
    }

    /** `assignWork(workIndex)`: hands out the next record, and says whether there was one. */
    method AssignWork() returns (workIndex: nat, ok: bool)
      modifies this
      ensures workIndex == old(nextNode) && nextNode == old(nextNode) + 1
      ensures ok <==> workIndex < |workers.workerNodes|
    {
      workIndex := nextNode;
      nextNode := nextNode + 1;
      ok := workIndex < |workers.workerNodes|;
    }

    /**
     * The worker phase after the records `added` lists were completed:
     * the plan of the records, their trees apart from `main` and from
     * each other, the allocators' holdings, and the cells attached so far.
     */
    ghost predicate Working(main: BoundaryTree, c0: map<Chunk, Node>, roots: seq<Chunk>,
                            comps: seq<(Shape, Shape)>, added: seq<seq<Chunk>>)
      reads workers, workers.allocs, main.alloc, main.mem
    {
      Plan(Cfg(), workers.workerNodes, startingDepth, roots, comps) &&
      TreesApart(workers, main) &&
      PhaseHoldings(Holdings(workers), HoldingOf(main), main.mem.cells, |added|) &&
      Progress(c0, main.mem.cells, roots, comps, added)
    }

    /** The record handed out next is ready for `constructTree`, with a tree that has nothing yet. */
    lemma RecordReady(k: nat, main: BoundaryTree, c0: map<Chunk, Node>, roots: seq<Chunk>,
                      comps: seq<(Shape, Shape)>, added: seq<seq<Chunk>>)
      requires Working(main, c0, roots, comps, added)
      requires k == |added| < |workers.workerNodes|
      ensures var w := workers.workerNodes[k];
        IndicesIn(w.indices, |triangleBoxes|) && w.bvh.Allocatable() && w.root in w.bvh.mem.cells &&
        comps[k] == Completion(Cfg(), InfoOf(w), startingDepth, startingDepth + 1) &&
        w.bvh.alloc.blocks == [] && w.bvh.alloc.issued == {}
    {
      var w := workers.workerNodes[k];
      HoldingAt(workers, k);
      CompletesAt(Cfg(), workers.workerNodes, startingDepth, comps, k);
      WorkerReady(c0, main.mem.cells, roots, comps, added, Holdings(workers), HoldingOf(main), HoldingOf(w.bvh));
      AllocatableSound(w.bvh);
    }

    /**
     * One turn of `assignWorker`'s loop: `constructTree` on the record
     * handed out, which is the next one not yet completed. Its tree gains
     * the record's two halves and blocks nobody else had.
     */
    method CompleteRecord(workIndex: nat, ghost main: BoundaryTree, ghost c0: map<Chunk, Node>,
                          ghost roots: seq<Chunk>, ghost comps: seq<(Shape, Shape)>, ghost added: seq<seq<Chunk>>)
      returns (ghost added': seq<seq<Chunk>>)
      requires Working(main, c0, roots, comps, added)
      requires workIndex == |added| < |workers.workerNodes|
      modifies workers.trees, workers.allocs, main.mem
      ensures Working(main, c0, roots, comps, added') && |added'| == |added| + 1
      ensures main.mem.destroyed == old(main.mem.destroyed)
    {
      ghost var ws := workers.workerNodes;
      ghost var before := main.mem.cells;
      ghost var hs := Holdings(workers);
      ghost var taken := Taken(hs, HoldingOf(main));
      var w := workers.workerNodes[workIndex];
      forall j | 0 <= j < |ws| ensures hs[j] == HoldingOf(ws[j].bvh) {
        HoldingAt(workers, j);
      }
      RecordReady(workIndex, main, c0, roots, comps, added);
      var a := ConstructTree(w);
      AllocatableSound(w.bvh);
      forall b | b in w.bvh.alloc.blocks ensures b !in taken {
        assert fresh(b);
      }
      WorkerStep(c0, before, main.mem.cells, roots, comps, added, a, hs, HoldingOf(main), HoldingOf(w.bvh));
      forall j | 0 <= j < |ws| && j != workIndex ensures HoldingOf(ws[j].bvh) == hs[j] {
        assert ws[j].bvh.alloc != w.bvh.alloc;
      }
      HoldingsUpdated(workers, hs, workIndex, HoldingOf(w.bvh));
      added' := added + [a];
    }

    /**
     * `assignWorker()`: completes records while there are records to hand
     * out. `main` is the mesh's tree whose memory the nodes live in, `c0`
     * the cells when the workers started, and `roots` and `comps` the
     * records' plan; run on its own, this worker completes every record
     * not yet handed out, in order.
     */
    method AssignWorker(ghost main: BoundaryTree, ghost c0: map<Chunk, Node>, ghost roots: seq<Chunk>,
                        ghost comps: seq<(Shape, Shape)>, ghost added0: seq<seq<Chunk>>)
      returns (ghost added: seq<seq<Chunk>>)
      requires Working(main, c0, roots, comps, added0)
      requires |added0| == Handed(nextNode, |workers.workerNodes|)
      modifies this, workers.trees, workers.allocs, main.mem
      ensures Working(main, c0, roots, comps, added) && |added| == |workers.workerNodes|
      ensures nextNode == (if old(nextNode) <= |workers.workerNodes| then |workers.workerNodes| else old(nextNode)) + 1
      ensures main.mem.destroyed == old(main.mem.destroyed)
    {
      ghost var ws := workers.workerNodes;
      added := added0;
      while true
        invariant workers.workerNodes == ws
        invariant Working(main, c0, roots, comps, added)
        invariant |added| == Handed(nextNode, |ws|)
        invariant old(nextNode) <= |ws| ==> nextNode <= |ws|
        invariant old(nextNode) > |ws| ==> nextNode == old(nextNode)
        invariant main.mem.destroyed == old(main.mem.destroyed)
        decreases |ws| - Handed(nextNode, |ws|)
      {
        var workIndex, ok := AssignWork();
        if !ok {
          assert |added| == |ws|;
          break;
        }
        added := CompleteRecord(workIndex, main, c0, roots, comps, added);
      }
    }

    /**
     * `startConcurrency(threadCount)`: `threads` workers, `threadCount` of
     * them or, for 0, as many as `hardwareThreads` (what
     * `std::thread::hardware_concurrency()` reported, which may be 0).
     * The workers are run one after the other; the first completes every
     * record, in order, and each later one finds none left.
     */
    method StartConcurrency(threadCount: nat, hardwareThreads: nat, ghost main: BoundaryTree,
                            ghost c0: map<Chunk, Node>, ghost roots: seq<Chunk>, ghost comps: seq<(Shape, Shape)>)
      returns (ghost added: seq<seq<Chunk>>)
      requires Working(main, c0, roots, comps, []) && nextNode == 0
      modifies this, workers.trees, workers.allocs, main.mem
      ensures var threads := Threads(threadCount, hardwareThreads);
        |added| == (if threads == 0 then 0 else |workers.workerNodes|) &&
        nextNode == (if threads == 0 then 0 else |workers.workerNodes| + threads)
      ensures Working(main, c0, roots, comps, added)
      ensures main.mem.destroyed == old(main.mem.destroyed)
    {
      ghost var ws := workers.workerNodes;
      var threads := if threadCount != 0 then threadCount else hardwareThreads;
      added := [];
      for i := 0 to threads
        invariant Working(main, c0, roots, comps, added)
        invariant |added| == (if i == 0 then 0 else |ws|)
        invariant nextNode == (if i == 0 then 0 else |ws| + i)
        invariant main.mem.destroyed == old(main.mem.destroyed)
      {
        added := AssignWorker(main, c0, roots, comps, added);
      }
    }
  }

  /** The number of workers `startConcurrency` starts. */
  function Threads(threadCount: nat, hardwareThreads: nat): nat
  {
    if threadCount != 0 then threadCount else hardwareThreads
  }
}
