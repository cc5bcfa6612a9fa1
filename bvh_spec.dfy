/**
 * What `Mesh::constructBVH` builds, as pure recursion over the triangle
 * index list: the splitting of a node (`splitBoundingVolume`), the
 * recursive builder (`TreeBuilder::buildTree`), the nodes it defers to
 * the worker threads, and what a worker attaches below a deferred node
 * (`TreeBuilder::constructTree`).
 */
module BvhSpec {
  import opened Boxes
  import opened Trees
  import opened Wrappers
  import Utility

  /**
   * The builder's fixed inputs: the box of every triangle, the leaf
   * capacity (`m_MaxTrianglesPerLeaf`) and the depth limit (`s_MaxTreeDepth`).
   */
  datatype Config = Config(boxes: seq<Box>, maxPerLeaf: nat, maxDepth: nat)

  /** A node to build: its box and the triangles that touch it. */
  datatype SplitInfo = SplitInfo(box: Box, indices: seq<int>)

  datatype SplitPair = SplitPair(left: SplitInfo, right: SplitInfo)

  /** Concurrency depth of `constructBVH`: nodes this deep go to the workers. */
  const ConcurrencyDepth: nat := 6

  /** The default of `s_MaxTreeDepth`. */
  const DefaultMaxTreeDepth: nat := 30

  /** The default of `m_MaxTrianglesPerLeaf`. */
  const DefaultMaxTrianglesPerLeaf: nat := 15

  /** Every index names one of `n` triangles. */
  predicate IndicesIn(indices: seq<int>, n: nat)
  {
    forall k | 0 <= k < |indices| :: 0 <= indices[k] < n
  }

  /** The indices, in their order, of the triangles whose box intersects `half`. */
  function Overlapping(boxes: seq<Box>, half: Box, indices: seq<int>): (r: seq<int>)
    requires IndicesIn(indices, |boxes|)
    ensures IndicesIn(r, |boxes|)
  {
    if indices == [] then []
    else
      var init, last := indices[..|indices| - 1], indices[|indices| - 1];
      Overlapping(boxes, half, init) + (if Overlaps(half, boxes[last]) then [last] else [])
  }

  /** The filter adds nothing: every kept index was in the input. */
  lemma {:induction false} OverlappingSubset(boxes: seq<Box>, half: Box, indices: seq<int>)
    requires IndicesIn(indices, |boxes|)
    ensures |Overlapping(boxes, half, indices)| <= |indices|
    ensures forall i | i in Overlapping(boxes, half, indices) :: i in indices
  {
    if indices != [] {
      OverlappingSubset(boxes, half, indices[..|indices| - 1]);
    }
  }

  /** The filter keeps only triangles whose boxes intersect `half`. */
  lemma {:induction false} OverlappingSound(boxes: seq<Box>, half: Box, indices: seq<int>)
    requires IndicesIn(indices, |boxes|)
    ensures forall i | i in Overlapping(boxes, half, indices) :: Overlaps(half, boxes[i])
  {
    if indices != [] {
      OverlappingSound(boxes, half, indices[..|indices| - 1]);
    }
  }

  /** The filter drops none of the triangles whose boxes intersect `half`. */
  lemma {:induction false} OverlappingComplete(boxes: seq<Box>, half: Box, indices: seq<int>, k: nat)
    requires IndicesIn(indices, |boxes|)
    requires k < |indices| && Overlaps(half, boxes[indices[k]])
    ensures indices[k] in Overlapping(boxes, half, indices)
  {
    if k < |indices| - 1 {
      OverlappingComplete(boxes, half, indices[..|indices| - 1], k);
    }
  }

  /**
   * `sub` is `s` with some entries dropped and the rest kept in order:
   * entry j of `sub` is entry `pos[j]` of `s`, and the positions increase.
   */
  ghost predicate SubsequenceAt(sub: seq<int>, s: seq<int>, pos: seq<nat>)
  {
    |pos| == |sub| &&
    (forall j | 0 <= j < |pos| :: pos[j] < |s| && sub[j] == s[pos[j]]) &&
    (forall j, k | 0 <= j < k < |pos| :: pos[j] < pos[k])
  }

  /** A subsequence of the list without its last entry is a subsequence of the whole list. */
  lemma SubsequenceOfPrefix(sub: seq<int>, s: seq<int>, pos: seq<nat>)
    requires s != [] && SubsequenceAt(sub, s[..|s| - 1], pos)
    ensures SubsequenceAt(sub, s, pos)
    ensures SubsequenceAt(sub + [s[|s| - 1]], s, pos + [|s| - 1])
  {
  }

  /** The filter keeps the surviving indices in their order: its result is a subsequence of its input. */
  lemma {:induction false} OverlappingOrdered(boxes: seq<Box>, half: Box, indices: seq<int>)
    requires IndicesIn(indices, |boxes|)
    ensures exists pos: seq<nat> :: SubsequenceAt(Overlapping(boxes, half, indices), indices, pos)
  {
    if indices == [] {
      var none: seq<nat> := [];
      assert SubsequenceAt(Overlapping(boxes, half, indices), indices, none);
    } else {
      var init := indices[..|indices| - 1];
      OverlappingOrdered(boxes, half, init);
      var pos: seq<nat> :| SubsequenceAt(Overlapping(boxes, half, init), init, pos);
      SubsequenceOfPrefix(Overlapping(boxes, half, init), indices, pos);
      if Overlaps(half, boxes[indices[|indices| - 1]]) {
        assert SubsequenceAt(Overlapping(boxes, half, indices), indices, pos + [|indices| - 1]);
      } else {
        assert SubsequenceAt(Overlapping(boxes, half, indices), indices, pos);
      }
    }
  }

  /** When every triangle's box intersects `half`, the filter keeps the whole list. */
  lemma {:induction false} OverlappingKeepsAll(boxes: seq<Box>, half: Box, indices: seq<int>)
    requires IndicesIn(indices, |boxes|)
    requires forall k | 0 <= k < |indices| :: Overlaps(half, boxes[indices[k]])
    ensures Overlapping(boxes, half, indices) == indices
  {
    if indices != [] {
      OverlappingKeepsAll(boxes, half, indices[..|indices| - 1]);
      assert indices[..|indices| - 1] + [indices[|indices| - 1]] == indices;
    }
  }

  /** The axis a node at `depth` is split on, `depth % 3`, counted down in steps of three. */
  function SplitAxis(depth: nat): (axis: nat)
    ensures axis < 3
  {
    if depth < 3 then depth else SplitAxis(depth - 3)
  }

  /** The count-down is the remainder modulo 3. */
  lemma {:induction false} SplitAxisIsRemainder(depth: nat)
    ensures SplitAxis(depth) == depth % 3
  {
    if depth >= 3 {
      SplitAxisIsRemainder(depth - 3);
    }
  }

  /**
   * `splitBoundingVolume`: halves the box on axis `depth % 3` and gives
   * each half the triangles whose boxes intersect it (a triangle can go
   * to both halves).
   */
  function SplitVolume(boxes: seq<Box>, info: SplitInfo, depth: nat): (p: SplitPair)
    requires IndicesIn(info.indices, |boxes|)
  {
    var halves := Split(info.box, SplitAxis(depth));
    SplitPair(SplitInfo(halves.leftBox, Overlapping(boxes, halves.leftBox, info.indices)),
              SplitInfo(halves.rightBox, Overlapping(boxes, halves.rightBox, info.indices)))
  }

  /** A node keeps its triangles when they fit in a leaf or the depth limit is reached. */
  predicate IsLeaf(cfg: Config, info: SplitInfo, depth: nat)
  {
    |info.indices| <= cfg.maxPerLeaf || depth >= cfg.maxDepth
  }

  /**
   * `buildTree(boxInfo, bvh, workerInfo, depth)`: no node for no
   * triangles; a leaf holding the triangles; with `deferAt` = the worker
   * depth, a node left for a worker (a stub) once that depth is reached;
   * otherwise an inner node over the two halves, one level deeper.
   */
  function BuildShape(cfg: Config, info: SplitInfo, depth: nat, deferAt: Option<nat>): (s: Shape)
    requires IndicesIn(info.indices, |cfg.boxes|)
    decreases cfg.maxDepth - depth
    ensures s.Nil? <==> info.indices == []
    ensures !s.Nil? ==> s.box == info.box
  {
    if info.indices == [] then Nil
    else if IsLeaf(cfg, info, depth) then Branch(info.box, info.indices, Nil, Nil)
    else if deferAt.Some? && depth >= deferAt.value then Stub(info.box, [])
    else
      var p := SplitVolume(cfg.boxes, info, depth);
      Branch(info.box, [], BuildShape(cfg, p.left, depth + 1, deferAt), BuildShape(cfg, p.right, depth + 1, deferAt))
  }

  /** The nodes `buildTree` hands to the workers, in the order it records them. */
  function Deferred(cfg: Config, info: SplitInfo, depth: nat, workerDepth: nat): (ws: seq<SplitInfo>)
    requires IndicesIn(info.indices, |cfg.boxes|)
    decreases cfg.maxDepth - depth
    ensures |ws| == StubCount(BuildShape(cfg, info, depth, Some(workerDepth)))
    ensures forall k | 0 <= k < |ws| :: IndicesIn(ws[k].indices, |cfg.boxes|)
  {
    if info.indices == [] || IsLeaf(cfg, info, depth) then []
    else if depth >= workerDepth then [info]
    else
      var p := SplitVolume(cfg.boxes, info, depth);
      Deferred(cfg, p.left, depth + 1, workerDepth) + Deferred(cfg, p.right, depth + 1, workerDepth)
  }

  /**
   * What a worker attaches below a deferred node: the node is split on
   * axis `splitDepth % 3` and each half built, without further deferral,
   * from depth `childDepth`.
   */
  function Completion(cfg: Config, w: SplitInfo, splitDepth: nat, childDepth: nat): (Shape, Shape)
    requires IndicesIn(w.indices, |cfg.boxes|)
  {
    var p := SplitVolume(cfg.boxes, w, splitDepth);
    (BuildShape(cfg, p.left, childDepth, None), BuildShape(cfg, p.right, childDepth, None))
  }

  /** The completions of a list of deferred nodes. */
  function Completions(cfg: Config, ws: seq<SplitInfo>, splitDepth: nat, childDepth: nat): (cs: seq<(Shape, Shape)>)
    requires forall k | 0 <= k < |ws| :: IndicesIn(ws[k].indices, |cfg.boxes|)
    ensures |cs| == |ws|
    ensures forall k | 0 <= k < |ws| :: cs[k] == Completion(cfg, ws[k], splitDepth, childDepth)
  {
    seq(|ws|, k requires 0 <= k < |ws| => Completion(cfg, ws[k], splitDepth, childDepth))
  }

  /** Completing a concatenation completes each part. */
  lemma CompletionsAppend(cfg: Config, a: seq<SplitInfo>, b: seq<SplitInfo>, splitDepth: nat, childDepth: nat)
    requires forall k | 0 <= k < |a| :: IndicesIn(a[k].indices, |cfg.boxes|)
    requires forall k | 0 <= k < |b| :: IndicesIn(b[k].indices, |cfg.boxes|)
    ensures forall k | 0 <= k < |a + b| :: IndicesIn((a + b)[k].indices, |cfg.boxes|)
    ensures Completions(cfg, a + b, splitDepth, childDepth) ==
            Completions(cfg, a, splitDepth, childDepth) + Completions(cfg, b, splitDepth, childDepth)
  {
    assert forall k | 0 <= k < |a + b| :: (a + b)[k] == if k < |a| then a[k] else b[k - |a|];
  }

  /**
   * The sequential builder at a node it would defer: it splits the node
   * on the node's own depth and builds the halves one level deeper, which
   * is `Completion(cfg, w, depth, depth + 1)`.
   */
  lemma SequentialAtDeferredNode(cfg: Config, w: SplitInfo, depth: nat)
    requires IndicesIn(w.indices, |cfg.boxes|)
    requires w.indices != [] && !IsLeaf(cfg, w, depth)
    ensures BuildShape(cfg, w, depth, None) ==
            Branch(w.box, [], Completion(cfg, w, depth, depth + 1).0, Completion(cfg, w, depth, depth + 1).1)
  {
  }

  /**
   * The concurrent scheme, with workers that build the halves of a
   * deferred node one level below it, gives exactly the tree of the
   * sequential builder.
   */
  lemma {:induction false} ConcurrentBuildIsSequential(cfg: Config, info: SplitInfo, depth: nat, workerDepth: nat)
    requires IndicesIn(info.indices, |cfg.boxes|)
    requires depth <= workerDepth
    decreases cfg.maxDepth - depth
    ensures Fill(BuildShape(cfg, info, depth, Some(workerDepth)),
                 Completions(cfg, Deferred(cfg, info, depth, workerDepth), workerDepth, workerDepth + 1))
            == BuildShape(cfg, info, depth, None)
  {
    if info.indices == [] || IsLeaf(cfg, info, depth) {
    } else if depth >= workerDepth {
      SequentialAtDeferredNode(cfg, info, depth);
    } else {
      var p := SplitVolume(cfg.boxes, info, depth);
      var dl := Deferred(cfg, p.left, depth + 1, workerDepth);
      var dr := Deferred(cfg, p.right, depth + 1, workerDepth);
      var sl := BuildShape(cfg, p.left, depth + 1, Some(workerDepth));
      var sr := BuildShape(cfg, p.right, depth + 1, Some(workerDepth));
      ConcurrentBuildIsSequential(cfg, p.left, depth + 1, workerDepth);
      ConcurrentBuildIsSequential(cfg, p.right, depth + 1, workerDepth);
      InnerNodeUnfolds(cfg, info, depth, workerDepth);
      FillInner(cfg, info.box, sl, sr, dl, dr, workerDepth, BuildShape(cfg, p.left, depth + 1, None),
                BuildShape(cfg, p.right, depth + 1, None));
    }
  }

  /** Filling an inner node with the completions of its deferred nodes fills its two subtrees. */
  lemma FillInner(cfg: Config, box: Box, sl: Shape, sr: Shape, dl: seq<SplitInfo>, dr: seq<SplitInfo>, workerDepth: nat,
                  tl: Shape, tr: Shape)
    requires forall k | 0 <= k < |dl| :: IndicesIn(dl[k].indices, |cfg.boxes|)
    requires forall k | 0 <= k < |dr| :: IndicesIn(dr[k].indices, |cfg.boxes|)
    requires |dl| == StubCount(sl) && |dr| == StubCount(sr)
    requires Fill(sl, Completions(cfg, dl, workerDepth, workerDepth + 1)) == tl
    requires Fill(sr, Completions(cfg, dr, workerDepth, workerDepth + 1)) == tr
    ensures forall k | 0 <= k < |dl + dr| :: IndicesIn((dl + dr)[k].indices, |cfg.boxes|)
    ensures Fill(Branch(box, [], sl, sr), Completions(cfg, dl + dr, workerDepth, workerDepth + 1)) == Branch(box, [], tl, tr)
  {
    CompletionsAppend(cfg, dl, dr, workerDepth, workerDepth + 1);
    FillBranch(box, [], sl, sr, Completions(cfg, dl, workerDepth, workerDepth + 1), Completions(cfg, dr, workerDepth, workerDepth + 1));
  }

  /** Above the worker depth, both builders and the deferral list split the node the same way. */
  lemma InnerNodeUnfolds(cfg: Config, info: SplitInfo, depth: nat, workerDepth: nat)
    requires IndicesIn(info.indices, |cfg.boxes|)
    requires depth < workerDepth && info.indices != [] && !IsLeaf(cfg, info, depth)
    ensures var p := SplitVolume(cfg.boxes, info, depth);
      && BuildShape(cfg, info, depth, Some(workerDepth)) ==
         Branch(info.box, [], BuildShape(cfg, p.left, depth + 1, Some(workerDepth)), BuildShape(cfg, p.right, depth + 1, Some(workerDepth)))
      && BuildShape(cfg, info, depth, None) ==
         Branch(info.box, [], BuildShape(cfg, p.left, depth + 1, None), BuildShape(cfg, p.right, depth + 1, None))
      && Deferred(cfg, info, depth, workerDepth) ==
         Deferred(cfg, p.left, depth + 1, workerDepth) + Deferred(cfg, p.right, depth + 1, workerDepth)
  {
  }

  /**
   * Node budget of the first pass: from depth `depth` down to the worker
   * depth at most 2^(levels) - 1 nodes are created and at most
   * 2^(workerDepth - depth) nodes are deferred.
   */
  lemma {:induction false} FirstPassBound(cfg: Config, info: SplitInfo, depth: nat, workerDepth: nat)
    requires IndicesIn(info.indices, |cfg.boxes|)
    requires depth <= workerDepth
    decreases workerDepth - depth
    ensures Size(BuildShape(cfg, info, depth, Some(workerDepth))) <= Utility.Pow(2, workerDepth - depth + 1) - 1
    ensures StubCount(BuildShape(cfg, info, depth, Some(workerDepth))) <= Utility.Pow(2, workerDepth - depth)
  {
    var k := workerDepth - depth;
    var shape := BuildShape(cfg, info, depth, Some(workerDepth));
    Utility.PowPositive(2, k);
    Utility.PowPositive(2, k + 1);
    if info.indices == [] {
      assert shape == Nil;
    } else if IsLeaf(cfg, info, depth) {
      assert shape == Branch(info.box, info.indices, Nil, Nil);
    } else if depth >= workerDepth {
      assert shape == Stub(info.box, []);
    } else {
      var p := SplitVolume(cfg.boxes, info, depth);
      var left := BuildShape(cfg, p.left, depth + 1, Some(workerDepth));
      var right := BuildShape(cfg, p.right, depth + 1, Some(workerDepth));
      assert shape == Branch(info.box, [], left, right);
      var quarter, half, whole := Utility.Pow(2, k - 1), Utility.Pow(2, k), Utility.Pow(2, k + 1);
      assert half == quarter + quarter && whole == half + half by {
        Utility.PowTwoStep(k - 1);
        Utility.PowTwoStep(k);
      }
      assert workerDepth - (depth + 1) == k - 1;
      assert Utility.Pow(2, workerDepth - (depth + 1)) == quarter;
      assert Utility.Pow(2, workerDepth - (depth + 1) + 1) == half;
      FirstPassBound(cfg, p.left, depth + 1, workerDepth);
      FirstPassBound(cfg, p.right, depth + 1, workerDepth);
      assert Size(left) <= half - 1 && Size(right) <= half - 1;
      assert StubCount(left) <= quarter && StubCount(right) <= quarter;
    }
  }

  /**
   * With the mesh's concurrency depth of 6 the first pass creates at most
   * 127 nodes, fewer than one 512-chunk block, and defers at most 64
   * nodes, the capacity `constructBVH` reserves for them.
   */
  lemma MeshFirstPassBound(cfg: Config, info: SplitInfo)
    requires IndicesIn(info.indices, |cfg.boxes|)
    ensures Size(BuildShape(cfg, info, 0, Some(ConcurrencyDepth))) <= 127
    ensures StubCount(BuildShape(cfg, info, 0, Some(ConcurrencyDepth))) <= Utility.Pow(2, ConcurrencyDepth) == 64
  {
    FirstPassBound(cfg, info, 0, ConcurrencyDepth);
    Utility.PowTwoSix();
    assert Utility.Pow(2, 7) == 128;
  }

  /** The sequential tree has at most one level per depth from `depth` to the limit. */
  lemma {:induction false} SequentialHeight(cfg: Config, info: SplitInfo, depth: nat)
    requires IndicesIn(info.indices, |cfg.boxes|)
    requires depth <= cfg.maxDepth
    decreases cfg.maxDepth - depth
    ensures Height(BuildShape(cfg, info, depth, None)) <= cfg.maxDepth - depth + 1
  {
    if info.indices == [] || IsLeaf(cfg, info, depth) {
    } else {
      var p := SplitVolume(cfg.boxes, info, depth);
      SequentialHeight(cfg, p.left, depth + 1);
      SequentialHeight(cfg, p.right, depth + 1);
    }
  }

  /** Every triangle held by a leaf was among the node's triangles. */
  lemma {:induction false} LeavesSound(cfg: Config, info: SplitInfo, depth: nat, deferAt: Option<nat>)
    requires IndicesIn(info.indices, |cfg.boxes|)
    decreases cfg.maxDepth - depth
    ensures forall i | i in Leaves(BuildShape(cfg, info, depth, deferAt)) :: i in info.indices
  {
    if info.indices == [] || IsLeaf(cfg, info, depth) || (deferAt.Some? && depth >= deferAt.value) {
    } else {
      var p := SplitVolume(cfg.boxes, info, depth);
      var halves := Split(info.box, SplitAxis(depth));
      LeavesSound(cfg, p.left, depth + 1, deferAt);
      LeavesSound(cfg, p.right, depth + 1, deferAt);
      OverlappingSubset(cfg.boxes, halves.leftBox, info.indices);
      OverlappingSubset(cfg.boxes, halves.rightBox, info.indices);
    }
  }

  /**
   * No triangle is lost: a triangle with a proper box that touches the
   * node's box ends up in some leaf below the node.
   */
  lemma {:induction false} LeavesComplete(cfg: Config, info: SplitInfo, depth: nat, k: nat)
    requires IndicesIn(info.indices, |cfg.boxes|)
    requires k < |info.indices|
    requires WellFormed(cfg.boxes[info.indices[k]]) && Overlaps(info.box, cfg.boxes[info.indices[k]])
    decreases cfg.maxDepth - depth
    ensures info.indices[k] in Leaves(BuildShape(cfg, info, depth, None))
  {
    var i := info.indices[k];
    if IsLeaf(cfg, info, depth) {
    } else {
      var p := SplitVolume(cfg.boxes, info, depth);
      var halves := Split(info.box, SplitAxis(depth));
      SplitCovers(info.box, SplitAxis(depth), cfg.boxes[i]);
      if Overlaps(halves.leftBox, cfg.boxes[i]) {
        OverlappingComplete(cfg.boxes, halves.leftBox, info.indices, k);
        var j :| 0 <= j < |p.left.indices| && p.left.indices[j] == i;
        LeavesComplete(cfg, p.left, depth + 1, j);
      } else {
        OverlappingComplete(cfg.boxes, halves.rightBox, info.indices, k);
        var j :| 0 <= j < |p.right.indices| && p.right.indices[j] == i;
        LeavesComplete(cfg, p.right, depth + 1, j);
      }
    }
  }

  /** Every childless node of `s` holds at least one triangle. */
  predicate LeavesHoldTriangles(s: Shape)
  {
    match s
    case Nil => true
    case Stub(_, _) => true
    case Branch(_, value, left, right) =>
      (left.Nil? && right.Nil? ==> value != []) && LeavesHoldTriangles(left) && LeavesHoldTriangles(right)
  }

  /** Every triangle of the node has a proper box that touches the node's box. */
  ghost predicate Touching(cfg: Config, info: SplitInfo)
    requires IndicesIn(info.indices, |cfg.boxes|)
  {
    forall k | 0 <= k < |info.indices| ::
      WellFormed(cfg.boxes[info.indices[k]]) && Overlaps(info.box, cfg.boxes[info.indices[k]])
  }

  /** A half keeps the property: its triangles touch it, and they are the parent's. */
  lemma HalfTouching(cfg: Config, info: SplitInfo, half: Box)
    requires IndicesIn(info.indices, |cfg.boxes|) && Touching(cfg, info)
    ensures Touching(cfg, SplitInfo(half, Overlapping(cfg.boxes, half, info.indices)))
  {
    var kept := Overlapping(cfg.boxes, half, info.indices);
    OverlappingSound(cfg.boxes, half, info.indices);
    OverlappingSubset(cfg.boxes, half, info.indices);
    forall k | 0 <= k < |kept| ensures WellFormed(cfg.boxes[kept[k]]) {
      assert kept[k] in info.indices;
    }
  }

  /**
   * When every triangle's box is proper and touches the node's box, no
   * childless node is empty: a leaf is made only from a non-empty list,
   * and a split node gives each of its triangles to at least one half.
   */
  lemma {:induction false} LeavesNonEmpty(cfg: Config, info: SplitInfo, depth: nat, deferAt: Option<nat>)
    requires IndicesIn(info.indices, |cfg.boxes|) && Touching(cfg, info)
    decreases cfg.maxDepth - depth
    ensures LeavesHoldTriangles(BuildShape(cfg, info, depth, deferAt))
  {
    if info.indices == [] || IsLeaf(cfg, info, depth) || (deferAt.Some? && depth >= deferAt.value) {
    } else {
      var p := SplitVolume(cfg.boxes, info, depth);
      var halves := Split(info.box, SplitAxis(depth));
      HalfTouching(cfg, info, halves.leftBox);
      HalfTouching(cfg, info, halves.rightBox);
      LeavesNonEmpty(cfg, p.left, depth + 1, deferAt);
      LeavesNonEmpty(cfg, p.right, depth + 1, deferAt);
      SplitCovers(info.box, SplitAxis(depth), cfg.boxes[info.indices[0]]);
      if Overlaps(halves.leftBox, cfg.boxes[info.indices[0]]) {
        OverlappingComplete(cfg.boxes, halves.leftBox, info.indices, 0);
      } else {
        OverlappingComplete(cfg.boxes, halves.rightBox, info.indices, 0);
      }
    }
  }

  /** Two degenerate triangles at the origin, leaf capacity 1, depth limit 7. */
  function FindingConfig(): Config
  {
    var origin := Vec3(0.0, 0.0, 0.0);
    Config([Box(origin, origin), Box(origin, origin)], 1, 7)
  }

  /** A deferred node: the unit cube holding both triangles. */
  function FindingNode(): SplitInfo
  {
    SplitInfo(Box(Vec3(0.0, 0.0, 0.0), Vec3(1.0, 1.0, 1.0)), [0, 1])
  }

  /** At depth 6 the cube is split on x, and both triangles fall in the left half. */
  lemma FindingSplit(cfg: Config, w: SplitInfo)
    requires cfg == FindingConfig() && w == FindingNode()
    ensures IndicesIn(w.indices, |cfg.boxes|)
    ensures SplitVolume(cfg.boxes, w, ConcurrencyDepth).left.indices == [0, 1]
  {
    var origin := Vec3(0.0, 0.0, 0.0);
    assert SplitAxis(ConcurrencyDepth) == 0 by {
      assert SplitAxis(3) == SplitAxis(0);
    }
    var half := Split(w.box, 0).leftBox;
    assert half == Box(origin, Vec3(0.5, 1.0, 1.0));
    assert Overlaps(half, Box(origin, origin));
    OverlappingKeepsAll(cfg.boxes, half, w.indices);
  }

  /**
   * A worker that starts its halves at the deferred node's own depth `d`
   * instead of `d + 1` builds a different tree whenever `d` is the last
   * depth before the limit and the left half is too full for a leaf: the
   * sequential builder stops there with a leaf, the worker splits again.
   */
  lemma {:induction false} WorkerDepthMismatch(cfg: Config, w: SplitInfo, d: nat)
    requires IndicesIn(w.indices, |cfg.boxes|)
    requires d + 1 == cfg.maxDepth
    requires |SplitVolume(cfg.boxes, w, d).left.indices| > cfg.maxPerLeaf
    ensures Completion(cfg, w, d, d).0.Branch? && Completion(cfg, w, d, d).0.value == []
    ensures Completion(cfg, w, d, d + 1).0 ==
            Branch(SplitVolume(cfg.boxes, w, d).left.box, SplitVolume(cfg.boxes, w, d).left.indices, Nil, Nil)
    ensures Completion(cfg, w, d, d) != Completion(cfg, w, d, d + 1)
  {
    var left := SplitVolume(cfg.boxes, w, d).left;
    assert !IsLeaf(cfg, left, d) && IsLeaf(cfg, left, d + 1);
  }

  /**
   * `constructTree` as written builds the halves of a deferred node from
   * `m_StartingDepth`, the deferred node's own depth, instead of one level
   * below it. For the node above, deferred at depth 6 under a depth limit
   * of 7, the sequential builder makes the left half a leaf, while the
   * worker splits it once more: the trees differ, and the worker's tree
   * goes one level deeper than the depth limit allows.
   */
  lemma WorkerStartsOneLevelTooHigh(cfg: Config, w: SplitInfo)
    requires cfg == FindingConfig() && w == FindingNode()
    ensures IndicesIn(w.indices, |cfg.boxes|) && w.indices != [] && !IsLeaf(cfg, w, ConcurrencyDepth)
    ensures Completion(cfg, w, ConcurrencyDepth, ConcurrencyDepth) != Completion(cfg, w, ConcurrencyDepth, ConcurrencyDepth + 1)
  {
    FindingSplit(cfg, w);
    WorkerDepthMismatch(cfg, w, ConcurrencyDepth);
  }
}
