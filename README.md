# Iris core, modelled in Dafny

Iris is a CPU ray tracer. This project models the parts of it that decide
what gets drawn and how the work is shared out:

- **The pool allocator.** BVH nodes come from blocks of equal-sized chunks.
  The free chunks form an intrusive linked list. A tree can hand its blocks
  to another tree's allocator.
- **The boundary tree.** A binary tree of boxes whose nodes are placed in
  pool chunks. It covers node creation, post-order destruction, `clear`
  and the hand-over of blocks.
- **Axis-aligned bounding boxes.** `combine`, `intersects` and `split`,
  and the range check `AABB::isHit` applies after its slab test.
- **Mesh BVH construction.** `splitBoundingVolume` and the recursive
  `TreeBuilder::buildTree`. The builder defers the nodes at depth 6 to
  worker threads. The workers complete them in trees of their own
  (`assignWorker`, `assignWork`, `constructTree`). Then the workers' blocks
  go to the mesh's tree (`constructBVH`).
- **The mesh traversal.** `Mesh::isHit` walks the tree with an explicit
  stack and keeps the closest accepted triangle.
- **The scene.** Its box, its list of surfaces and `Scene::isHit`, which
  keeps the closest accepted surface.
- **The renderer.** `traceRay`, the per-pixel sampling loop, and the
  bucket scheduler. The scheduler lays out a grid of buckets
  (`createBuckets`) and visits it in a spiral (`fecthNextBucket`). Workers
  claim buckets under a lock (`assignBucket`) and render them
  (`Worker::operator()`).
- **The image buffer, colour arithmetic, the cube-map background lookup
  and the scalar utilities** (`clamp`, `square`, `constexprPow`).

## How the model is built

- Geometry is `real`. The two floating-point tests are function-valued
  parameters: the slab test of a box and the ray/triangle (or ray/surface)
  test. The range checks Iris applies around those tests are
  modelled exactly: the box test's `+ 0.001` bias and its rejection past
  `maxT`, and the triangle test's rejection outside [minT, maxT].
- Objects Iris mutates in place are classes: `PoolAllocator`,
  `BoundaryTree`, `Memory` (the heap the nodes live in), `WorkerInfo`,
  `TreeBuilder`, `Mesh`, `Scene`, `Image`, `Schedule` (the workers'
  statics), `Worker` and `Renderer`.
- Value types are datatypes: `Box`, `Vec3`, `Color`, `Ray`, `Context`,
  `Chunk`, `Node`, `WorkerNode` and the spiral state `Walk`.
- A node pointer is `Ref`: `Null`, or the chunk the node lives in.
- A tree's meaning is a `Shape`. A tree *realizes* a shape when the
  nodes reachable from its root spell that shape out.
- The pure builder in `BvhSpec` is the reference definition. The imperative
  builder is proved to create exactly the nodes of `BuildShape`, with the
  workers building one level below each deferred node. The code as written
  builds them at the deferred node's own depth, which gives a different
  tree (see Findings).
- Threads run one after another. The model proves that a first worker
  completes every record or bucket, and that later workers find none left.

## Model

| member | source | states |
|---|---|---|
| Utility.Clamp | Iris/src/Utilities/Utility.h:48-53 | lower bound tested first: below `lo` gives `lo`, above `hi` gives `hi`, otherwise the value itself |
| Utility.ClampInRange | Iris/src/Utilities/Utility.h:48-53 | with ordered bounds the clamped value lies between them |
| Utility.ClampIdempotent | Iris/src/Utilities/Utility.h:48-53 | clamping twice with the same bounds is clamping once |
| Utility.Square | Iris/src/Utilities/Utility.h:55-56 | a square is never negative |
| Utility.Pow | Iris/src/Utilities/Utility.h:58-63 | `constexprPow` of a non-negative base is non-negative |
| Utility.PowAdd | Iris/src/Utilities/Utility.h:58-63 | the recursive power adds exponents, so it computes num^pow |
| Utility.PowPositive | Iris/src/Utilities/Utility.h:58-63 | a positive base gives a positive power, at least the base for pow >= 1 |
| Utility.PowTwoStep | Iris/src/Utilities/Utility.h:58-63 | 2^(n+1) == 2^n + 2^n |
| Utility.PowTwoSix | Iris/src/Objects/Surfaces/Mesh.cpp:236 | `constexprPow(2, 6)`, the capacity reserved for deferred nodes, is 64 |
| Utility.CeilDiv | Iris/src/Core/Renderer.cpp:175-176 | `(n + size - 1) / size` is the least multiple count covering n: n <= q * size < n + size |
| Utility.CeilDivBelow | Iris/src/Core/Renderer.cpp:175-176 | bucket column k exists exactly when it starts inside the image (`(n + size - 1) / size` is the ceiling) |
| Boxes.Combine | Iris/src/Core/AABB.cpp:69-76 | the per-axis min/max update yields the least box containing both boxes (`Union`) |
| Boxes.UnionContainsBoth | Iris/src/Core/AABB.cpp:69-76 | the combined box contains each box it was made from |
| Boxes.UnionIsLeast | Iris/src/Core/AABB.cpp:69-76 | every box containing both contains their combination |
| Boxes.UnionAbsorbsContained | Iris/src/Core/AABB.cpp:69-76 | combining in a box already inside leaves the box unchanged |
| Boxes.UnionSelf | Iris/src/Core/AABB.cpp:69-76 | combining a box with itself changes nothing |
| Boxes.UnionWellFormed | Iris/src/Core/AABB.cpp:69-76 | combining with a well-formed box gives a well-formed box |
| Boxes.ContainsTransitive | Iris/src/Core/AABB.cpp:69-76 | box containment is transitive |
| Boxes.Intersects | Iris/src/Core/AABB.cpp:78-88 | true exactly when on no axis one box's min exceeds the other's max (closed intervals) |
| Boxes.OverlapsSymmetric | Iris/src/Core/AABB.cpp:78-88 | intersection does not depend on argument order |
| Boxes.TouchingBoxesOverlap | Iris/src/Core/AABB.cpp:78-88 | any two proper boxes where one ends on an axis where the other begins, and that meet on the other axes, intersect |
| Boxes.ContainedOverlaps | Iris/src/Core/AABB.cpp:78-88 | a well-formed box intersects every box that contains it |
| Boxes.Split | Iris/src/Core/AABB.cpp:90-102 | the left half keeps min, the right half keeps max, both meet at the midpoint of the axis, other axes unchanged |
| Boxes.SplitHalvesInside | Iris/src/Core/AABB.cpp:90-102 | both halves of a well-formed box are well-formed and inside it |
| Boxes.SplitCovers | Iris/src/Core/AABB.cpp:90-102 | a well-formed box meeting the parent meets at least one half, so splitting loses no triangle |
| Boxes.BoxHit | Iris/src/Core/AABB.cpp:40-46 | a hit exactly when the slab test passes with exit distance <= maxT; the reported distance is the exit plus the 0.001 bias |
| Colors.Default | Iris/src/Containers/Color.cpp:5-8 | the default colour is opaque black |
| Colors.Plus | Iris/src/Containers/Color.cpp:102-110 | `+=` is undone by subtracting the left operand: the sum minus `c` is `o` |
| Colors.Minus | Iris/src/Containers/Color.cpp:112-120 | `-=` gives the all-zero colour exactly when the two colours are equal |
| Colors.Times | Iris/src/Containers/Color.cpp:122-130 | `*=` with opaque white on the left yields the right operand, and the all-zero colour absorbs |
| Colors.Scale | Iris/src/Containers/Color.cpp:132-140 | scalar `*=` by 1 is the identity and by 0 gives the all-zero colour |
| Colors.DivideBy | Iris/src/Containers/Color.cpp:142-147 | `/=` by a non-zero scalar is undone by scalar `*=` |
| Colors.MinusUndoesPlus | Iris/src/Containers/Color.cpp:102-120 | `-=` undoes `+=` on every channel |
| Colors.PlusCommutes | Iris/src/Containers/Color.cpp:102-110 | `+=` is channelwise, hence commutative |
| Colors.TimesWhiteIsIdentity | Iris/src/Containers/Color.cpp:122-140 | `*=` by opaque white changes nothing; `*=` by a scalar equals `*=` by the grey colour of that scalar |
| Colors.DivideUndoesScale | Iris/src/Containers/Color.cpp:132-147 | `/=` by a non-zero scalar undoes `*=` by it |
| Colors.ClampColor | Iris/src/Containers/Color.cpp:203-211 | the result lies in [lo, hi] for ordered bounds; a colour already in range is unchanged |
| Colors.ClampColorIdempotent | Iris/src/Containers/Color.cpp:203-211 | clamping a colour twice is clamping once |
| Colors.Equal | Iris/src/Containers/Color.cpp:190-196 | `==` compares all four channels, so it is value equality |
| Colors.NotEqual | Iris/src/Containers/Color.cpp:198-201 | `!=` is the negation of `==` |
| Colors.BasicColor | Iris/src/Containers/Color.cpp:83-100 | bit 1 of the index sets red, bit 2 green, bit 4 blue; alpha stays 1 |
| Colors.RedBitIsBitOne | Iris/src/Containers/Color.cpp:85-93 | `index & RED` tests the lowest bit |
| Colors.GreenBitIsBitTwo | Iris/src/Containers/Color.cpp:86-95 | `index & GREEN` tests the second bit |
| Colors.BlueBitIsBitFour | Iris/src/Containers/Color.cpp:87-97 | `index & BLUE` tests the third bit |
| Colors.BasicColorNeitherBlackNorWhite | Iris/src/Containers/Color.cpp:89 | indices 1..6 give neither black nor white, as the comment there intends |
| CubeMaps.FromColor | Iris/src/Core/CubeMap.cpp:6-9 | a colour cube map has no textures and keeps the colour |
| CubeMaps.FromTextures | Iris/src/Core/CubeMap.cpp:11-18 | a texture cube map holds exactly the six textures, with the default background |
| CubeMaps.MajorAxis | Iris/src/Core/CubeMap.cpp:36-48 | the axis of largest magnitude; the strict `<` lets earlier axes win ties |
| CubeMaps.Face | Iris/src/Core/CubeMap.cpp:53-56 | the face is the major axis, plus 3 when that component is not positive |
| CubeMaps.FaceCoordinatesBounded | Iris/src/Core/CubeMap.cpp:58-71 | both in-face coordinates are at most the major magnitude |
| CubeMaps.UV | Iris/src/Core/CubeMap.cpp:73-77 | for a non-zero direction both u and v lie in [0, 1] |
| CubeMaps.Sky | Iris/src/Core/CubeMap.cpp:20-28 | without textures the lookup is the background colour |
| CubeMaps.UVCoordinates | Iris/src/Core/CubeMap.cpp:30-78 | the axis scan returns face `Face(d)` and coordinates `UV(d)` |
| CubeMaps.GetColor | Iris/src/Core/CubeMap.cpp:20-28 | the method computes the lookup `Sky` |
| Images.IndexInjective | Iris/src/Utilities/Image.cpp:37-41 | distinct in-bounds pixels use distinct slots below width * height |
| Images.IndexBeforeRow | Iris/src/Utilities/Image.cpp:37-41 | every pixel of a row comes before every pixel of a later row |
| Images.UpdateOne | Iris/src/Utilities/Image.cpp:37-41 | writing one slot changes that pixel only |
| Images.SlotOf | Iris/src/Utilities/Image.cpp:93-96 | every slot of the buffer is the slot of exactly one in-bounds pixel |
| Images.Image.constructor | Iris/src/Utilities/Image.cpp:32-35 | width * height pixels, every one of the given colour |
| Images.Image.Width | Iris/src/Utilities/Image.cpp:83-86 | the buffer holds width pixels per row |
| Images.Image.Height | Iris/src/Utilities/Image.cpp:88-91 | the buffer holds height rows |
| Images.Image.Pixel | Iris/src/Utilities/Image.cpp:78-81 | an in-bounds pixel is read from its row-major slot, which lies inside the buffer, so the colour is one the buffer holds |
| Images.Image.Pixels | Iris/src/Utilities/Image.cpp:93-96 | the buffer in row-major order: slot k is pixel (k mod width, k div width) |
| Images.Image.SetPixel | Iris/src/Utilities/Image.cpp:37-41 | pixel (x, y) takes the colour; every other pixel and the size are unchanged |
| Pool.Block.constructor | Iris/src/Core/PoolAllocator.cpp:57-59 | a new block of the given number of chunks |
| Pool.Run | Iris/src/Core/PoolAllocator.cpp:62-69 | the chunks of a block linked in address order, one per position |
| Pool.PoolAllocator.constructor | Iris/src/Core/PoolAllocator.cpp:5-9 | no blocks, an empty free list, nothing on loan |
| Pool.PoolAllocator.AllocateBlock | Iris/src/Core/PoolAllocator.cpp:55-73 | one new block, appended to the block list; its chunks come back linked in address order with the last one ending the list |
| Pool.PoolAllocator.Allocate | Iris/src/Core/PoolAllocator.cpp:28-37 | a new block only when the free list is empty; the head of the list is handed out and was not on loan; the accounting invariant and the dense shape are kept |
| Pool.PoolAllocator.TakeHead | Iris/src/Core/PoolAllocator.cpp:33-36 | the head is handed out and unlinked; the blocks are unchanged |
| Pool.PoolAllocator.Deallocate | Iris/src/Core/PoolAllocator.cpp:39-44 | the chunk on loan becomes the new head of the free list |
| Pool.PoolAllocator.FreeAllocatedMemory | Iris/src/Core/PoolAllocator.cpp:46-53 | every block is released in order; no blocks and no free list remain |
| Pool.PoolAllocator.TransferOwnership | Iris/src/Core/PoolAllocator.cpp:16-26 | this free list is linked after the tail of other's; this allocator's blocks move to the end of other's; this one owns nothing |
| Pool.PopAccounted | Iris/src/Core/PoolAllocator.cpp:33-34 | handing out the head keeps every chunk either free once or on loan |
| Pool.PushAccounted | Iris/src/Core/PoolAllocator.cpp:41-43 | giving back a chunk at the head keeps the accounting |
| Pool.NewBlockAccounted | Iris/src/Core/PoolAllocator.cpp:55-73 | a new block's chain becomes a correctly accounted free list |
| Pool.JoinAccounted | Iris/src/Core/PoolAllocator.cpp:16-26 | two allocators over disjoint blocks join into one correctly accounted allocator |
| Pool.OwnedCount | Iris/src/Core/PoolAllocator.cpp:55-73 | distinct blocks own exactly their total number of chunks |
| Pool.Conservation | Iris/src/Core/PoolAllocator.cpp:28-53 | free chunks plus chunks on loan equal the chunks of the owned blocks |
| Pool.DenseBlockCount | Iris/src/Core/PoolAllocator.cpp:30-31 | while an allocator only allocates, it holds ceil(loaned / chunksPerBlock) blocks, and its free list is empty exactly when every owned chunk is on loan |
| Pool.UniformTotal | Iris/src/Core/PoolAllocator.cpp:57-59 | blocks of one size hold that size times their number of chunks |
| Pool.FreeListNonEmpty | Iris/src/Core/PoolAllocator.cpp:30-31 | with a block and fewer chunks on loan than it holds, the free list is not empty |
| Trees.NewNode | Iris/src/Core/BoundaryTree.h:12-19 | a new node has no children, the given box and an empty value |
| Trees.Memory.Release | Iris/src/Core/PoolAllocator.cpp:48-49 | releasing blocks drops every cell placed in them and nothing else |
| Trees.ChunksOfRealized | Iris/src/Core/BoundaryTree.h:23-26 | a realized tree has one chunk per node, each holding a node |
| Trees.PostOrderPermutesChunks | Iris/src/Core/BoundaryTree.h:81-91 | destruction order visits each node as often as pre-order does |
| Trees.RealizesFrame | Iris/src/Core/BoundaryTree.h:23-26 | a tree is unaffected by changes to cells outside its nodes |
| Trees.RealizesExtend | Iris/src/Core/BoundaryTree.h:61-72 | creating new nodes never disturbs an existing tree |
| Trees.Fill | Iris/src/Objects/Surfaces/Mesh.cpp:405-411 | each stub gets its pair of subtrees in pre-order; the stub count is consumed exactly |
| Trees.FillClosed | Iris/src/Objects/Surfaces/Mesh.cpp:405-411 | filling every stub with complete subtrees leaves no open node |
| Trees.StubChunksOfRealized | Iris/src/Objects/Surfaces/Mesh.cpp:376-380 | one recorded node per stub, each a node of the tree |
| Trees.FillRealizes | Iris/src/Objects/Surfaces/Mesh.cpp:405-411 | when every deferred node has its halves attached, the tree realizes the filled shape |
| Trees.FillNoStubs | Iris/src/Objects/Surfaces/Mesh.cpp:405-411 | a tree without deferred nodes is left as it is |
| Trees.StubChunksNoDup | Iris/src/Objects/Surfaces/Mesh.cpp:376-380 | distinct nodes give distinct deferred records |
| Trees.FillChunks | Iris/src/Objects/Surfaces/Mesh.cpp:405-411 | the filled tree's nodes are the first pass's nodes plus the attached ones, each once |
| Trees.BoundaryTree.PristineValid | Iris/src/Core/BoundaryTree.h:33-34 | a new tree is valid |
| Trees.BoundaryTree.FreeChunkRemains | Iris/src/Core/BoundaryTree.h:64 | fewer than 512 nodes on loan, and at least one, means a free chunk remains |
| Trees.BoundaryTree.constructor | Iris/src/Core/BoundaryTree.h:33-34 | no root and a fresh 512-chunk allocator |
| Trees.BoundaryTree.CreateNode | Iris/src/Core/BoundaryTree.h:61-72 | a childless node in a chunk newly on loan; it becomes the root when there was none |
| Trees.BoundaryTree.AllocateChunk | Iris/src/Core/BoundaryTree.h:64 | a chunk newly on loan that holds no node yet; old blocks are kept and new ones are fresh |
| Trees.BoundaryTree.DeallocateNode | Iris/src/Core/BoundaryTree.h:81-91 | destroys the left subtree, then the right, then the node: post-order; the memory stays |
| Trees.BoundaryTree.Clear | Iris/src/Core/BoundaryTree.h:53-59 | every node is destroyed in post-order, every block is released, the root is null |
| Trees.BoundaryTree.ClearDestroysEachNodeOnce | Iris/src/Core/BoundaryTree.h:53-59 | the destruction order is a permutation of the tree's nodes, without repeats |
| Trees.BoundaryTree.TransferAllocatedBlocks | Iris/src/Core/BoundaryTree.h:74-79 | the root is forgotten; free chunks, blocks and loans move to the other tree's allocator |
| Trees.BoundaryTree.Destroy | Iris/src/Core/BoundaryTree.h:35 | nodes destroyed in post-order, then the blocks released; after a hand-over it changes nothing |
| BvhSpec.Overlapping | Iris/src/Objects/Surfaces/Mesh.cpp:285-292 | the kept indices name triangles |
| BvhSpec.OverlappingSubset | Iris/src/Objects/Surfaces/Mesh.cpp:285-292 | the filter adds no index |
| BvhSpec.OverlappingSound | Iris/src/Objects/Surfaces/Mesh.cpp:285-292 | every kept triangle's box intersects the half |
| BvhSpec.OverlappingComplete | Iris/src/Objects/Surfaces/Mesh.cpp:285-292 | every triangle whose box intersects the half is kept |
| BvhSpec.OverlappingKeepsAll | Iris/src/Objects/Surfaces/Mesh.cpp:285-292 | when every box intersects the half, the whole list is kept |
| BvhSpec.OverlappingOrdered | Iris/src/Objects/Surfaces/Mesh.cpp:283-292 | each half's index list is a subsequence of the node's: kept indices appear at strictly increasing positions of the input |
| BvhSpec.SplitAxisIsRemainder | Iris/src/Objects/Surfaces/Mesh.cpp:283 | the split axis is `depth % 3` |
| BvhSpec.BuildShape | Iris/src/Objects/Surfaces/Mesh.cpp:359-388 | no node exactly for no triangles; otherwise the node has the given box |
| BvhSpec.Deferred | Iris/src/Objects/Surfaces/Mesh.cpp:376-380 | one deferred node per stub of the first pass |
| BvhSpec.Completions | Iris/src/Objects/Surfaces/Mesh.cpp:405-411 | one pair of halves per deferred node, in order |
| BvhSpec.CompletionsAppend | Iris/src/Objects/Surfaces/Mesh.cpp:390-396 | completing a concatenation completes each part |
| BvhSpec.SequentialAtDeferredNode | Iris/src/Objects/Surfaces/Mesh.cpp:376-385 | at a node it would defer, the sequential builder splits and builds the halves one level deeper |
| BvhSpec.ConcurrentBuildIsSequential | Iris/src/Objects/Surfaces/Mesh.cpp:223-255 | the first pass with its stubs filled by workers that build one level below the deferred node is exactly the sequential tree |
| BvhSpec.InnerNodeUnfolds | Iris/src/Objects/Surfaces/Mesh.cpp:382-385 | above the worker depth both builders and the deferral list split a node the same way |
| BvhSpec.FirstPassBound | Iris/src/Objects/Surfaces/Mesh.cpp:359-388 | the first pass from depth d creates at most 2^(w-d+1)-1 nodes and defers at most 2^(w-d) |
| BvhSpec.MeshFirstPassBound | Iris/src/Objects/Surfaces/Mesh.cpp:235-240 | at concurrency depth 6: at most 127 nodes, fewer than one 512-chunk block, and at most 64 deferred nodes, the reserved capacity |
| BvhSpec.SequentialHeight | Iris/src/Objects/Surfaces/Mesh.cpp:369-374 | the tree has at most one level per depth up to the limit |
| BvhSpec.LeavesSound | Iris/src/Objects/Surfaces/Mesh.cpp:369-374 | every triangle in a leaf was among the node's triangles |
| BvhSpec.LeavesComplete | Iris/src/Objects/Surfaces/Mesh.cpp:359-388 | every triangle with a proper box touching the node's box ends up in some leaf |
| BvhSpec.HalfTouching | Iris/src/Objects/Surfaces/Mesh.cpp:283-292 | the triangles kept for a half touch that half and keep their proper boxes |
| BvhSpec.LeavesNonEmpty | Iris/src/Objects/Surfaces/Mesh.cpp:364-385 | when every triangle's box is proper and touches the node, every childless node holds at least one triangle |
| BvhSpec.FindingSplit | Iris/src/Objects/Surfaces/Mesh.cpp:275-298 | at depth 6 the example cube splits on x and both triangles go left |
| BvhSpec.WorkerDepthMismatch | Iris/src/Objects/Surfaces/Mesh.cpp:405-411 | halves built from the node's own depth differ from the sequential ones one level before the limit |
| BvhSpec.WorkerStartsOneLevelTooHigh | Iris/src/Objects/Surfaces/Mesh.cpp:405-411 | `constructTree` as written builds a different tree from the sequential builder on a concrete input |
| Meshes.SplitBoundingVolume | Iris/src/Objects/Surfaces/Mesh.cpp:275-298 | the single walk over the triangles gives each half exactly the filtered indices of `SplitVolume` |
| Meshes.DescribesAppend | Iris/src/Objects/Surfaces/Mesh.cpp:376-380 | records appended in two runs describe the concatenated deferred nodes |
| Meshes.BuiltLeaf | Iris/src/Objects/Surfaces/Mesh.cpp:367-374 | a node made a leaf right after creation is a built leaf |
| Meshes.BuiltStub | Iris/src/Objects/Surfaces/Mesh.cpp:376-380 | a node recorded for a worker is a built stub, its own record |
| Meshes.BuiltBranch | Iris/src/Objects/Surfaces/Mesh.cpp:382-385 | a node over two halves built one after the other is built, with the halves' records in order |
| Meshes.BelowBuilt | Iris/src/Objects/Surfaces/Mesh.cpp:382-387 | the last case of `buildTree` realizes `BuildShape` with left records before right ones |
| Meshes.BelowRecorded | Iris/src/Objects/Surfaces/Mesh.cpp:382-385 | a split node's records are those of its left half, then its right |
| Meshes.WorkerInfo.constructor | Iris/src/Objects/Surfaces/Mesh.cpp:238-240 | no records, at the given depth |
| Meshes.WorkerInfo.Record | Iris/src/Objects/Surfaces/Mesh.cpp:378 | appends one record with a fresh, empty tree of its own |
| Meshes.AttachHalves | Iris/src/Objects/Surfaces/Mesh.cpp:409-410 | two halves linked below a record's node attach exactly their new nodes and change nothing else |
| Meshes.CompletesAt | Iris/src/Objects/Surfaces/Mesh.cpp:390-396 | record k is to be completed by its completion, whose halves start one level below the record (the corrected worker depth, see Findings) |
| Meshes.CompletesOf | Iris/src/Objects/Surfaces/Mesh.cpp:390-396 | the plan for the records is the completions of the deferred nodes, at the corrected worker depth |
| Meshes.ProgressStep | Iris/src/Objects/Surfaces/Mesh.cpp:393-395 | completing the next record extends the progress by one |
| Meshes.TreeBuilder.constructor | Iris/src/Objects/Surfaces/Mesh.cpp:342-345 | the fields are as given and no record is handed out |
| Meshes.TreeBuilder.BuildTree | Iris/src/Objects/Surfaces/Mesh.cpp:359-388 | the new nodes realize `BuildShape`; they are distinct, new and exactly the new loans; the records appended describe `Deferred`, in order; the root is set when the tree had none |
| Meshes.TreeBuilder.BuildBelow | Iris/src/Objects/Surfaces/Mesh.cpp:382-385 | the split node with both halves linked realizes `BuildShape` |
| Meshes.TreeBuilder.BuildHalf | Iris/src/Objects/Surfaces/Mesh.cpp:384-385 | one half built and linked on the left or right of the node |
| Meshes.TreeBuilder.ConstructTree | Iris/src/Objects/Surfaces/Mesh.cpp:405-411 | the record's node gets the completion's two halves attached, as new nodes in the record's tree; the halves start one level deeper than the code as written (see Findings) |
| Meshes.TreeBuilder.AssignWork | Iris/src/Objects/Surfaces/Mesh.cpp:398-403 | hands out index `nextNode`, increments it, and reports whether a record had that index |
| Meshes.TreeBuilder.RecordReady | Iris/src/Objects/Surfaces/Mesh.cpp:393-395 | the next record handed out has an empty tree and is to be completed by its completion (corrected worker depth) |
| Meshes.TreeBuilder.CompleteRecord | Iris/src/Objects/Surfaces/Mesh.cpp:394-395 | one more record is completed, as its corrected-depth completion, and the worker invariant holds |
| Meshes.TreeBuilder.AssignWorker | Iris/src/Objects/Surfaces/Mesh.cpp:390-396 | a worker completes every record not yet handed out, then leaves `nextNode` one past the count; each as its corrected-depth completion |
| Meshes.TreeBuilder.StartConcurrency | Iris/src/Objects/Surfaces/Mesh.cpp:347-357 | with at least one thread every record is completed (corrected worker depth); with none, nothing is |
| MeshSurfaces.Corners | Iris/src/Objects/Surfaces/Mesh.cpp:257-266 | the three corners in index order |
| MeshSurfaces.BoundsContainAll | Iris/src/Objects/Surfaces/Mesh.cpp:206-221 | the vertex bounds are well-formed and contain every vertex |
| MeshSurfaces.BoundsIsLeast | Iris/src/Objects/Surfaces/Mesh.cpp:206-221 | the bounds are the smallest box holding every vertex |
| MeshSurfaces.TriangleInMesh | Iris/src/Objects/Surfaces/Mesh.cpp:257-273 | every triangle's box lies inside the mesh's box |
| MeshSurfaces.TriangleHit | Iris/src/Objects/Surfaces/Mesh.cpp:167-173 | a triangle hit is reported exactly when the candidate exists and its distance lies in [minT, maxT], and it is then the candidate's record |
| MeshSurfaces.MeshHit | Iris/src/Objects/Surfaces/Mesh.cpp:35-36 | a failed mesh-box test means no hit |
| MeshSurfaces.SweepBound | Iris/src/Objects/Surfaces/Mesh.cpp:44-62 | `innerMaxT` is the float maximum until a hit, then the latest hit's distance |
| MeshSurfaces.SweepMissIff | Iris/src/Objects/Surfaces/Mesh.cpp:55-62 | no hit exactly when every tried triangle is rejected under the float maximum |
| MeshSurfaces.MeshHitIff | Iris/src/Objects/Surfaces/Mesh.cpp:33-76 | a hit exactly when the mesh box passes and some triangle reached through passing nodes is accepted |
| MeshSurfaces.SweepLastAccepted | Iris/src/Objects/Surfaces/Mesh.cpp:55-62 | the reported hit is the last acceptance; every later triangle was rejected |
| MeshSurfaces.SweepBoundShrinks | Iris/src/Objects/Surfaces/Mesh.cpp:58-61 | `innerMaxT` never grows, because the range check accepts no distance above the bound it is given |
| MeshSurfaces.ReachedAreLeaves | Iris/src/Objects/Surfaces/Mesh.cpp:51-72 | every triangle tried is held by some node of the tree |
| MeshSurfaces.ReachedAll | Iris/src/Objects/Surfaces/Mesh.cpp:51-72 | when every box passes, each leaf triangle is tried exactly as often as leaves hold it |
| MeshSurfaces.BuiltLeavesChildless | Iris/src/Objects/Surfaces/Mesh.cpp:369-385 | in a built tree only childless nodes hold triangles |
| MeshSurfaces.PendingPop | Iris/src/Objects/Surfaces/Mesh.cpp:47-48 | popping the top puts its triangles first |
| MeshSurfaces.ChildPushed | Iris/src/Objects/Surfaces/Mesh.cpp:66-70 | a child is pushed exactly when it is not null |
| MeshSurfaces.StackPop | Iris/src/Objects/Surfaces/Mesh.cpp:47-48 | the popped node's box, value and children are those of its shape |
| MeshSurfaces.Popped | Iris/src/Objects/Surfaces/Mesh.cpp:51-72 | what remains after a pop: nothing for a failed box, its triangles, or its right then left subtrees |
| MeshSurfaces.TestTriangles | Iris/src/Objects/Surfaces/Mesh.cpp:55-62 | the triangle loop extends the sweep by the leaf's triangles; without a hit the context is untouched |
| MeshSurfaces.Identity | Iris/src/Objects/Surfaces/Mesh.cpp:229-233 | the index list 0..n-1 |
| MeshSurfaces.TriangleBoxes | Iris/src/Objects/Surfaces/Mesh.cpp:229-233 | the box of each triangle, in order |
| MeshSurfaces.SequentialClosed | Iris/src/Objects/Surfaces/Mesh.cpp:359-388 | a tree built without deferral has no open node |
| MeshSurfaces.MeshLeavesHoldTriangles | Iris/src/Objects/Surfaces/Mesh.cpp:223-255 | in the mesh's tree over its vertex bounds, every childless node holds at least one triangle |
| MeshSurfaces.NothingDeferred | Iris/src/Objects/Surfaces/Mesh.cpp:246-249 | with no node deferred, the first pass already is the sequential tree |
| MeshSurfaces.WorkersReady | Iris/src/Objects/Surfaces/Mesh.cpp:243-251 | after the first pass the records are ready to be completed with the completions of the deferred nodes, at the corrected worker depth |
| MeshSurfaces.FirstPassLeavesRoom | Iris/src/Objects/Surfaces/Mesh.cpp:253-254 | the first pass leaves a free chunk, which `transferOwnership` needs |
| MeshSurfaces.DeferredReady | Iris/src/Objects/Surfaces/Mesh.cpp:243-251 | before `startConcurrency` the main tree keeps a free chunk, there is one record per deferred node, and every record is ready for its completion (corrected worker depth) |
| MeshSurfaces.ProgressKept | Iris/src/Objects/Surfaces/Mesh.cpp:251 | once every record is done the first pass's nodes are intact and every stub has its halves |
| MeshSurfaces.WorkersFilled | Iris/src/Objects/Surfaces/Mesh.cpp:245-251 | once every record is done the main root realizes the sequential tree, each node once (corrected worker depth) |
| MeshSurfaces.ReadyToTransfer | Iris/src/Objects/Surfaces/Mesh.cpp:251-254 | every worker tree and the main tree may then hand over and receive blocks |
| MeshSurfaces.TransferWorkerBlocks | Iris/src/Objects/Surfaces/Mesh.cpp:251-254 | every worker's blocks end up in the main allocator and every worker tree is empty |
| MeshSurfaces.HandOverAll | Iris/src/Objects/Surfaces/Mesh.cpp:251-254 | once the workers are done, every worker's blocks are in the main allocator, which stays able to allocate, every worker tree is empty, and the main tree's nodes are untouched |
| MeshSurfaces.HandOver | Iris/src/Objects/Surfaces/Mesh.cpp:254 | one worker tree appends its blocks to the main allocator and is left empty |
| MeshSurfaces.CompleteDeferred | Iris/src/Objects/Surfaces/Mesh.cpp:248-254 | with at least one thread the main root then realizes the sequential tree, each node once (corrected worker depth) |
| MeshSurfaces.BuildHierarchy | Iris/src/Objects/Surfaces/Mesh.cpp:243-254 | with a thread, or nothing deferred, the cleared tree ends as the sequential tree, closed and without repeats (corrected worker depth) |
| MeshSurfaces.Mesh.constructor | Iris/src/Objects/Surfaces/Mesh.cpp:23-31 | keeps the buffers and the box is the vertex bounds; when the hardware reports at least one thread, the tree is valid and is the sequential build over every triangle with the defaults 15 and 30 (corrected worker depth) |
| MeshSurfaces.Mesh.ConstructAABB | Iris/src/Objects/Surfaces/Mesh.cpp:206-221 | the box is the componentwise min/max over all vertices |
| MeshSurfaces.Mesh.ConstructTriangleAABB | Iris/src/Objects/Surfaces/Mesh.cpp:257-273 | the box of the triangle's three corners |
| MeshSurfaces.Mesh.ConstructBVH | Iris/src/Objects/Surfaces/Mesh.cpp:223-255 | the old nodes are destroyed in post-order; with a thread, or nothing deferred, the tree is valid and is the sequential build (corrected worker depth) |
| MeshSurfaces.Mesh.ConstructTriangleBoxes | Iris/src/Objects/Surfaces/Mesh.cpp:229-233 | the identity index list and each triangle's box |
| MeshSurfaces.Mesh.IsHit | Iris/src/Objects/Surfaces/Mesh.cpp:33-76 | a hit exactly as `MeshHit` says, with its record; without a hit the caller's context is returned |
| Scenes.Hit | Iris/src/Core/Scene.cpp:64-65 | a failed scene-box test means no hit |
| Scenes.BoxMissIgnoresSurfaces | Iris/src/Core/Scene.cpp:64-65 | after a failed box test the surfaces are never consulted |
| Scenes.ScanBound | Iris/src/Core/Scene.cpp:67-77 | the bound is maxT until a hit, then the latest hit's distance |
| Scenes.ScanMissIff | Iris/src/Core/Scene.cpp:67-77 | no hit exactly when every surface rejects the ray under the starting bound |
| Scenes.ScanLastAccepted | Iris/src/Core/Scene.cpp:67-77 | the reported hit is the last acceptance; every later surface rejected |
| Scenes.ScanBoundShrinks | Iris/src/Core/Scene.cpp:67-77 | with a test that honours its bound, the bound never grows |
| Scenes.GrowContains | Iris/src/Core/Scene.cpp:178-197 | the grown box contains the start and every object's box |
| Scenes.GrowIsLeast | Iris/src/Core/Scene.cpp:178-197 | it is the smallest such box |
| Scenes.SetCameraResolution | Iris/src/Core/Camera.cpp:71-77 | the camera takes the new width and height, and its aspect ratio times the height is the width |
| Scenes.Scene.constructor | Iris/src/Core/Scene.cpp:26-29 | no objects, the degenerate box at the origin, and the given camera and settings |
| Scenes.Scene.IsHit | Iris/src/Core/Scene.cpp:62-80 | a hit exactly as `Hit` says, with its record; otherwise the caller's context |
| Scenes.Scene.ConstructAABB | Iris/src/Core/Scene.cpp:178-197 | the box is the min/max over every object's box, from the first; objects, settings and camera unchanged |
| Scenes.Scene.AddObject | Iris/src/Core/Scene.cpp:166-170 | the object's box is combined into the scene box and the object appended; settings and camera unchanged |
| Scenes.Scene.AddObjects | Iris/src/Core/Scene.cpp:172-176 | the objects are appended in order and their boxes grown into the scene box; settings and camera unchanged |
| Scenes.Scene.Object | Iris/src/Core/Scene.cpp:154-158 | the object at an index is one of the scene's objects |
| Scenes.Scene.SetResolution | Iris/src/Core/Scene.cpp:93-99 | replaces the width and height in the settings and in the camera, whose aspect ratio becomes width over height; the box and the objects are kept |
| Scenes.MinMaxSymmetric | Iris/src/Core/Scene.cpp:183-193 | one round of per-axis min/max updates is the union with the object's box |
| Spirals.Advance | Iris/src/Core/Renderer.cpp:237-249 | one call keeps its direction or turns it clockwise, steps one bucket in the new direction, and moves at most one ring inwards |
| Spirals.StepFacts | Iris/src/Core/Renderer.cpp:215-253 | each step of the spiral stays in its phase, adds exactly its new position to the visited buckets (which may already hold it), leaves the grid only once every bucket is visited, and lowers a measure while inside |
| Spirals.StepRight | Iris/src/Core/Renderer.cpp:234-245 | a step on a rightward run keeps the walk's guarantees |
| Spirals.StepDown | Iris/src/Core/Renderer.cpp:234-245 | a step on a downward run keeps the walk's guarantees |
| Spirals.StepLeft | Iris/src/Core/Renderer.cpp:234-245 | a step on a leftward run keeps the walk's guarantees |
| Spirals.StepUp | Iris/src/Core/Renderer.cpp:234-245 | a step on an upward run keeps the walk's guarantees |
| Spirals.StepStraight | Iris/src/Core/Renderer.cpp:247-248 | a step without a turn keeps the walk's guarantees |
| Spirals.StartFacts | Iris/src/Core/Renderer.cpp:224-233 | after a reset nothing has been visited |
| Spirals.FirstRow | Iris/src/Core/Renderer.cpp:215-253 | the first w calls after a reset walk row 0 from (0, 0) to (w - 1, 0) |
| Spirals.CentreRevisit | Iris/src/Core/Renderer.cpp:237-249 | on a 3 by 3 grid the turn at the centre steps into the already visited bucket (1, 2), so the walk may pass over visited buckets |
| Renderers.TraceRay | Iris/src/Core/Renderer.cpp:101-112 | past the depth limit, the default colour; on a scene-box miss, the background lookup; without textures and without a hit, the background colour |
| Renderers.DepthCutOffIgnoresScene | Iris/src/Core/Renderer.cpp:103-104 | past the depth limit the scene is never consulted |
| Renderers.PixelColor | Iris/src/Core/Renderer.cpp:147-156 | every channel of a pixel's colour is in [0, 1]; the sample count is positive, as `Camera::generateRays` asserts |
| Renderers.SamplePixel | Iris/src/Core/Renderer.cpp:147-156 | the sampling loop sums the samples, scales by 1/n and clamps, for a positive sample count |
| Renderers.BucketOf | Iris/src/Core/Renderer.cpp:199-200 | pixel column c is in bucket b exactly when c / size == b |
| Renderers.PixelInGrid | Iris/src/Core/Renderer.cpp:176-177 | every pixel lies in an existing bucket |
| Renderers.CountClaim | Iris/src/Core/Renderer.cpp:201 | claiming a free bucket raises the count by one |
| Renderers.CountRowBound | Iris/src/Core/Renderer.cpp:181-184 | a row's count is at most its length; full exactly when all are claimed; zero exactly when none is |
| Renderers.CountAtMost | Iris/src/Core/Renderer.cpp:178 | at most height * width buckets are claimed |
| Renderers.CountFull | Iris/src/Core/Renderer.cpp:178 | with every bucket claimed the count is height * width |
| Renderers.CountEmpty | Iris/src/Core/Renderer.cpp:181-184 | a fresh grid counts zero |
| Renderers.StepTracks | Iris/src/Core/Renderer.cpp:193-206 | one turn of the claim loop keeps the grid equal to the buckets the spiral passed; leaving the grid means all are claimed |
| Renderers.Schedule.constructor | Iris/src/Core/Renderer.cpp:215-222 | the statics start at zero, with no grid and a pending reset |
| Renderers.Schedule.CreateBuckets | Iris/src/Core/Renderer.cpp:165-185 | a fresh grid of ceil(h/size) rows of ceil(w/size) free buckets, counters zeroed, a reset pending |
| Renderers.Schedule.FetchNextBucket | Iris/src/Core/Renderer.cpp:215-253 | restarts the walk if a reset is pending, takes one spiral step, reports the new position; nothing else changes |
| Renderers.ClaimKeepsPainted | Iris/src/Core/Renderer.cpp:201 | claiming a bucket keeps every other claimed bucket painted |
| Renderers.RenderCompletesPainted | Iris/src/Core/Renderer.cpp:141-157 | painting the one unpainted claimed bucket leaves all claimed buckets painted |
| Renderers.Worker.constructor | Iris/src/Core/Renderer.cpp:119-122 | takes the next id, with the block at the origin |
| Renderers.Worker.AssignBucket | Iris/src/Core/Renderer.cpp:187-210 | a claim takes a free bucket and changes nothing else, with the block at its pixel origin; a failure happens only once every bucket is claimed |
| Renderers.Worker.RenderBucket | Iris/src/Core/Renderer.cpp:141-157 | every image pixel of the block gets its colour, clipped at the image edges; no other pixel changes |
| Renderers.Worker.Run | Iris/src/Core/Renderer.cpp:124-163 | without a stop every bucket ends claimed and painted, with each counted once; with a stop no pixel is written |
| Renderers.NothingClaimedPainted | Iris/src/Core/Renderer.cpp:165-185 | a fresh grid is vacuously painted |
| Renderers.AllPainted | Iris/src/Core/Renderer.cpp:124-163 | with every bucket claimed and painted, every image pixel holds its colour |
| Renderers.RunWorkers | Iris/src/Core/Renderer.cpp:38-42 | with a worker every bucket is claimed and painted; with none nothing changes |
| Renderers.Renderer.constructor | Iris/src/Core/Renderer.cpp:12-17 | a 1 by 1 image, maximum depth 10, stop flag lowered |
| Renderers.Renderer.SetMaxDepth | Iris/src/Core/Renderer.cpp:91-94 | replaces the bounce limit only |
| Renderers.Renderer.SetShouldStop | Iris/src/Core/Renderer.cpp:114-117 | replaces the stop flag only |
| Renderers.Renderer.Render | Iris/src/Core/Renderer.cpp:19-43 | a fresh image of the scene's size; with a worker every pixel has its colour and every bucket is counted; with none the image stays default |

## Left out

- Floating-point arithmetic. Coordinates and colours are `real`. The
  float maximum is a constant, and rounding is not modelled.
- The slab arithmetic of `AABB::isHit` (Iris/src/Core/AABB.cpp:8-39) is a
  parameter of type `SlabTest`; only its range check and bias are modelled.
- The Moller-Trumbore arithmetic of `rayTriangleIntersection`
  (Iris/src/Objects/Surfaces/Mesh.cpp:128-168) and the hit record it fills
  in are a parameter of type `TriangleTest`; its range check is modelled.
  Each surface's own `isHit` and the materials' shading are parameters. Camera ray generation is a parameter
  too (`Radiance`, the traced colour of each sample).
- I/O and parsing are not part of this model: `Image(path)`,
  `writeToPPM`, `saveRender`, the colour stream operator `<<`, the scene JSON loaders, `loadObj`, and the
  progress and timing output.
- `calculateVertexNormals` and `applyTransformations` are not part of this
  model: they change normals and positions, not the structure modelled
  here.
- `generateRandomColor` and the random pick in `generateRandomBasicColor`
  are not part of this model. The index is a parameter of
  `Colors.BasicColor`.
- Threads, mutexes and `std::thread::hardware_concurrency()`. Workers run
  one after another, and the hardware thread count is a parameter. Any
  interleaving is not modelled. The locks in `assignBucket` and
  `assignWork` make each claim atomic, which the sequential model assumes.
- The non-threaded branch of `Renderer::render`
  (Iris/src/Core/Renderer.cpp:44-82) is not part of this model; the
  threaded build is modelled.
- Copy and move constructors and assignments of `Scene`, and its plain
  getters and setters (camera, lights, background) are not part of this
  model.
- The free binary colour operators (Iris/src/Containers/Color.cpp:155-184)
  apply the compound ones to a copy and are the same functions here.
  `scalar / color` (Iris/src/Containers/Color.cpp:185-188) is not part of
  this model.
- Colors.DivideBy: requires a non-zero scalar. `Color::operator/=` computes the
  float reciprocal, which is infinite for zero.
- Renderers.PixelColor: requires a positive sample count, because
  `Camera::generateRays` asserts it (Iris/src/Core/Camera.cpp:37) before
  any sample is traced. Without assertions, 0 samples would give NaN
  channels, which `real` cannot represent.
- Renderers.SamplePixel: requires a positive sample count, for the reason
  given for `PixelColor`.
- Renderers.Worker.RenderBucket: requires a positive sample count, for the
  reason given for `PixelColor`.
- Renderers.Worker.Run: requires a positive sample count, for the reason
  given for `PixelColor`.
- Renderers.RunWorkers: requires a positive sample count, for the reason
  given for `PixelColor`.
- Renderers.Frame: is defined only for a positive sample count, for the
  reason given for `PixelColor`; `Renderers.Painted` holds only then too.
- Meshes.TreeBuilder.ConstructTree: builds the two halves from one level
  below the deferred node. `constructTree` as written
  (Iris/src/Objects/Surfaces/Mesh.cpp:409-410) passes `m_StartingDepth`,
  the node's own depth. The model follows the evidently intended depth; the
  tree as written is described by `BvhSpec.WorkerDepthMismatch` and
  `BvhSpec.WorkerStartsOneLevelTooHigh` (see Findings).
- Meshes.CompletesAt: fixes each record's completion at the corrected
  worker depth, not at the depth the code as written builds from.
- Meshes.CompletesOf: the plan is the corrected-depth completions, not
  the halves the code as written builds.
- Meshes.TreeBuilder.RecordReady: "ready" is measured against the
  corrected-depth completion.
- Meshes.TreeBuilder.CompleteRecord: progress is measured against the
  corrected-depth completions.
- Meshes.TreeBuilder.AssignWorker: states the worker's trees only for the
  corrected worker depth.
- Meshes.TreeBuilder.StartConcurrency: "every record is completed" refers
  to the corrected-depth completions.
- MeshSurfaces.DeferredReady: readiness is stated against the
  corrected-depth completions.
- MeshSurfaces.WorkersReady: readiness is stated against the
  corrected-depth completions.
- MeshSurfaces.WorkersFilled: the main root realizes the sequential tree
  only because the workers build at the corrected depth.
- MeshSurfaces.CompleteDeferred: its sequential-tree result holds for the
  corrected worker depth, not for the code as written.
- MeshSurfaces.BuildHierarchy: ends as the sequential tree for the
  corrected worker depth, not for the code as written.
- MeshSurfaces.Mesh.constructor: states the tree only when the hardware
  reports at least one thread, and that tree is the corrected-depth build.
- MeshSurfaces.Mesh.ConstructBVH: the tree it states is the
  corrected-depth build, not the tree the code as written produces.
- MeshSurfaces.Mesh.ConstructBVH: states the built tree only when the
  hardware reports at least one thread or nothing was deferred. With zero
  threads the deferred nodes stay childless, as they would in `Mesh::constructBVH`.
- Pool.PoolAllocator.TransferOwnership: requires other's free list to be
  non-empty, because `transferOwnership` walks to its tail without a null check.
  It also requires the two block lists to be disjoint.
- Pool.PoolAllocator.Allocate: has no `size` argument. Chunks are
  (block, index) handles, so the byte stride `size` that
  `PoolAllocator::allocate` and `allocateBlock` use to lay chunks out
  (Iris/src/Core/PoolAllocator.cpp:28-31, 55-57) is not modelled.
- Pool.PoolAllocator.Allocate: keeps the dense shape (`Dense`: uniform
  blocks and a short free list) only from a dense state.
  `Deallocate` can break that shape, so `DenseBlockCount` applies only to
  allocators that have only allocated.
- Renderers.Renderer.Render: requires a positive image height, bucket
  size and sample count. Iris asserts `s_Buckets.size() > 0` in
  each worker, divides by the bucket size, and asserts a positive sample
  count in `Camera::generateRays`.
- Renderers.Worker.Run: the stop flag is a parameter read once, not a flag
  another thread can raise mid-render.
- Images.Image.Pixel: requires an in-bounds pixel. `Image::getPixel`
  indexes the vector without a check, and an out-of-range read is
  undefined behaviour in C++.
- 32-bit `unsigned` arithmetic: sizes, bucket counts and offsets are
  unbounded `nat`, so the wrap-around of `height * width`
  (Iris/src/Utilities/Image.cpp:33), of the bucket counts
  `(s_ImageWidth + s_BucketSize - 1) / s_BucketSize`
  (Iris/src/Core/Renderer.cpp:175-176) and of `m_BlockY + s_BucketSize`
  (Iris/src/Core/Renderer.cpp:140-142) on very large images is not
  modelled.
- MeshSurfaces.Mesh.IsHit: requires the tree to have a root, because
  `Mesh::isHit` dereferences it unchecked. A mesh with no triangles has none.

## Differences between the documented behaviour and the code

The model follows the code in each of these cases:

- `PoolAllocator::transferOwnership(other)` links **this** allocator's free
  list after the tail of `other`'s, and moves this allocator's blocks to
  the end of `other`'s.
- In `Mesh::isHit` each node's box is tested against the mesh-box-adjusted
  `maxT`, not against the closest triangle found so far. The triangle
  tests use `innerMaxT`, which starts at the float maximum rather than at
  `maxT`.
- The bucket spiral does not start from a centre and expand outwards. It
  starts at bucket (0, 0), the top-left corner, and winds inwards
  clockwise, one ring at a time.

## Findings

| source | as written | input that shows it | evidently intended | confidence | as-written member | corrected member |
|---|---|---|---|---|---|---|
| Iris/src/Objects/Surfaces/Mesh.cpp:405-411 | `constructTree` splits a deferred node at `m_StartingDepth` and also builds both halves from `m_StartingDepth`, the node's own depth | two degenerate triangles at the origin, leaf capacity 1, depth limit 7, deferred node = unit cube holding both, at depth 6: the worker splits the left half once more, where `buildTree` would make it a leaf | halves built from `m_StartingDepth + 1`, as `buildTree` does below any node, so the concurrent tree equals the sequential one | not executed | BvhSpec.WorkerStartsOneLevelTooHigh | BvhSpec.ConcurrentBuildIsSequential |

`Meshes.TreeBuilder.ConstructTree` uses the corrected depth, so
`MeshSurfaces.Mesh.ConstructBVH` is proved to build the sequential tree.
With the default depth limit of 30, the as-written halves are still split on
the wrong axis: the axis of depth 6 again, instead of that of depth 7.
