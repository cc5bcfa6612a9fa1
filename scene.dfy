// The scene: its objects, its bounding box, its settings, and the
// nearest-hit query the renderer asks of it.

module Scenes {
  import opened Wrappers
  import opened Boxes
  import opened Surfaces
  import opened CubeMaps

  /** `SceneSettings` (the feature flags are not modelled). */
  datatype Settings = Settings(width: nat, height: nat, bucketSize: nat, background: CubeMap)

  /**
   * The resolution part of `Camera`: its width, height and aspect ratio.
   * The origin, field of view, lens and view matrices are not modelled.
   */
  datatype Camera = Camera(width: nat, height: nat, aspectRatio: real)

  /** `Camera::setResolution`: new sizes, and an aspect ratio of width over height. */
  function SetCameraResolution(camera: Camera, width: nat, height: nat): (c: Camera)
    requires width > 0 && height > 0
    ensures c.width == width && c.height == height
    ensures c.aspectRatio * height as real == width as real
  {
    Camera(width, height, width as real / height as real)
  }

  /** A surface's own intersection test for a ray, accepting only hits in [minT, maxT]. */
  type SurfaceTest = (Surface, Ray, real, real) -> Option<Context>

  /** The state of the surface scan: the latest accepted hit and the bound passed on. */
  datatype ScanState = ScanState(found: Option<Context>, bound: real)

  /** The scan of `surfaces` in order, starting from bound `maxT`: each accepted hit
      replaces the one before it and becomes the bound for the surfaces after it. */
  function Scan(surfaces: seq<Surface>, test: SurfaceTest, ray: Ray, minT: real, maxT: real): ScanState
  {
    if surfaces == [] then ScanState(None, maxT)
    else
      var before := Scan(surfaces[..|surfaces| - 1], test, ray, minT, maxT);
      match test(surfaces[|surfaces| - 1], ray, minT, before.bound)
      case Some(c) => ScanState(Some(c), c.distance)
      case None => before
  }

  /** `Scene::isHit` on the scene's box and surfaces: a failed box test answers no hit
      at once; otherwise the scan starts from the bound the box test reports. */
  function Hit(box: Box, surfaces: seq<Surface>, slab: SlabTest, test: SurfaceTest,
               ray: Ray, minT: real, maxT: real): (r: Option<Context>)
    ensures BoxHit(slab(box, ray), maxT).None? ==> r.None?
  {
    match BoxHit(slab(box, ray), maxT)
    case None => None
    case Some(bound) => Scan(surfaces, test, ray, minT, bound).found
  }

  /** A failed scene-box test answers the same no matter which surfaces the scene holds. */
  lemma BoxMissIgnoresSurfaces(box: Box, s1: seq<Surface>, s2: seq<Surface>, slab: SlabTest,
                               t1: SurfaceTest, t2: SurfaceTest, ray: Ray, minT: real, maxT: real)
    requires BoxHit(slab(box, ray), maxT).None?
    ensures Hit(box, s1, slab, t1, ray, minT, maxT) == Hit(box, s2, slab, t2, ray, minT, maxT) == None
  {
  }

  /** While nothing is accepted the bound stays put, and after an acceptance it is that hit's distance. */
  lemma {:induction false} ScanBound(surfaces: seq<Surface>, test: SurfaceTest, ray: Ray, minT: real, maxT: real)
    ensures var s := Scan(surfaces, test, ray, minT, maxT);
      (s.found.None? ==> s.bound == maxT) && (s.found.Some? ==> s.bound == s.found.value.distance)
  {
    if surfaces != [] {
      ScanBound(surfaces[..|surfaces| - 1], test, ray, minT, maxT);
    }
  }

  /** The scan finds a hit iff some surface accepts the ray under the starting bound. */
  lemma {:induction false} ScanMissIff(surfaces: seq<Surface>, test: SurfaceTest, ray: Ray, minT: real, maxT: real)
    ensures Scan(surfaces, test, ray, minT, maxT).found.None?
        <==> forall k | 0 <= k < |surfaces| :: test(surfaces[k], ray, minT, maxT).None?
  {
    if surfaces != [] {
      var init := surfaces[..|surfaces| - 1];
      ScanMissIff(init, test, ray, minT, maxT);
      ScanBound(init, test, ray, minT, maxT);
      assert forall k | 0 <= k < |init| :: init[k] == surfaces[k];
    }
  }

  /** Surface k accepts the ray under the bound the scan passes to it. */
  predicate AcceptedAt(surfaces: seq<Surface>, test: SurfaceTest, ray: Ray, minT: real, maxT: real, k: nat)
    requires k < |surfaces|
  {
    test(surfaces[k], ray, minT, Scan(surfaces[..k], test, ray, minT, maxT).bound).Some?
  }

  /**
   * Surface k accepted the ray with the record the scan reports, under the
   * bound then current, and every later surface rejected it under its bound.
   */
  predicate LastAccepted(surfaces: seq<Surface>, test: SurfaceTest, ray: Ray, minT: real, maxT: real, k: nat)
    requires k < |surfaces|
  {
    AcceptedAt(surfaces, test, ray, minT, maxT, k)
    && test(surfaces[k], ray, minT, Scan(surfaces[..k], test, ray, minT, maxT).bound)
       == Scan(surfaces, test, ray, minT, maxT).found
    && forall j: nat | k < j < |surfaces| :: !AcceptedAt(surfaces, test, ray, minT, maxT, j)
  }

  /** The reported hit is the last acceptance. */
  lemma {:induction false} ScanLastAccepted(surfaces: seq<Surface>, test: SurfaceTest, ray: Ray, minT: real, maxT: real)
    requires Scan(surfaces, test, ray, minT, maxT).found.Some?
    ensures exists k: nat | k < |surfaces| :: LastAccepted(surfaces, test, ray, minT, maxT, k)
  {
    var n := |surfaces| - 1;
    var init := surfaces[..n];
    if AcceptedAt(surfaces, test, ray, minT, maxT, n) {
      assert LastAccepted(surfaces, test, ray, minT, maxT, n);
    } else {
      assert Scan(surfaces, test, ray, minT, maxT) == Scan(init, test, ray, minT, maxT);
      ScanLastAccepted(init, test, ray, minT, maxT);
      var k: nat :| k < |init| && LastAccepted(init, test, ray, minT, maxT, k);
      PrefixAccepted(surfaces, test, ray, minT, maxT, k);
      forall j: nat | k < j < |surfaces|
        ensures !AcceptedAt(surfaces, test, ray, minT, maxT, j)
      {
        if j < n {
          PrefixAccepted(surfaces, test, ray, minT, maxT, j);
        }
      }
      assert LastAccepted(surfaces, test, ray, minT, maxT, k);
    }
  }

  /** Dropping the last surface does not change what an earlier one saw. */
  lemma PrefixAccepted(surfaces: seq<Surface>, test: SurfaceTest, ray: Ray, minT: real, maxT: real, k: nat)
    requires k < |surfaces| - 1
    ensures AcceptedAt(surfaces[..|surfaces| - 1], test, ray, minT, maxT, k) == AcceptedAt(surfaces, test, ray, minT, maxT, k)
    ensures surfaces[..|surfaces| - 1][..k] == surfaces[..k] && surfaces[..|surfaces| - 1][k] == surfaces[k]
  {
    assert surfaces[..|surfaces| - 1][..k] == surfaces[..k];
  }

  /** A test that honours its upper bound. */
  ghost predicate HonoursBound(test: SurfaceTest)
  {
    forall s, ray, lo, hi :: test(s, ray, lo, hi).Some? ==> test(s, ray, lo, hi).value.distance <= hi
  }

  /** With such a test the bound never grows along the scan. */
  lemma {:induction false} ScanBoundShrinks(surfaces: seq<Surface>, test: SurfaceTest, ray: Ray, minT: real, maxT: real, i: nat)
    requires HonoursBound(test) && i <= |surfaces|
    ensures Scan(surfaces, test, ray, minT, maxT).bound <= Scan(surfaces[..i], test, ray, minT, maxT).bound <= maxT
  {
    if i < |surfaces| {
      var init := surfaces[..|surfaces| - 1];
      assert init[..i] == surfaces[..i];
      ScanBoundShrinks(init, test, ray, minT, maxT, i);
    } else {
      assert surfaces[..i] == surfaces;
      if surfaces != [] {
        ScanBoundShrinks(surfaces[..|surfaces| - 1], test, ray, minT, maxT, |surfaces| - 1);
      }
    }
  }

  /** The boxes of `objects`, combined into `box` in order. */
  ghost function Grow(box: Box, objects: seq<Surface>): Box
  {
    if objects == [] then box else Union(Grow(box, objects[..|objects| - 1]), objects[|objects| - 1].box)
  }

  /** The grown box contains the starting box and every object's box. */
  lemma {:induction false} GrowContains(box: Box, objects: seq<Surface>)
    ensures Contains(Grow(box, objects), box)
    ensures forall k | 0 <= k < |objects| :: Contains(Grow(box, objects), objects[k].box)
  {
    if objects != [] {
      var init := objects[..|objects| - 1];
      GrowContains(box, init);
      var g := Grow(box, init);
      UnionContainsBoth(g, objects[|objects| - 1].box);
      ContainsTransitive(Grow(box, objects), g, box);
      forall k | 0 <= k < |init| ensures Contains(Grow(box, objects), objects[k].box) {
        assert init[k] == objects[k];
        ContainsTransitive(Grow(box, objects), g, objects[k].box);
      }
    }
  }

  /** It is the smallest such box. */
  lemma {:induction false} GrowIsLeast(box: Box, objects: seq<Surface>, c: Box)
    requires Contains(c, box) && forall k | 0 <= k < |objects| :: Contains(c, objects[k].box)
    ensures Contains(c, Grow(box, objects))
  {
    if objects != [] {
      var init := objects[..|objects| - 1];
      assert forall k | 0 <= k < |init| :: init[k] == objects[k];
      GrowIsLeast(box, init, c);
      UnionIsLeast(Grow(box, init), objects[|objects| - 1].box, c);
    }
  }

  class Scene {
    var box: Box
    var objects: seq<Surface>
    var settings: Settings
    var camera: Camera

    /** `Scene(camera, settings)`: no objects, and the degenerate box at the origin. */
    constructor (camera: Camera, settings: Settings)
      ensures box == Box(Vec3(0.0, 0.0, 0.0), Vec3(0.0, 0.0, 0.0))
      ensures objects == [] && this.settings == settings && this.camera == camera
    {
      box := Box(Vec3(0.0, 0.0, 0.0), Vec3(0.0, 0.0, 0.0));
      objects := [];
      this.settings := settings;
      this.camera := camera;
    }

    /**
     * `isHit`: the scene-box test (which also narrows maxT to its biased exit
     * distance), then every surface in order, each acceptance replacing the
     * context and becoming the bound for the rest. `context` is the caller's
     * record, returned untouched without a hit.
     */
    method IsHit(slab: SlabTest, test: SurfaceTest, ray: Ray, context: Context, minT: real, maxT: real)
      returns (isHit: bool, result: Context)
      ensures isHit == Hit(box, objects, slab, test, ray, minT, maxT).Some?
      ensures result == if isHit then Hit(box, objects, slab, test, ray, minT, maxT).value else context
    {
      var boxHit := BoxHit(slab(box, ray), maxT);
      if boxHit.None? {
        return false, context;
      }
      var bound := boxHit.value;
      isHit, result := false, context;
      for k := 0 to |objects|
        invariant Scan(objects[..k], test, ray, minT, boxHit.value) == ScanState(if isHit then Some(result) else None, bound)
        invariant !isHit ==> result == context
      {
        assert objects[..k + 1][..k] == objects[..k];
        var tempContext := test(objects[k], ray, minT, bound);
        if tempContext.Some? {
          result := tempContext.value;
          bound := result.distance;
          isHit := true;
        }
      }
      assert objects[..|objects|] == objects;
      assert Hit(box, objects, slab, test, ray, minT, maxT) == Scan(objects, test, ray, minT, boxHit.value).found;
    }

    /** `constructAABB`: the componentwise min and max over every object's box, starting from the first. */
    method ConstructAABB()
      requires |objects| > 0
      modifies this
      ensures objects == old(objects) && settings == old(settings) && camera == old(camera)
      ensures box == Grow(objects[0].box, objects)
    {
      var objs := objects;
      var lo, hi := objs[0].box.min, objs[0].box.max;
      for k := 0 to |objs|
        invariant Box(lo, hi) == Grow(objs[0].box, objs[..k])
        invariant objects == objs && settings == old(settings) && camera == old(camera)
      {
        assert objs[..k + 1][..k] == objs[..k];
        var aabb := objs[k].box;
        lo := Vec3(Min(lo.x, aabb.min.x), Min(lo.y, aabb.min.y), Min(lo.z, aabb.min.z));
        hi := Vec3(Max(hi.x, aabb.max.x), Max(hi.y, aabb.max.y), Max(hi.z, aabb.max.z));
        MinMaxSymmetric(lo, hi, Grow(objs[0].box, objs[..k]), aabb);
      }
      assert objs[..|objs|] == objs;
      box := Box(lo, hi);
    }

    /** `addObject`: the object's box is combined into the scene box and the object appended. */
    method AddObject(surface: Surface)
      modifies this
      ensures box == Union(old(box), surface.box) && objects == old(objects) + [surface]
      ensures settings == old(settings) && camera == old(camera)
    {
      box := Combine(box, surface.box);
      objects := objects + [surface];
    }

    /** `addObjects`: `addObject` for each given object, in order. */
    method AddObjects(added: seq<Surface>)
      modifies this
      ensures objects == old(objects) + added && box == Grow(old(box), added)
      ensures settings == old(settings) && camera == old(camera)
    {
      for k := 0 to |added|
        invariant objects == old(objects) + added[..k] && box == Grow(old(box), added[..k])
        invariant settings == old(settings) && camera == old(camera)
      {
        assert added[..k + 1][..k] == added[..k];
        AddObject(added[k]);
        assert added[..k + 1] == added[..k] + [added[k]];
      }
      assert added[..|added|] == added;
    }

    /** `operator[]`: the object at an index below the object count. */
    function Object(index: nat): (s: Surface)
      reads this
      requires index < |objects|
      ensures s in objects
    {
      objects[index]
    }

    /**
     * `setResolution`: both sizes must be positive; they replace the stored
     * ones in the settings and in the camera, whose aspect ratio follows.
     */
    method SetResolution(width: nat, height: nat)
      requires width > 0 && height > 0
      modifies this
      ensures settings == old(settings).(width := width, height := height)
      ensures camera.width == width && camera.height == height
      ensures camera.aspectRatio * height as real == width as real
      ensures box == old(box) && objects == old(objects)
    {
      settings := settings.(width := width, height := height);
      camera := SetCameraResolution(camera, width, height);
    }
  }

  /** One round of the per-axis min/max updates is the union with the object's box. */
  lemma MinMaxSymmetric(lo: Vec3, hi: Vec3, acc: Box, aabb: Box)
    requires lo == Vec3(Min(acc.min.x, aabb.min.x), Min(acc.min.y, aabb.min.y), Min(acc.min.z, aabb.min.z))
    requires hi == Vec3(Max(acc.max.x, aabb.max.x), Max(acc.max.y, aabb.max.y), Max(acc.max.z, aabb.max.z))
    ensures Box(lo, hi) == Union(acc, aabb)
  {
  }
}
