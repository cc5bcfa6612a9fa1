/**
 * Axis-aligned bounding boxes: the exact min/max/midpoint algebra used by
 * the BVH builder and the scene (combine, intersects, split), plus the
 * part of the ray/box slab test that does not depend on float geometry.
 */
module Boxes {
  import opened Wrappers

  datatype Vec3 = Vec3(x: real, y: real, z: real)
  {
    /** `v[axis]`, axis 0, 1 or 2. */
    function At(axis: nat): real
      requires axis < 3
    {
      if axis == 0 then x else if axis == 1 then y else z
    }

    /** `v[axis] = value`, leaving the other two components. */
    function With(axis: nat, value: real): (w: Vec3)
      requires axis < 3
      ensures w.At(axis) == value
      ensures forall k | 0 <= k < 3 && k != axis :: w.At(k) == At(k)
    {
      if axis == 0 then this.(x := value)
      else if axis == 1 then this.(y := value)
      else this.(z := value)
    }
  }

  datatype Box = Box(min: Vec3, max: Vec3)

  datatype BoxPair = BoxPair(leftBox: Box, rightBox: Box)

  function Min(a: real, b: real): real { if a < b then a else b }
  function Max(a: real, b: real): real { if a < b then b else a }

  /** The box invariant `AABB::split` and `intersects` rely on but the `AABB` constructor does not enforce: min <= max on every axis. */
  ghost predicate WellFormed(b: Box)
  {
    forall axis | 0 <= axis < 3 :: b.min.At(axis) <= b.max.At(axis)
  }

  /** The point lies in the closed box. */
  ghost predicate ContainsPoint(b: Box, p: Vec3)
  {
    forall axis | 0 <= axis < 3 :: b.min.At(axis) <= p.At(axis) <= b.max.At(axis)
  }

  /** `inner` lies within `outer` on every axis (closed intervals). */
  ghost predicate Contains(outer: Box, inner: Box)
  {
    forall axis | 0 <= axis < 3 ::
      outer.min.At(axis) <= inner.min.At(axis) && inner.max.At(axis) <= outer.max.At(axis)
  }

  /** On `axis` neither box's min lies beyond the other's max (closed intervals). */
  predicate AxisOverlaps(a: Box, b: Box, axis: nat)
    requires axis < 3
  {
    !(a.min.At(axis) > b.max.At(axis) || a.max.At(axis) < b.min.At(axis))
  }

  /** The closed boxes overlap: on no axis does one box's min exceed the other's max. */
  predicate Overlaps(a: Box, b: Box)
  {
    AxisOverlaps(a, b, 0) && AxisOverlaps(a, b, 1) && AxisOverlaps(a, b, 2)
  }

  /** The componentwise min of the minima and max of the maxima. */
  ghost function Union(a: Box, b: Box): (u: Box)
    ensures forall axis | 0 <= axis < 3 ::
      u.min.At(axis) == Min(b.min.At(axis), a.min.At(axis)) &&
      u.max.At(axis) == Max(b.max.At(axis), a.max.At(axis))
  {
    Box(Vec3(Min(b.min.x, a.min.x), Min(b.min.y, a.min.y), Min(b.min.z, a.min.z)),
        Vec3(Max(b.max.x, a.max.x), Max(b.max.y, a.max.y), Max(b.max.z, a.max.z)))
  }

  /**
   * `box.combine(other)`: the per-axis loop that lowers each min component
   * to the smaller of the two and raises each max component to the larger.
   * Returns the value `box` holds afterwards.
   */
  method Combine(box: Box, other: Box) returns (r: Box)
    ensures r == Union(box, other)
  {
    var lo, hi := box.min, box.max;
    for axis := 0 to 3
      invariant forall k | 0 <= k < axis ::
        lo.At(k) == Min(other.min.At(k), box.min.At(k)) && hi.At(k) == Max(other.max.At(k), box.max.At(k))
      invariant forall k | axis <= k < 3 :: lo.At(k) == box.min.At(k) && hi.At(k) == box.max.At(k)
    {
      lo := lo.With(axis, Min(other.min.At(axis), lo.At(axis)));
      hi := hi.With(axis, Max(other.max.At(axis), hi.At(axis)));
    }
    var u := Union(box, other);
    assert lo.At(0) == u.min.At(0) && lo.At(1) == u.min.At(1) && lo.At(2) == u.min.At(2);
    assert hi.At(0) == u.max.At(0) && hi.At(1) == u.max.At(1) && hi.At(2) == u.max.At(2);
    r := Box(lo, hi);
  }

  /** The union contains both boxes it was made from. */
  lemma UnionContainsBoth(a: Box, b: Box)
    ensures Contains(Union(a, b), a) && Contains(Union(a, b), b)
  {
  }

  /** The union is the smallest box containing both. */
  lemma UnionIsLeast(a: Box, b: Box, c: Box)
    requires Contains(c, a) && Contains(c, b)
    ensures Contains(c, Union(a, b))
  {
  }

  /** Combining in a box already inside changes nothing; in particular a box combined with itself. */
  lemma UnionAbsorbsContained(a: Box, b: Box)
    requires Contains(a, b)
    ensures Union(a, b) == a
  {
    var u := Union(a, b);
    assert u.min.At(0) == a.min.At(0) && u.min.At(1) == a.min.At(1) && u.min.At(2) == a.min.At(2);
    assert u.max.At(0) == a.max.At(0) && u.max.At(1) == a.max.At(1) && u.max.At(2) == a.max.At(2);
  }

  /** Combining a box with itself leaves it unchanged. */
  lemma UnionSelf(a: Box)
    ensures Union(a, a) == a
  {
    UnionAbsorbsContained(a, a);
  }

  /** A union of well-formed boxes is well-formed. */
  lemma UnionWellFormed(a: Box, b: Box)
    requires WellFormed(a) || WellFormed(b)
    ensures WellFormed(Union(a, b))
  {
  }

  /** Containment is transitive. */
  lemma ContainsTransitive(a: Box, b: Box, c: Box)
    requires Contains(a, b) && Contains(b, c)
    ensures Contains(a, c)
  {
  }

  /**
   * `a.intersects(b)`: scans the axes and answers false as soon as one
   * separates the boxes.
   */
  method Intersects(a: Box, b: Box) returns (r: bool)
    ensures r == Overlaps(a, b)
  {
    for axis := 0 to 3
      invariant forall k | 0 <= k < axis :: AxisOverlaps(a, b, k)
    {
      if a.min.At(axis) > b.max.At(axis) || a.max.At(axis) < b.min.At(axis) {
        return false;
      }
    }
    return true;
  }

  /** Intersection does not depend on the order of the two boxes. */
  lemma OverlapsSymmetric(a: Box, b: Box)
    ensures Overlaps(a, b) == Overlaps(b, a)
  {
  }

  /**
   * Boxes that only share a face still intersect, because the intervals
   * are closed: `a` ends on `axis` where `b` begins, and the two meet on
   * the other axes.
   */
  lemma TouchingBoxesOverlap(a: Box, b: Box, axis: nat)
    requires axis < 3 && WellFormed(a) && WellFormed(b)
    requires a.max.At(axis) == b.min.At(axis)
    requires forall other | 0 <= other < 3 && other != axis :: AxisOverlaps(a, b, other)
    ensures Overlaps(a, b)
  {
    assert AxisOverlaps(a, b, axis);
  }

  /** A well-formed box overlaps every box that contains it. */
  lemma ContainedOverlaps(outer: Box, inner: Box)
    requires WellFormed(inner) && Contains(outer, inner)
    ensures Overlaps(outer, inner)
  {
  }

  /** The midpoint of the box on `axis`. */
  function Middle(b: Box, axis: nat): real
    requires axis < 3
  {
    (b.max.At(axis) + b.min.At(axis)) / 2.0
  }

  /**
   * `box.split(axis)`: the left half keeps min and moves max[axis] to the
   * midpoint; the right half moves min[axis] to the midpoint and keeps max.
   */
  function Split(b: Box, axis: nat): (p: BoxPair)
    requires axis <= 2
    ensures p.leftBox.min == b.min && p.rightBox.max == b.max
    ensures p.leftBox.max.At(axis) == Middle(b, axis) && p.rightBox.min.At(axis) == Middle(b, axis)
    ensures forall k | 0 <= k < 3 && k != axis ::
      p.leftBox.max.At(k) == b.max.At(k) && p.rightBox.min.At(k) == b.min.At(k)
  {
    var middle := Middle(b, axis);
    BoxPair(Box(b.min, b.max.With(axis, middle)), Box(b.min.With(axis, middle), b.max))
  }

  /** Both halves of a well-formed box are well-formed and lie inside it. */
  lemma SplitHalvesInside(b: Box, axis: nat)
    requires axis <= 2 && WellFormed(b)
    ensures WellFormed(Split(b, axis).leftBox) && WellFormed(Split(b, axis).rightBox)
    ensures Contains(b, Split(b, axis).leftBox) && Contains(b, Split(b, axis).rightBox)
  {
    var p := Split(b, axis);
    forall k | 0 <= k < 3
      ensures p.leftBox.min.At(k) <= p.leftBox.max.At(k) && p.rightBox.min.At(k) <= p.rightBox.max.At(k)
      ensures b.min.At(k) <= p.leftBox.max.At(k) <= b.max.At(k)
      ensures b.min.At(k) <= p.rightBox.min.At(k) <= b.max.At(k)
    {
      assert b.min.At(k) <= b.max.At(k);
    }
  }

  /**
   * The halves leave no gap: a well-formed box touching the original
   * touches at least one half.
   */
  lemma SplitCovers(b: Box, axis: nat, x: Box)
    requires axis <= 2 && WellFormed(x) && Overlaps(b, x)
    ensures Overlaps(Split(b, axis).leftBox, x) || Overlaps(Split(b, axis).rightBox, x)
  {
    var p := Split(b, axis);
    assert !(b.min.At(axis) > x.max.At(axis) || b.max.At(axis) < x.min.At(axis));
    assert x.min.At(axis) <= x.max.At(axis);
    if x.min.At(axis) <= Middle(b, axis) {
      forall k | 0 <= k < 3
        ensures !(p.leftBox.min.At(k) > x.max.At(k) || p.leftBox.max.At(k) < x.min.At(k))
      {
        assert !(b.min.At(k) > x.max.At(k) || b.max.At(k) < x.min.At(k));
      }
    } else {
      forall k | 0 <= k < 3
        ensures !(p.rightBox.min.At(k) > x.max.At(k) || p.rightBox.max.At(k) < x.min.At(k))
      {
        assert !(b.min.At(k) > x.max.At(k) || b.max.At(k) < x.min.At(k));
      }
    }
  }

  /** The forward bias `AABB::isHit` adds to the exit distance it reports. */
  const Bias: real := 0.001

  /**
   * The last step of `AABB::isHit`: the float slab computation yields
   * the exit distance t1 or an early rejection (`slab`); the box is then
   * rejected when t1 exceeds maxT, and otherwise t1 + bias is reported.
   */
  function BoxHit(slab: Option<real>, maxT: real): (r: Option<real>)
    ensures r.Some? <==> slab.Some? && slab.value <= maxT
    ensures r.Some? ==> r.value == slab.value + Bias && r.value <= maxT + Bias
  {
    match slab
    case None => None
    case Some(t1) => if t1 > maxT then None else Some(t1 + Bias)
  }
}
