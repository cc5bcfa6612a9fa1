// What the tracer's intersection code passes around: rays, hit records and
// the surfaces a scene holds. The geometry of a surface is reduced to its
// bounding box; its own intersection test is a parameter wherever it is used.

module Surfaces {
  import opened Wrappers
  import opened Boxes

  /** A ray: origin, direction and how many bounces produced it. */
  datatype Ray = Ray(origin: Vec3, direction: Vec3, depth: nat)

  /** `Surface::Context`: the hit distance along the ray, and which material shades it
      (the uv, normal and hit-point fields are float results of the tests, not modelled). */
  datatype Context = Context(distance: real, material: nat)

  /** A scene object, known by its identity and its bounding box. */
  datatype Surface = Surface(id: nat, box: Box)

  /** The slab test of a box against a ray (`AABB::isHit` before its maxT check): the exit distance, or a rejection. */
  type SlabTest = (Box, Ray) -> Option<real>

  /** `std::numeric_limits<float>::max()`. */
  const FloatMax: real := 340282346638528859811704183484516925440.0
}
