/** Value types shared by the game loop and the decorative effects: raylib's
    vectors and rectangles, with floats read as exact reals. */
module Geometry {

  /** raylib's Vector3. */
  datatype Vec3 = Vec3(x: real, y: real, z: real)

  /** A point of the ground plane. The source keeps it in a raylib Vector2
      whose second component holds the world Z coordinate. */
  datatype Point = Point(x: real, z: real)

  /** raylib's Rectangle laid on the ground plane: origin (x, z) and extents
      along X (width) and along Z (height). */
  datatype Rect = Rect(x: real, z: real, width: real, height: real)

  /** The conventional optional value, used for buffers that may be NULL. */
  datatype Option<T> = None | Some(value: T)

  /** Squared Euclidean distance on the ground plane. */
  function DistSq(a: Point, b: Point): real
  {
    (a.x - b.x) * (a.x - b.x) + (a.z - b.z) * (a.z - b.z)
  }

  /** The closed rectangle contains the point. */
  predicate InRect(p: Point, r: Rect)
  {
    r.x <= p.x <= r.x + r.width && r.z <= p.z <= r.z + r.height
  }
}
