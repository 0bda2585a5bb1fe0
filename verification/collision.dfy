/** Circle-versus-wall collision and the axis-separated sliding move of
    src/main.c. */
module Collision {
  import opened Geometry

  /** Squared gap between two coordinates on one axis. */
  function Gap(v: real, w: real): real
  {
    (v - w) * (v - w)
  }

  /** clampf: `lo` below the interval, `hi` above it, `v` itself otherwise. */
  function Clamp(v: real, lo: real, hi: real): (r: real)
    ensures v < lo ==> r == lo
    ensures lo <= v && v > hi ==> r == hi
    ensures lo <= hi ==> lo <= r <= hi
    ensures lo <= v <= hi <==> r == v
  {
    if v < lo then lo else if v > hi then hi else v
  }

  lemma SquareMonotone(a: real, b: real)
    requires 0.0 <= a <= b
    ensures a * a <= b * b
  {
    assert a * a <= a * b;
    assert a * b <= b * b;
  }

  /** Clamping gives the point of the interval nearest to `v`. */
  lemma ClampIsNearest(v: real, lo: real, hi: real, w: real)
    requires lo <= w <= hi
    ensures Gap(v, Clamp(v, lo, hi)) <= Gap(v, w)
  {
    var c := Clamp(v, lo, hi);
    if v < lo {
      SquareMonotone(lo - v, w - v);
      assert Gap(v, c) == (lo - v) * (lo - v);
      assert Gap(v, w) == (w - v) * (w - v);
    } else if v > hi {
      SquareMonotone(v - hi, v - w);
      assert Gap(v, c) == (v - hi) * (v - hi);
      assert Gap(v, w) == (v - w) * (v - w);
    } else {
      assert Gap(v, c) == 0.0;
      assert Gap(v, w) >= 0.0;
    }
  }

  /** The squared distance is the sum of the squared gaps on the two axes. */
  lemma DistSqSplit(a: Point, b: Point)
    ensures DistSq(a, b) == Gap(a.x, b.x) + Gap(a.z, b.z)
  {
  }

  /** The point of `rect` nearest to `c`, found by clamping each axis. */
  function Nearest(c: Point, rect: Rect): Point
  {
    Point(Clamp(c.x, rect.x, rect.x + rect.width), Clamp(c.z, rect.z, rect.z + rect.height))
  }

  /** CircleRectIntersect: the circle of radius `r` around `c` touches `rect`.
      A centre inside the rectangle always intersects. */
  function CircleRectIntersect(c: Point, r: real, rect: Rect): (b: bool)
    ensures InRect(c, rect) ==> b
  {
    var n := Nearest(c, rect);
    var dx := c.x - n.x;
    var dz := c.z - n.z;
    assert InRect(c, rect) ==> dx == 0.0 && dz == 0.0;
    dx * dx + dz * dz <= r * r
  }

  /** For a rectangle with non-negative extents, the clamp test is exact: it
      reports an intersection iff some point of the rectangle lies within
      distance `r` of the centre. */
  lemma IntersectIffNearPoint(c: Point, r: real, rect: Rect)
    requires rect.width >= 0.0 && rect.height >= 0.0
    ensures CircleRectIntersect(c, r, rect) <==> exists q :: InRect(q, rect) && DistSq(c, q) <= r * r
  {
    var n := Nearest(c, rect);
    assert InRect(n, rect);
    DistSqSplit(c, n);
    assert CircleRectIntersect(c, r, rect) <==> DistSq(c, n) <= r * r;
    forall q | InRect(q, rect)
      ensures DistSq(c, n) <= DistSq(c, q)
    {
      ClampIsNearest(c.x, rect.x, rect.x + rect.width, q.x);
      ClampIsNearest(c.z, rect.z, rect.z + rect.height, q.z);
      DistSqSplit(c, q);
    }
  }

  /** Some wall among the first `count` entries of `walls` touches the circle. */
  predicate HitsAny(c: Point, r: real, walls: seq<Rect>, count: int)
    requires count <= |walls|
  {
    exists i :: 0 <= i < count && CircleRectIntersect(c, r, walls[i])
  }

  /** CollidesAny: the linear scan with early return over the first `count`
      wall rectangles. */
  method CollidesAny(c: Point, r: real, walls: seq<Rect>, count: int) returns (hit: bool)
    requires count <= |walls|
    ensures hit <==> HitsAny(c, r, walls, count)
    ensures count <= 0 ==> !hit
  {
    var i := 0;
    while i < count
      invariant 0 <= i <= |walls| && (count >= 0 ==> i <= count)
      invariant forall j :: 0 <= j < i ==> !CircleRectIntersect(c, r, walls[j])
    {
      if CircleRectIntersect(c, r, walls[i]) {
        return true;
      }
      i := i + 1;
    }
    return false;
  }

  /** A position that collides with none of the walls keeps every point of
      every (well-formed) wall strictly farther than `r` away. */
  lemma ClearMeansOutside(c: Point, r: real, walls: seq<Rect>, count: int)
    requires count <= |walls|
    requires forall i :: 0 <= i < count ==> walls[i].width >= 0.0 && walls[i].height >= 0.0
    requires !HitsAny(c, r, walls, count)
    ensures forall i, q :: 0 <= i < count && InRect(q, walls[i]) ==> DistSq(c, q) > r * r
  {
    forall i, q | 0 <= i < count && InRect(q, walls[i])
      ensures DistSq(c, q) > r * r
    {
      IntersectIffNearPoint(c, r, walls[i]);
    }
  }

  /** The movement step of the frame loop: try the X component of `step`
      alone and keep it only if that position is collision-free; then try
      the Z component from the position reached so far. */
  method SlideMove(p: Point, step: Point, radius: real, walls: seq<Rect>, count: int) returns (q: Point)
    requires count <= |walls|
    ensures q in {p, Point(p.x + step.x, p.z), Point(p.x, p.z + step.z), Point(p.x + step.x, p.z + step.z)}
    ensures !HitsAny(Point(p.x + step.x, p.z), radius, walls, count) ==> q.x == p.x + step.x
    ensures HitsAny(Point(p.x + step.x, p.z), radius, walls, count) ==> q.x == p.x
    ensures !HitsAny(Point(q.x, p.z + step.z), radius, walls, count) ==> q.z == p.z + step.z
    ensures HitsAny(Point(q.x, p.z + step.z), radius, walls, count) ==> q.z == p.z
    // no penetration: a clear start stays clear
    ensures !HitsAny(p, radius, walls, count) ==> !HitsAny(q, radius, walls, count)
    // sliding: a blocked X move does not cancel a free Z move
    ensures HitsAny(Point(p.x + step.x, p.z), radius, walls, count)
            && !HitsAny(Point(p.x, p.z + step.z), radius, walls, count)
            ==> q == Point(p.x, p.z + step.z)
  {
    var pXZ := p;
    var testX := Point(pXZ.x + step.x, pXZ.z);
    var blockedX := CollidesAny(testX, radius, walls, count);
    if !blockedX {
      pXZ := pXZ.(x := testX.x);
    }
    var testZ := Point(pXZ.x, pXZ.z + step.z);
    var blockedZ := CollidesAny(testZ, radius, walls, count);
    if !blockedZ {
      pXZ := pXZ.(z := testZ.z);
    }
    q := pXZ;
  }
}
