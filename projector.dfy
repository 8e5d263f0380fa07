/**
 * The projector of main.c: the TO_SCREEN_X/Y/Z macros (main.c:14-16) and
 * `project` (main.c:478-488). The focal length, a global computed with
 * `tan` at start-up, is a parameter.
 */
module Projector {
  import opened Numerics
  import opened Geometry

  /** TO_SCREEN_X: the horizontal scale is the viewport HEIGHT, centred on SCREEN_WIDTH / 2. */
  function ScreenX(x: real): int {
    Trunc((SCREEN_WIDTH as real + x * SCREEN_HEIGHT as real) / 2.0)
  }

  /** TO_SCREEN_Y: y grows upward in camera space and downward on the screen. */
  function ScreenY(y: real): int {
    Trunc((SCREEN_HEIGHT as real - y * SCREEN_HEIGHT as real) / 2.0)
  }

  /**
   * TO_SCREEN_Z: camera z in [0, SCREEN_DEPTH] maps linearly onto the 16-bit
   * depth range, truncated; anything nearer than 0 or beyond the far plane
   * encodes as 65535.
   */
  function ScreenZ(z: real): (d: u16)
    ensures (z > SCREEN_DEPTH || z < 0.0) ==> d == U16_MAX
    ensures 0.0 <= z <= SCREEN_DEPTH ==> d as real <= z * 65535.0 / SCREEN_DEPTH < d as real + 1.0
  {
    if z > SCREEN_DEPTH || z < 0.0 then 65535 else Trunc(z * 65535.0 / SCREEN_DEPTH)
  }

  /** The depth encoding is 0 at the eye and 65535 at the far plane. */
  lemma ScreenZEnds()
    ensures ScreenZ(0.0) == 0 && ScreenZ(SCREEN_DEPTH) == U16_MAX
  {
  }

  /** For z >= 0 the depth encoding never decreases as z grows (beyond the far plane it saturates). */
  lemma ScreenZMonotone(a: real, b: real)
    requires 0.0 <= a <= b
    ensures ScreenZ(a) <= ScreenZ(b)
  {
    if b <= SCREEN_DEPTH {
      TruncMonotone(a * 65535.0 / SCREEN_DEPTH, b * 65535.0 / SCREEN_DEPTH);
    }
  }

  /** Larger camera x is never further left; larger camera y is never further down. */
  lemma ScreenXYMonotone(a: real, b: real)
    requires a <= b
    ensures ScreenX(a) <= ScreenX(b) && ScreenY(b) <= ScreenY(a)
  {
    TruncMonotone((SCREEN_WIDTH as real + a * SCREEN_HEIGHT as real) / 2.0,
                  (SCREEN_WIDTH as real + b * SCREEN_HEIGHT as real) / 2.0);
    TruncMonotone((SCREEN_HEIGHT as real - b * SCREEN_HEIGHT as real) / 2.0,
                  (SCREEN_HEIGHT as real - a * SCREEN_HEIGHT as real) / 2.0);
  }

  /** The perspective scale of `project`: focal_length / z, and 1 when z is exactly 0. */
  function PerspectiveScale(z: real, focal: real): (delta: real)
    ensures z == 0.0 ==> delta == 1.0
    ensures z != 0.0 ==> delta * z == focal
  {
    if z == 0.0 then 1.0 else focal / z
  }

  function Project(v: Vertex, focal: real): (p: ScreenPoint)
    ensures p.u == v.u && p.v == v.v && p.z == ScreenZ(v.z)
  {
    var delta := PerspectiveScale(v.z, focal);
    ScreenPoint(ScreenX(v.x * delta), ScreenY(v.y * delta), v.u, v.v, ScreenZ(v.z))
  }

  /**
   * A point on the view axis lands on the pixel (320, 240); x = +1 and
   * y = +1 at unit scale land half a viewport HEIGHT right of and above
   * the centre.
   */
  lemma ProjectAxis(v: Vertex, focal: real)
    ensures v.x == 0.0 && v.y == 0.0 ==>
      Project(v, focal).x == SCREEN_WIDTH / 2 && Project(v, focal).y == SCREEN_HEIGHT / 2
    ensures v.z == 0.0 ==> Project(v, focal).x == ScreenX(v.x) && Project(v, focal).y == ScreenY(v.y)
    ensures ScreenX(1.0) == SCREEN_WIDTH / 2 + SCREEN_HEIGHT / 2 && ScreenY(1.0) == 0
    ensures ScreenX(-1.0) == SCREEN_WIDTH / 2 - SCREEN_HEIGHT / 2 && ScreenY(-1.0) == SCREEN_HEIGHT
  {
  }

  lemma CancelFactor(a: real, b: real, z: real)
    requires z != 0.0 && a * z == b * z
    ensures a == b
  {
    assert (a - b) * z == 0.0;
  }

  /** Moving a point k times further along its ray divides its perspective scale by k. */
  lemma ScaleAlongRay(z: real, k: real, focal: real)
    requires z != 0.0 && k > 0.0
    ensures PerspectiveScale(k * z, focal) * k == PerspectiveScale(z, focal)
  {
    var d := PerspectiveScale(z, focal);
    var e := PerspectiveScale(k * z, focal);
    assert (e * k) * z == e * (k * z);
    CancelFactor(e * k, d, z);
  }

  /**
   * Perspective: every point of a ray from the eye (all (k x, k y, k z)
   * with k > 0, z != 0) projects to the same pixel.
   */
  lemma ProjectAlongRay(v: Vertex, k: real, focal: real)
    requires v.z != 0.0 && k > 0.0
    ensures var w := v.(x := k * v.x, y := k * v.y, z := k * v.z);
      Project(w, focal).x == Project(v, focal).x && Project(w, focal).y == Project(v, focal).y
  {
    var w := v.(x := k * v.x, y := k * v.y, z := k * v.z);
    var d := PerspectiveScale(v.z, focal);
    var e := PerspectiveScale(w.z, focal);
    ScaleAlongRay(v.z, k, focal);
    assert e * k == d;
    Regroup(w.x, v.x, k, e, d);
    assert w.x * e == v.x * d;
    Regroup(w.y, v.y, k, e, d);
    assert w.y * e == v.y * d;
  }

  lemma Regroup(kx: real, x: real, k: real, e: real, d: real)
    requires kx == k * x && e * k == d
    ensures kx * e == x * d
  {
  }
}
