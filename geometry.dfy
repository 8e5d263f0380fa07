/**
 * The records of the 3-D pipeline (main.c:6-65): viewport constants,
 * colours, vertices, textures, triangles and projected screen points.
 */
module Geometry {
  import opened Numerics

  const SCREEN_WIDTH: int := 640
  const SCREEN_HEIGHT: int := 480
  const SCREEN_PIXELS: int := SCREEN_WIDTH * SCREEN_HEIGHT
  /** The far clipping distance, and the z that encodes to the largest depth. */
  const SCREEN_DEPTH: real := 20.0
  /** The near clipping distance `plane_z` that clip_and_render starts with. */
  const NEAR_PLANE: real := 0.1

  /** A colour; the C code shares colours by pointer, and they are never mutated, so a value suffices. */
  datatype Color = Color(r: u8, g: u8, b: u8, a: u8)

  /** A camera-space vertex with texture coordinates. */
  datatype Vertex = Vertex(x: real, y: real, z: real, u: real, v: real, c: Color)

  /** A texture: `width` x `height` packed 0xRRGGBB texels, row-major. */
  datatype Texture = Texture(height: int, width: int, data: seq<u32>)

  /** What the span filler needs of a texture before it indexes `data`. */
  predicate ValidTexture(t: Texture) {
    1 <= t.width && 1 <= t.height && |t.data| == t.width * t.height
  }

  /** `vertex v[3]`: exactly three vertices in winding order. */
  type Verts = s: seq<Vertex> | |s| == 3
    witness [Vertex(0.0, 0.0, 0.0, 0.0, 0.0, Color(0, 0, 0, 0)),
             Vertex(0.0, 0.0, 0.0, 0.0, 0.0, Color(0, 0, 0, 0)),
             Vertex(0.0, 0.0, 0.0, 0.0, 0.0, Color(0, 0, 0, 0))]

  /** A triangle and the texture it refers to. */
  datatype Triangle = Triangle(v: Verts, t: Texture)

  /** A projected vertex: integer pixel position, 16-bit depth, texture coordinates carried unclamped. */
  datatype ScreenPoint = ScreenPoint(x: int, y: int, u: real, v: real, z: u16)

  /**
   * clone_vertex (main.c:177-183) writes x, y, z and c of `src` into `dst`;
   * whatever `dst` held in u and v stays there.
   */
  function CloneVertex(src: Vertex, dst: Vertex): Vertex {
    dst.(x := src.x, y := src.y, z := src.z, c := src.c)
  }

  /** A position (or a direction) in camera space. */
  datatype Vec3 = Vec3(x: real, y: real, z: real)

  function Pos(v: Vertex): Vec3 {
    Vec3(v.x, v.y, v.z)
  }

  /** The point a fraction `s` of the way from `a` to `b`. */
  function Toward(a: Vec3, b: Vec3, s: real): Vec3 {
    Vec3(a.x + s * (b.x - a.x), a.y + s * (b.y - a.y), a.z + s * (b.z - a.z))
  }

  function Scale(k: real, n: Vec3): Vec3 {
    Vec3(k * n.x, k * n.y, k * n.z)
  }

  /** The 2x2 determinant p1 q2 - p2 q1, one component of a cross product. */
  function Det2(p1: real, p2: real, q1: real, q2: real): real {
    p1 * q2 - p2 * q1
  }

  function Sub(a: Vec3, b: Vec3): Vec3 {
    Vec3(a.x - b.x, a.y - b.y, a.z - b.z)
  }

  function Cross(p: Vec3, q: Vec3): Vec3 {
    Vec3(Det2(p.y, p.z, q.y, q.z), Det2(p.z, p.x, q.z, q.x), Det2(p.x, p.y, q.x, q.y))
  }

  /** The face normal of draw_triangle (main.c:599-609): (a - c) x (b - c), before normalisation. */
  function FaceCross(a: Vec3, b: Vec3, c: Vec3): Vec3 {
    Cross(Sub(a, c), Sub(b, c))
  }

  function Normal(v: Verts): Vec3 {
    FaceCross(Pos(v[0]), Pos(v[1]), Pos(v[2]))
  }

  /** A determinant whose first row (t1, t2) is (p1, p2) slid a fraction s toward its second row shrinks by 1 - s. */
  lemma DetTowardSecond(t1: real, t2: real, p1: real, p2: real, q1: real, q2: real, s: real)
    requires t1 == p1 + s * (q1 - p1) && t2 == p2 + s * (q2 - p2)
    ensures Det2(t1, t2, q1, q2) == (1.0 - s) * Det2(p1, p2, q1, q2)
  {
  }

  /** A determinant is linear in its first row. */
  lemma DetShrinkFirst(t1: real, t2: real, p1: real, p2: real, q1: real, q2: real, k: real)
    requires t1 == k * p1 && t2 == k * p2
    ensures Det2(t1, t2, q1, q2) == k * Det2(p1, p2, q1, q2)
  {
  }

  /** The cross product is linear in its first argument. */
  lemma CrossScaleFirst(p: Vec3, q: Vec3, k: real)
    ensures Cross(Scale(k, p), q) == Scale(k, Cross(p, q))
  {
    var t := Scale(k, p);
    DetShrinkFirst(t.y, t.z, p.y, p.z, q.y, q.z, k);
    DetShrinkFirst(t.z, t.x, p.z, p.x, q.z, q.x, k);
    DetShrinkFirst(t.x, t.y, p.x, p.y, q.x, q.y, k);
  }

  /** Sliding the first argument a fraction s toward the second scales the cross product by 1 - s. */
  lemma CrossTowardOther(p: Vec3, q: Vec3, s: real)
    ensures Cross(Toward(p, q, s), q) == Scale(1.0 - s, Cross(p, q))
  {
    var t := Toward(p, q, s);
    DetTowardSecond(t.y, t.z, p.y, p.z, q.y, q.z, s);
    DetTowardSecond(t.z, t.x, p.z, p.x, q.z, q.x, s);
    DetTowardSecond(t.x, t.y, p.x, p.y, q.x, q.y, s);
  }

  /** A coordinate slid a fraction s toward c is (1 - s) times as far from c. */
  lemma OffsetToward(a: real, c: real, s: real)
    ensures a + s * (c - a) - c == (1.0 - s) * (a - c)
  {
  }

  /** Offsets from c commute with sliding: the offset of a slid point is the slid offset. */
  lemma SubToward(a: Vec3, b: Vec3, c: Vec3, s: real)
    ensures Sub(Toward(a, b, s), c) == Toward(Sub(a, c), Sub(b, c), s)
  {
  }

  /** A point slid a fraction s toward c is offset from c by 1 - s times as much. */
  lemma SubTowardSelf(a: Vec3, c: Vec3, s: real)
    ensures Sub(Toward(a, c, s), c) == Scale(1.0 - s, Sub(a, c))
  {
    OffsetToward(a.x, c.x, s);
    OffsetToward(a.y, c.y, s);
    OffsetToward(a.z, c.z, s);
  }

  /** The point t of the way from a to b is the point 1 - t of the way from b to a. */
  lemma TowardFlip(a: Vec3, b: Vec3, t: real)
    ensures Toward(a, b, t) == Toward(b, a, 1.0 - t)
  {
  }

  /** The normal does not depend on which vertex is listed first. */
  lemma CrossCyclic(a: Vec3, b: Vec3, c: Vec3)
    ensures FaceCross(a, b, c) == FaceCross(b, c, a)
  {
  }

  /** Sliding the first vertex toward the second scales the normal by 1 - s. */
  lemma CrossTowardSecond(a: Vec3, b: Vec3, c: Vec3, s: real)
    ensures FaceCross(Toward(a, b, s), b, c) == Scale(1.0 - s, FaceCross(a, b, c))
  {
    SubToward(a, b, c, s);
    CrossTowardOther(Sub(a, c), Sub(b, c), s);
  }

  /** Sliding the first vertex toward the third scales the normal by 1 - s. */
  lemma CrossTowardThird(a: Vec3, b: Vec3, c: Vec3, s: real)
    ensures FaceCross(Toward(a, c, s), b, c) == Scale(1.0 - s, FaceCross(a, b, c))
  {
    SubTowardSelf(a, c, s);
    CrossScaleFirst(Sub(a, c), Sub(b, c), 1.0 - s);
  }

  /**
   * Sliding the vertex in slot k a fraction s toward the vertex in another
   * slot j keeps the three slots in place and scales the normal by 1 - s.
   */
  lemma NormalSlotToward(v: Verts, k: int, j: int, s: real, w: Vertex)
    requires 0 <= k < 3 && 0 <= j < 3 && k != j
    requires Pos(w) == Toward(Pos(v[k]), Pos(v[j]), s)
    ensures Normal(v[k := w]) == Scale(1.0 - s, Normal(v))
  {
    var a, b, c := Pos(v[0]), Pos(v[1]), Pos(v[2]);
    var v' := v[k := w];
    if k == 0 {
      if j == 1 { CrossTowardSecond(a, b, c, s); } else { CrossTowardThird(a, b, c, s); }
    } else if k == 1 {
      CrossCyclic(a, b, c);
      CrossCyclic(a, Pos(w), c);
      if j == 2 { CrossTowardSecond(b, c, a, s); } else { CrossTowardThird(b, c, a, s); }
    } else {
      CrossCyclic(c, a, b);
      CrossCyclic(Pos(w), a, b);
      if j == 0 { CrossTowardSecond(c, a, b, s); } else { CrossTowardThird(c, a, b, s); }
    }
  }

  /**
   * The same, for any three slots with those positions: slot k moved a
   * fraction s toward slot j, the third slot left in place.
   */
  lemma SlideSlot(v: Verts, k: int, j: int, s: real, w: Verts)
    requires 0 <= k < 3 && 0 <= j < 3 && k != j
    requires Pos(w[k]) == Toward(Pos(v[k]), Pos(v[j]), s)
    requires Pos(w[j]) == Pos(v[j]) && Pos(w[3 - k - j]) == Pos(v[3 - k - j])
    ensures Normal(w) == Scale(1.0 - s, Normal(v))
  {
    var v' := v[k := w[k]];
    NormalSlotToward(v, k, j, s, w[k]);
    assert Pos(w[0]) == Pos(v'[0]) && Pos(w[1]) == Pos(v'[1]) && Pos(w[2]) == Pos(v'[2]);
  }

  /** Slot k replaced by the point a fraction t of the way from slot j to it: the normal scales by t. */
  lemma SlideSlotFrom(v: Verts, k: int, j: int, t: real, w: Verts)
    requires 0 <= k < 3 && 0 <= j < 3 && k != j
    requires Pos(w[k]) == Toward(Pos(v[j]), Pos(v[k]), t)
    requires Pos(w[j]) == Pos(v[j]) && Pos(w[3 - k - j]) == Pos(v[3 - k - j])
    ensures Normal(w) == Scale(t, Normal(v))
  {
    TowardFlip(Pos(v[j]), Pos(v[k]), t);
    SlideSlot(v, k, j, 1.0 - t, w);
    assert 1.0 - (1.0 - t) == t;
  }
}
