/**
 * What draw_triangle (main.c:575-732) does to the depth buffer and which
 * points it draws, as functions of the buffer before the call; and the
 * depth-buffer facts that follow: drawing only ever lowers depths, only
 * on the rows a triangle spans, and the final buffer does not depend on
 * the order triangles are drawn in.
 */
module Fill {
  import opened Numerics
  import opened Geometry
  import opened Projector
  import opened Raster
  import opened Span

  /**
   * The back-face test of main.c:611-622: the angle between the unit
   * normal and the direction toward the camera is at least 3 pi / 4, that
   * is -n.z / |n| <= -sqrt(2) / 2, which for a non-zero normal is
   * n.z > 0 and n.x^2 + n.y^2 <= n.z^2. A zero normal gives NaN there,
   * and NaN compares false, so it is not culled, as here.
   */
  predicate BackFacing(n: Vec3) {
    0.0 < n.z && n.x * n.x + n.y * n.y <= n.z * n.z
  }

  /** Scaling a normal by a positive factor keeps the cull decision; scaling it to zero un-culls it. */
  lemma BackFacingScale(k: real, n: Vec3)
    requires 0.0 <= k
    ensures 0.0 < k ==> (BackFacing(Scale(k, n)) <==> BackFacing(n))
    ensures k == 0.0 ==> !BackFacing(Scale(k, n))
  {
    var m := Scale(k, n);
    SquareScale(k, n.x);
    SquareScale(k, n.y);
    SquareScale(k, n.z);
    assert m.x * m.x + m.y * m.y == (k * k) * (n.x * n.x + n.y * n.y);
    if 0.0 < k {
      PositiveFactor(k, n.z, n.x * n.x + n.y * n.y, n.z * n.z);
    }
  }

  lemma PositiveFactor(k: real, z: real, a: real, b: real)
    requires 0.0 < k
    ensures 0.0 < k * z <==> 0.0 < z
    ensures (k * k) * a <= (k * k) * b <==> a <= b
  {
    ProductSign(k, z);
    ScaleCompare(k, a, b);
    ScaleCompare(k, k * a, k * b);
    assert (k * k) * a == k * (k * a) && (k * k) * b == k * (k * b);
  }

  lemma SquareScale(k: real, x: real)
    ensures (k * x) * (k * x) == (k * k) * (x * x)
  {
  }

  lemma ScaleCompare(k: real, a: real, b: real)
    requires 0.0 < k
    ensures k * a <= k * b <==> a <= b
  {
    ProductSign(k, b - a);
    assert k * (b - a) == k * b - k * a;
  }

  /** draw_triangle returns at once when all three vertices are behind the eye, or when the triangle faces away. */
  predicate Skipped(tri: Triangle) {
    (tri.v[0].z < 0.0 && tri.v[1].z < 0.0 && tri.v[2].z < 0.0) || BackFacing(Normal(tri.v))
  }

  /** The three projected vertices (main.c:638-640). */
  function ProjectAll(tri: Triangle, focal: real): (p: seq<ScreenPoint>)
    ensures |p| == 3 && forall i | 0 <= i < 3 :: p[i] == Project(tri.v[i], focal)
  {
    [Project(tri.v[0], focal), Project(tri.v[1], focal), Project(tri.v[2], focal)]
  }

  /** The buffer after the row loop has drawn every row from the top vertex's up to, not including, `hi`. */
  function RowsBuffer(buf: seq<u16>, p: seq<ScreenPoint>, f: int, s: int, t: int, hi: int): (r: seq<u16>)
    requires |buf| == SCREEN_PIXELS && |p| == 3 && IsOrdering(f, s, t)
    ensures |r| == |buf|
    decreases hi - p[f].y
  {
    if hi <= p[f].y then buf
    else
      var b := RowsBuffer(buf, p, f, s, t, hi - 1);
      var row := hi - 1;
      if row >= SCREEN_HEIGHT || row < 0 then b
      else SpanBuffer(b, row, RowEndpoints(p, f, s, t, row).0, RowEndpoints(p, f, s, t, row).1)
  }

  /** The points the same rows draw, row by row. */
  function RowsPixels(buf: seq<u16>, p: seq<ScreenPoint>, f: int, s: int, t: int, tex: Texture, hi: int): seq<Pixel>
    requires |buf| == SCREEN_PIXELS && |p| == 3 && IsOrdering(f, s, t) && ValidTexture(tex)
    decreases hi - p[f].y
  {
    if hi <= p[f].y then []
    else
      var row := hi - 1;
      var before := RowsPixels(buf, p, f, s, t, tex, hi - 1);
      if row >= SCREEN_HEIGHT || row < 0 then before
      else
        var b := RowsBuffer(buf, p, f, s, t, hi - 1);
        before + SpanPixels(b, row, RowEndpoints(p, f, s, t, row).0, RowEndpoints(p, f, s, t, row).1, tex)
  }

  /** One more row of the loop: a row on screen draws its span into the buffer the earlier rows left; any other row changes nothing. */
  lemma RowsStep(buf: seq<u16>, p: seq<ScreenPoint>, f: int, s: int, t: int, tex: Texture, row: int)
    requires |buf| == SCREEN_PIXELS && |p| == 3 && IsOrdering(f, s, t) && ValidTexture(tex) && p[f].y <= row
    ensures var b, e := RowsBuffer(buf, p, f, s, t, row), RowEndpoints(p, f, s, t, row);
      0 <= row < SCREEN_HEIGHT ==>
        && RowsBuffer(buf, p, f, s, t, row + 1) == SpanBuffer(b, row, e.0, e.1)
        && RowsPixels(buf, p, f, s, t, tex, row + 1) == RowsPixels(buf, p, f, s, t, tex, row) + SpanPixels(b, row, e.0, e.1, tex)
    ensures !(0 <= row < SCREEN_HEIGHT) ==>
      && RowsBuffer(buf, p, f, s, t, row + 1) == RowsBuffer(buf, p, f, s, t, row)
      && RowsPixels(buf, p, f, s, t, tex, row + 1) == RowsPixels(buf, p, f, s, t, tex, row)
  {
  }

  /** The buffer after draw_triangle(tri). */
  function TriangleBuffer(buf: seq<u16>, tri: Triangle, focal: real): (r: seq<u16>)
    requires |buf| == SCREEN_PIXELS
    ensures |r| == |buf|
  {
    if Skipped(tri) then buf
    else
      var p := ProjectAll(tri, focal);
      var o := SortByY(p);
      RowsBuffer(buf, p, o.0, o.1, o.2, p[o.2].y)
  }

  /** The points draw_triangle(tri) draws. */
  function TrianglePixels(buf: seq<u16>, tri: Triangle, focal: real): seq<Pixel>
    requires |buf| == SCREEN_PIXELS && ValidTexture(tri.t)
  {
    if Skipped(tri) then []
    else
      var p := ProjectAll(tri, focal);
      var o := SortByY(p);
      RowsPixels(buf, p, o.0, o.1, o.2, tri.t, p[o.2].y)
  }

  /** The buffer after drawing the triangles of `ts` in order. */
  function DrawAll(buf: seq<u16>, ts: seq<Triangle>, focal: real): (r: seq<u16>)
    requires |buf| == SCREEN_PIXELS
    ensures |r| == |buf|
    decreases |ts|
  {
    if ts == [] then buf else DrawAll(TriangleBuffer(buf, ts[0], focal), ts[1..], focal)
  }

  /** The points drawn while drawing the triangles of `ts` in order. */
  function DrawAllPixels(buf: seq<u16>, ts: seq<Triangle>, focal: real): seq<Pixel>
    requires |buf| == SCREEN_PIXELS && forall d | d in ts :: ValidTexture(d.t)
    decreases |ts|
  {
    if ts == [] then []
    else TrianglePixels(buf, ts[0], focal) + DrawAllPixels(TriangleBuffer(buf, ts[0], focal), ts[1..], focal)
  }

  /** A bound above every 16-bit depth: "this draw does not reach the entry". */
  const NO_DEPTH: int := 0x1_0000

  function Min(a: int, b: int): int {
    if a <= b then a else b
  }

  /** The depth a span offers entry i, or NO_DEPTH if it does not cover it. */
  function SpanMask(row: int, e0: Endpoint, e1: Endpoint, i: int): int {
    var sp := NormalizeSpan(e0, e1);
    var x := i - row * SCREEN_WIDTH;
    if InRow(row, i) && Covered(row, sp, x) then DepthAt(sp, x) else NO_DEPTH
  }

  /** A span sets every entry to the smaller of its old value and what the span offers. */
  lemma SpanIsMin(buf: seq<u16>, row: int, e0: Endpoint, e1: Endpoint)
    requires |buf| == SCREEN_PIXELS
    ensures forall i | 0 <= i < |buf| :: SpanBuffer(buf, row, e0, e1)[i] == Min(buf[i], SpanMask(row, e0, e1, i))
  {
  }

  /** The least depth the rows before `hi` offer entry i. */
  function RowsMask(p: seq<ScreenPoint>, f: int, s: int, t: int, hi: int, i: int): int
    requires |p| == 3 && IsOrdering(f, s, t)
    decreases hi - p[f].y
  {
    if hi <= p[f].y then NO_DEPTH
    else
      var row := hi - 1;
      var m := RowsMask(p, f, s, t, hi - 1, i);
      if row >= SCREEN_HEIGHT || row < 0 then m
      else Min(m, SpanMask(row, RowEndpoints(p, f, s, t, row).0, RowEndpoints(p, f, s, t, row).1, i))
  }

  lemma {:induction false} RowsIsMin(buf: seq<u16>, p: seq<ScreenPoint>, f: int, s: int, t: int, hi: int)
    requires |buf| == SCREEN_PIXELS && |p| == 3 && IsOrdering(f, s, t)
    ensures forall i | 0 <= i < |buf| :: RowsBuffer(buf, p, f, s, t, hi)[i] == Min(buf[i], RowsMask(p, f, s, t, hi, i))
    decreases hi - p[f].y
  {
    if hi > p[f].y {
      RowsIsMin(buf, p, f, s, t, hi - 1);
      var row := hi - 1;
      if 0 <= row < SCREEN_HEIGHT {
        var e := RowEndpoints(p, f, s, t, row);
        SpanIsMin(RowsBuffer(buf, p, f, s, t, hi - 1), row, e.0, e.1);
      }
    }
  }

  /** Only rows from the top vertex's down to the row above `hi` offer any depth. */
  lemma {:induction false} RowsMaskRows(p: seq<ScreenPoint>, f: int, s: int, t: int, hi: int, i: int)
    requires |p| == 3 && IsOrdering(f, s, t)
    ensures RowsMask(p, f, s, t, hi, i) < NO_DEPTH ==>
      0 <= i / SCREEN_WIDTH < SCREEN_HEIGHT && p[f].y <= i / SCREEN_WIDTH < hi
    ensures RowsMask(p, f, s, t, hi, i) <= NO_DEPTH
    decreases hi - p[f].y
  {
    if hi > p[f].y {
      RowsMaskRows(p, f, s, t, hi - 1, i);
    }
  }

  /** The least depth draw_triangle(tri) offers entry i. */
  function TriangleMask(tri: Triangle, focal: real, i: int): int {
    if Skipped(tri) then NO_DEPTH
    else
      var p := ProjectAll(tri, focal);
      var o := SortByY(p);
      RowsMask(p, o.0, o.1, o.2, p[o.2].y, i)
  }

  /** Drawing a triangle sets every entry to the smaller of its old value and what the triangle offers. */
  lemma TriangleIsMin(buf: seq<u16>, tri: Triangle, focal: real)
    requires |buf| == SCREEN_PIXELS
    ensures forall i | 0 <= i < |buf| :: TriangleBuffer(buf, tri, focal)[i] == Min(buf[i], TriangleMask(tri, focal, i))
  {
    if !Skipped(tri) {
      var p := ProjectAll(tri, focal);
      var o := SortByY(p);
      RowsIsMin(buf, p, o.0, o.1, o.2, p[o.2].y);
    }
  }

  /**
   * Drawing a triangle never raises a depth, and it changes an entry only
   * on a screen row between its top and bottom projected vertices.
   */
  lemma TriangleOnlyLowers(buf: seq<u16>, tri: Triangle, focal: real)
    requires |buf| == SCREEN_PIXELS
    ensures var r := TriangleBuffer(buf, tri, focal);
      forall i | 0 <= i < |buf| :: r[i] <= buf[i]
    ensures var r, p := TriangleBuffer(buf, tri, focal), ProjectAll(tri, focal);
      forall i | 0 <= i < |buf| && r[i] != buf[i] ::
        && !Skipped(tri)
        && 0 <= i / SCREEN_WIDTH < SCREEN_HEIGHT
        && p[SortByY(p).0].y <= i / SCREEN_WIDTH < p[SortByY(p).2].y
  {
    var r, p := TriangleBuffer(buf, tri, focal), ProjectAll(tri, focal);
    var o := SortByY(p);
    TriangleIsMin(buf, tri, focal);
    forall i | 0 <= i < |buf| && r[i] != buf[i]
      ensures !Skipped(tri) && 0 <= i / SCREEN_WIDTH < SCREEN_HEIGHT && p[o.0].y <= i / SCREEN_WIDTH < p[o.2].y
    {
      RowsMaskRows(p, o.0, o.1, o.2, p[o.2].y, i);
    }
  }

  /** The depth buffer does not depend on the order two triangles are drawn in. */
  lemma TrianglesCommute(buf: seq<u16>, a: Triangle, b: Triangle, focal: real)
    requires |buf| == SCREEN_PIXELS
    ensures TriangleBuffer(TriangleBuffer(buf, a, focal), b, focal) == TriangleBuffer(TriangleBuffer(buf, b, focal), a, focal)
  {
    var ab := TriangleBuffer(TriangleBuffer(buf, a, focal), b, focal);
    var ba := TriangleBuffer(TriangleBuffer(buf, b, focal), a, focal);
    TriangleIsMin(buf, a, focal);
    TriangleIsMin(buf, b, focal);
    TriangleIsMin(TriangleBuffer(buf, a, focal), b, focal);
    TriangleIsMin(TriangleBuffer(buf, b, focal), a, focal);
    forall i | 0 <= i < |buf|
      ensures ab[i] == ba[i]
    {
    }
  }

  /** The least depth any triangle of `ts` offers entry i. */
  function AllMask(ts: seq<Triangle>, focal: real, i: int): int
    decreases |ts|
  {
    if ts == [] then NO_DEPTH else Min(TriangleMask(ts[0], focal, i), AllMask(ts[1..], focal, i))
  }

  lemma {:induction false} DrawAllIsMin(buf: seq<u16>, ts: seq<Triangle>, focal: real)
    requires |buf| == SCREEN_PIXELS
    ensures forall i | 0 <= i < |buf| :: DrawAll(buf, ts, focal)[i] == Min(buf[i], AllMask(ts, focal, i))
    decreases |ts|
  {
    if ts != [] {
      TriangleIsMin(buf, ts[0], focal);
      DrawAllIsMin(TriangleBuffer(buf, ts[0], focal), ts[1..], focal);
    }
  }

  lemma {:induction false} AllMaskAppend(ts: seq<Triangle>, us: seq<Triangle>, focal: real, i: int)
    ensures AllMask(ts + us, focal, i) == Min(AllMask(ts, focal, i), AllMask(us, focal, i))
    decreases |ts|
  {
    if ts == [] {
      assert ts + us == us;
      AllMaskBounded(us, focal, i);
    } else {
      assert (ts + us)[1..] == ts[1..] + us;
      AllMaskAppend(ts[1..], us, focal, i);
    }
  }

  lemma {:induction false} AllMaskBounded(ts: seq<Triangle>, focal: real, i: int)
    ensures AllMask(ts, focal, i) <= NO_DEPTH
    decreases |ts|
  {
    if ts != [] {
      AllMaskBounded(ts[1..], focal, i);
    }
  }

  /**
   * Two batches of triangles give the same depth buffer whichever is
   * drawn first: hidden-surface removal does not depend on submission
   * order.
   */
  lemma DrawOrderIrrelevant(buf: seq<u16>, ts: seq<Triangle>, us: seq<Triangle>, focal: real)
    requires |buf| == SCREEN_PIXELS
    ensures DrawAll(buf, ts + us, focal) == DrawAll(buf, us + ts, focal)
  {
    var a, b := DrawAll(buf, ts + us, focal), DrawAll(buf, us + ts, focal);
    DrawAllIsMin(buf, ts + us, focal);
    DrawAllIsMin(buf, us + ts, focal);
    forall i | 0 <= i < |buf|
      ensures a[i] == b[i]
    {
      AllMaskAppend(ts, us, focal, i);
      AllMaskAppend(us, ts, focal, i);
    }
  }
}
