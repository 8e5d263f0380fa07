/**
 * The global depth buffer `zbuf` of main.c and the routines that write
 * it: init_zbuf and clear_zbuf (main.c:86-101), draw_scanline
 * (main.c:493-573), draw_triangle (main.c:575-732), and the drawing
 * clip_and_render does for one triangle (main.c:734-909). Each method is
 * proved to leave the buffer as the matching function of Span and Fill
 * says, and to return the points it would draw, in order.
 */
module Render {
  import opened Numerics
  import opened Geometry
  import opened Projector
  import opened Raster
  import opened Span
  import opened Fill
  import opened Clipper

  class DepthBuffer {
    /** One 16-bit depth per pixel, row-major; smaller is nearer. */
    var zbuf: array<u16>

    ghost predicate Valid()
      reads this
    {
      zbuf.Length == SCREEN_PIXELS
    }

    /** init_zbuf: allocate the buffer and clear it. */
    constructor ()
      ensures Valid() && fresh(zbuf)
      ensures forall i | 0 <= i < zbuf.Length :: zbuf[i] == U16_MAX
    {
      zbuf := new u16[SCREEN_PIXELS];
      new;
      Clear();
    }

    /** clear_zbuf: every byte 0xFF, so every depth is 0xFFFF, the far plane. */
    method Clear()
      requires Valid()
      modifies zbuf
      ensures forall i | 0 <= i < zbuf.Length :: zbuf[i] == U16_MAX
    {
      forall i | 0 <= i < zbuf.Length {
        zbuf[i] := U16_MAX;
      }
    }

    /**
     * draw_scanline(scanline, x0, z0, u0, v0, x1, z1, u1, v1, tex): fill
     * one row between two endpoints, keeping the nearer depth per pixel.
     */
    method DrawScanline(scanline: int, x0: real, z0: real, u0: real, v0: real,
                        x1: real, z1: real, u1: real, v1: real, tex: Texture) returns (pixels: seq<Pixel>)
      requires Valid() && ValidTexture(tex)
      modifies zbuf
      ensures zbuf[..] == SpanBuffer(old(zbuf[..]), scanline, Endpoint(x0, z0, u0, v0), Endpoint(x1, z1, u1, v1))
      ensures pixels == SpanPixels(old(zbuf[..]), scanline, Endpoint(x0, z0, u0, v0), Endpoint(x1, z1, u1, v1), tex)
    {
      ghost var buf := zbuf[..];
      ghost var e0, e1 := Endpoint(x0, z0, u0, v0), Endpoint(x1, z1, u1, v1);
      ghost var sp := NormalizeSpan(e0, e1);
      pixels := [];
      if scanline >= SCREEN_HEIGHT || scanline < 0 {
        SpanOffScreen(buf, scanline, e0, e1);
        return;
      }
      var xa, za, ua, va := x0, z0, Clamp01(u0), Clamp01(v0);
      var xb, zb, ub, vb := x1, z1, Clamp01(u1), Clamp01(v1);
      var t: real;
      if xa > xb {
        t := xa;
        xa := xb;
        xb := t;
        t := za;
        za := zb;
        zb := t;
        t := ua;
        ua := ub;
        ub := t;
        t := ua;
        ua := ub;
        ub := t;
      }
      var x := xa.Floor;
      var dz, dx, du, dv := zb - za, xb - x as real, ub - ua, vb - va;
      var mz, mu, mv := Ratio(dz, dx), Ratio(du, dx), Ratio(dv, dx);
      assert sp == SpanParams(x, xb, zb, mz, ub, mu, vb, mv);
      pixels := FillColumns(scanline, x, xb, zb, mz, ub, mu, vb, mv, tex, e0, e1);
    }

    /**
     * The column loop of draw_scanline (main.c:539-572), given the values
     * its prologue computed for the endpoints e0 and e1: every column from
     * `x` to floor(xEnd) that is on screen and nearer than the buffer's
     * entry is drawn and written.
     */
    method FillColumns(scanline: int, x: int, xEnd: real, z1: real, mz: real, u1: real, mu: real,
                       v1: real, mv: real, tex: Texture, ghost e0: Endpoint, ghost e1: Endpoint)
        returns (pixels: seq<Pixel>)
      requires Valid() && ValidTexture(tex) && 0 <= scanline < SCREEN_HEIGHT
      requires NormalizeSpan(e0, e1) == SpanParams(x, xEnd, z1, mz, u1, mu, v1, mv)
      modifies zbuf
      ensures zbuf[..] == SpanBuffer(old(zbuf[..]), scanline, e0, e1)
      ensures pixels == PixelsUpTo(old(zbuf[..]), scanline, e0, e1, tex, xEnd.Floor + 1)
    {
      ghost var buf := zbuf[..];
      ghost var last := xEnd.Floor;
      var col := x;
      var zAddr := scanline * SCREEN_WIDTH + col;
      SpanBufferNone(buf, scanline, e0, e1);
      pixels := [];
      while col as real <= xEnd
        invariant x <= col <= last + 1
        invariant zAddr == scanline * SCREEN_WIDTH + col
        invariant zbuf[..] == SpanBufferUpTo(buf, scanline, e0, e1, col)
        invariant pixels == PixelsUpTo(buf, scanline, e0, e1, tex, col)
        decreases last - col
      {
        ColumnBound(col, xEnd);
        assert col <= last;
        var px := DrawColumn(scanline, col, zAddr, x, xEnd, z1, mz, u1, mu, v1, mv, tex, e0, e1, buf);
        pixels := pixels + px;
        col := col + 1;
        zAddr := zAddr + 1;
      }
      ColumnBound(col, xEnd);
      assert col == last + 1;
    }

    /**
     * One pass of the column loop (main.c:540-571) at column `col`: on
     * screen, the rounded clamped depth is compared with entry `zAddr`
     * and, if nearer, the texel is looked up, the point drawn and the
     * entry written.
     */
    method DrawColumn(scanline: int, col: int, zAddr: int, x: int, xEnd: real, z1: real, mz: real, u1: real, mu: real,
                      v1: real, mv: real, tex: Texture, ghost e0: Endpoint, ghost e1: Endpoint, ghost buf: seq<u16>)
        returns (px: seq<Pixel>)
      requires Valid() && ValidTexture(tex) && 0 <= scanline < SCREEN_HEIGHT && |buf| == SCREEN_PIXELS
      requires NormalizeSpan(e0, e1) == SpanParams(x, xEnd, z1, mz, u1, mu, v1, mv)
      requires x <= col <= xEnd.Floor && zAddr == scanline * SCREEN_WIDTH + col
      requires zbuf[..] == SpanBufferUpTo(buf, scanline, e0, e1, col)
      modifies zbuf
      ensures zbuf[..] == SpanBufferUpTo(buf, scanline, e0, e1, col + 1)
      ensures PixelsUpTo(buf, scanline, e0, e1, tex, col + 1) == PixelsUpTo(buf, scanline, e0, e1, tex, col) + px
    {
      ghost var cur := zbuf[..];
      px := [];
      ColumnStep(buf, scanline, e0, e1, tex, col);
      ColumnValues(e0, e1, tex, col, x, xEnd, z1, mz, u1, mu, v1, mv);
      if col < SCREEN_WIDTH && col >= 0 {
        var newzF := mz * (col as real - xEnd) + z1;
        var c := ClampDepth(newzF);
        LRoundWithin(c, 65535);
        var newz: u16 := LRound(c);
        if newz < zbuf[zAddr] {
          var newuF := mu * (col as real - xEnd) + u1;
          var newu := TexCoord(newuF, tex.width);
          var newvF := mv * (col as real - xEnd) + v1;
          var newv := TexCoord(newvF, tex.height);
          var texel := tex.data[newv * tex.width + newu];
          LRoundOfInt(col);
          LRoundOfInt(scanline);
          px := [Pixel(LRound(col as real), LRound(scanline as real), Channels(texel))];
          zbuf[zAddr] := newz;
          assert zbuf[..] == cur[zAddr := newz];
        }
      }
    }

    /**
     * draw_triangle: skip a triangle behind the eye or facing away, project
     * it, sort the vertices by y, and draw one span per screen row from the
     * top vertex's row to the row above the bottom vertex's.
     */
    method DrawTriangle(tri: Triangle, focal: real) returns (pixels: seq<Pixel>)
      requires Valid() && ValidTexture(tri.t)
      modifies zbuf
      ensures zbuf[..] == TriangleBuffer(old(zbuf[..]), tri, focal)
      ensures pixels == TrianglePixels(old(zbuf[..]), tri, focal)
    {
      ghost var buf := zbuf[..];
      pixels := [];
      if tri.v[0].z < 0.0 && tri.v[1].z < 0.0 && tri.v[2].z < 0.0 {
        return;
      }
      if BackFacing(Normal(tri.v)) {
        return;
      }
      var p := new ScreenPoint[3];
      for i := 0 to 3
        modifies p
        invariant forall j | 0 <= j < i :: p[j] == Project(tri.v[j], focal)
      {
        p[i] := Project(tri.v[i], focal);
      }
      assert zbuf[..] == buf;
      var pts := p[..];
      assert pts == ProjectAll(tri, focal);
      var order := SortByY(pts);
      var f, s, t := order.0, order.1, order.2;
      pixels := DrawRows(pts, f, s, t, tri.t);
    }

    /**
     * The slopes and row loop of draw_triangle (main.c:659-731), on the
     * projected vertices `p` sorted into the order f, s, t.
     */
    method DrawRows(p: seq<ScreenPoint>, f: int, s: int, t: int, tex: Texture) returns (pixels: seq<Pixel>)
      requires Valid() && ValidTexture(tex)
      requires |p| == 3 && IsOrdering(f, s, t) && SortedByY(p, f, s, t)
      modifies zbuf
      ensures zbuf[..] == RowsBuffer(old(zbuf[..]), p, f, s, t, p[t].y)
      ensures pixels == RowsPixels(old(zbuf[..]), p, f, s, t, tex, p[t].y)
    {
      ghost var buf := zbuf[..];
      var currentS := p[f].y;
      var dy1, dy2, dy3 := (p[s].y - p[f].y) as real, (p[t].y - p[s].y) as real, (p[t].y - p[f].y) as real;
      var mx1, mz1, mu1, mv1 := Ratio((p[s].x - p[f].x) as real, dy1), Ratio((p[s].z - p[f].z) as real, dy1),
                                Ratio(p[s].u - p[f].u, dy1), Ratio(p[s].v - p[f].v, dy1);
      var mx2, mz2, mu2, mv2 := Ratio((p[t].x - p[s].x) as real, dy2), Ratio((p[t].z - p[s].z) as real, dy2),
                                Ratio(p[t].u - p[s].u, dy2), Ratio(p[t].v - p[s].v, dy2);
      var mx3, mz3, mu3, mv3 := Ratio((p[t].x - p[f].x) as real, dy3), Ratio((p[t].z - p[f].z) as real, dy3),
                                Ratio(p[t].u - p[f].u, dy3), Ratio(p[t].v - p[f].v, dy3);
      var firstX, firstY, firstZ, firstU, firstV := p[f].x as real, p[f].y, p[f].z as real, p[f].u, p[f].v;
      var secondX, secondY, secondZ, secondU, secondV := p[s].x as real, p[s].y, p[s].z as real, p[s].u, p[s].v;
      pixels := [];
      while currentS < p[t].y
        invariant p[f].y <= currentS <= p[t].y
        invariant zbuf[..] == RowsBuffer(buf, p, f, s, t, currentS)
        invariant pixels == RowsPixels(buf, p, f, s, t, tex, currentS)
        decreases p[t].y - currentS
      {
        RowsStep(buf, p, f, s, t, tex, currentS);
        if !(currentS >= SCREEN_HEIGHT || currentS < 0) {
          ghost var e := RowEndpoints(p, f, s, t, currentS);
          var k := (currentS - firstY) as real;
          var newX3, newZ3, newU3, newV3 := Along(mx3, k, firstX), Along(mz3, k, firstZ), Along(mu3, k, firstU), Along(mv3, k, firstV);
          assert e.1 == Endpoint(newX3, newZ3, newU3, newV3);
          var span: seq<Pixel>;
          if currentS < p[s].y {
            var newX1, newZ1, newU1, newV1 := Along(mx1, k, firstX), Along(mz1, k, firstZ), Along(mu1, k, firstU), Along(mv1, k, firstV);
            assert e.0 == Endpoint(newX1, newZ1, newU1, newV1);
            span := DrawScanline(currentS, newX1, newZ1, newU1, newV1, newX3, newZ3, newU3, newV3, tex);
          } else {
            var k2 := (currentS - secondY) as real;
            var newX2, newZ2, newU2, newV2 := Along(mx2, k2, secondX), Along(mz2, k2, secondZ), Along(mu2, k2, secondU), Along(mv2, k2, secondV);
            assert e.0 == Endpoint(newX2, newZ2, newU2, newV2);
            span := DrawScanline(currentS, newX2, newZ2, newU2, newV2, newX3, newZ3, newU3, newV3, tex);
          }
          pixels := pixels + span;
        }
        currentS := currentS + 1;
      }
    }

    /**
     * clip_and_render(tri) with its drawing: the pieces the clipper
     * produces, drawn in the order the recursion reaches them.
     */
    method ClipAndDraw(tri: Triangle, stale: Stale, focal: real) returns (pixels: seq<Pixel>)
      requires Valid()
      requires ValidTexture(tri.t) && ValidTexture(stale.slot0.t) && ValidTexture(stale.slot1.t)
      modifies zbuf
      ensures forall d | d in TwoPass(tri, stale) :: ValidTexture(d.t)
      ensures zbuf[..] == DrawAll(old(zbuf[..]), TwoPass(tri, stale), focal)
      ensures pixels == DrawAllPixels(old(zbuf[..]), TwoPass(tri, stale), focal)
    {
      ghost var buf := zbuf[..];
      var drawn := ClipAndRender(tri, stale);
      TwoPassTextures(tri, stale);
      pixels := [];
      var k := 0;
      assert drawn[0..] == drawn;
      while k < |drawn|
        invariant 0 <= k <= |drawn|
        invariant DrawAll(zbuf[..], drawn[k..], focal) == DrawAll(buf, drawn, focal)
        invariant pixels + DrawAllPixels(zbuf[..], drawn[k..], focal) == DrawAllPixels(buf, drawn, focal)
      {
        DrawAllStep(zbuf[..], drawn, k, focal);
        var more := DrawTriangle(drawn[k], focal);
        pixels := pixels + more;
        k := k + 1;
      }
    }
  }

  /** Drawing ts[k..] is drawing ts[k], then the rest. */
  lemma DrawAllStep(b: seq<u16>, ts: seq<Triangle>, k: int, focal: real)
    requires |b| == SCREEN_PIXELS && 0 <= k < |ts| && forall d | d in ts :: ValidTexture(d.t)
    ensures ValidTexture(ts[k].t)
    ensures DrawAll(b, ts[k..], focal) == DrawAll(TriangleBuffer(b, ts[k], focal), ts[k + 1..], focal)
    ensures DrawAllPixels(b, ts[k..], focal)
         == TrianglePixels(b, ts[k], focal) + DrawAllPixels(TriangleBuffer(b, ts[k], focal), ts[k + 1..], focal)
  {
    assert ts[k] in ts;
    assert ts[k..][1..] == ts[k + 1..];
  }

  /** Every clipped piece takes its texture from the triangle or from one of the two stale slots. */
  lemma TwoPassTextures(tri: Triangle, stale: Stale)
    requires ValidTexture(tri.t) && ValidTexture(stale.slot0.t) && ValidTexture(stale.slot1.t)
    ensures forall d | d in TwoPass(tri, stale) :: ValidTexture(d.t)
  {
    TwoPassAttributes(tri, stale);
  }

  /**
   * A clipped piece is culled only if the triangle it came from would be,
   * and a piece that has not collapsed to a zero normal is culled whenever
   * that triangle would be: clipping never changes which way a surface
   * faces.
   */
  lemma ClippedPiecesCullLikeOriginal(tri: Triangle, stale: Stale)
    ensures forall d | d in TwoPass(tri, stale) :: BackFacing(Normal(d.v)) ==> BackFacing(Normal(tri.v))
    ensures forall d | d in TwoPass(tri, stale) && Normal(d.v) != Vec3(0.0, 0.0, 0.0) ::
      BackFacing(Normal(tri.v)) ==> BackFacing(Normal(d.v))
  {
    TwoPassFacing(tri, stale);
    forall d | d in TwoPass(tri, stale)
      ensures BackFacing(Normal(d.v)) ==> BackFacing(Normal(tri.v))
      ensures Normal(d.v) != Vec3(0.0, 0.0, 0.0) && BackFacing(Normal(tri.v)) ==> BackFacing(Normal(d.v))
    {
      var k :| 0.0 <= k && Normal(d.v) == Scale(k, Normal(tri.v));
      BackFacingScale(k, Normal(tri.v));
    }
  }
}
