/**
 * What draw_scanline (main.c:493-573) does to one row of the depth buffer,
 * as functions of the buffer before the call: the prologue that orders and
 * floors the span, the per-pixel interpolation of depth and texture
 * coordinates, the nearer-wins depth test, and the pixels it emits.
 */
module Span {
  import opened Numerics
  import opened Geometry
  import opened Raster

  /**
   * The span after the prologue of main.c:504-539: the first pixel column
   * `start`, the right end `xEnd`, and each attribute as its value at the
   * right end and its slope per column.
   */
  datatype SpanParams = SpanParams(start: int, xEnd: real, z1: real, mz: real, u1: real, mu: real, v1: real, mv: real)

  /** The endpoint the prologue puts on the left: e1 when e0 lies strictly to its right. */
  function Left(e0: Endpoint, e1: Endpoint): Endpoint {
    if e0.x > e1.x then e1 else e0
  }

  function Right(e0: Endpoint, e1: Endpoint): Endpoint {
    if e0.x > e1.x then e0 else e1
  }

  /**
   * The prologue. Texture coordinates are clamped to [0, 1]; if x0 > x1
   * the x and z of the endpoints are exchanged, but the block meant for v
   * exchanges u a second time, so u and v keep their argument order.
   */
  function NormalizeSpan(e0: Endpoint, e1: Endpoint): (sp: SpanParams)
    ensures sp.start as real <= sp.xEnd
  {
    var l, r := Left(e0, e1), Right(e0, e1);
    Prologue(l.x, l.z, Clamp01(e0.u), Clamp01(e0.v), r.x, r.z, Clamp01(e1.u), Clamp01(e1.v))
  }

  /**
   * The rest of the prologue, on the ordered values: x0 is floored, and
   * every slope is its difference over x1 - floor(x0), or 0 if that is 0.
   */
  function Prologue(x0: real, z0: real, u0: real, v0: real, x1: real, z1: real, u1: real, v1: real): (sp: SpanParams)
    ensures x0 <= x1 ==> sp.start as real <= sp.xEnd
  {
    var start := x0.Floor;
    var dx := x1 - start as real;
    SpanParams(start, x1, z1, Ratio(z1 - z0, dx), u1, Ratio(u1 - u0, dx), v1, Ratio(v1 - v0, dx))
  }

  /** The interpolated depth, u and v at column x: m (x - x1) + attr1 (main.c:546, 553, 557). */
  function ZAt(sp: SpanParams, x: real): real {
    sp.mz * (x - sp.xEnd) + sp.z1
  }

  function UAt(sp: SpanParams, x: real): real {
    sp.mu * (x - sp.xEnd) + sp.u1
  }

  function VAt(sp: SpanParams, x: real): real {
    sp.mv * (x - sp.xEnd) + sp.v1
  }

  /** A line through (lo, a) and (hi, b) with the guarded slope takes the value a at lo, unless lo == hi. */
  lemma LineAtStart(a: real, b: real, lo: real, hi: real)
    requires lo < hi
    ensures Ratio(b - a, hi - lo) * (lo - hi) + b == a
  {
    var m := Ratio(b - a, hi - lo);
    assert m * (hi - lo) == b - a;
    ProductOfOpposite(m, hi - lo, lo - hi);
    assert m * (lo - hi) == -(m * (hi - lo));
  }

  /**
   * Between lo and hi the line through (lo, a) and (hi, b) stays between a
   * and b.
   */
  lemma LineBetween(a: real, b: real, lo: real, hi: real, x: real)
    requires lo <= x <= hi
    ensures var y := Ratio(b - a, hi - lo) * (x - hi) + b;
      (a <= b ==> a <= y <= b) && (b <= a ==> b <= y <= a)
  {
    var dx := hi - lo;
    var m := Ratio(b - a, dx);
    if dx != 0.0 {
      assert m == (b - a) / dx;
      var s := (hi - x) / dx;
      QuotientInClosedUnit(hi - x, dx);
      assert 0.0 <= s <= 1.0;
      CrossQuotient(b - a, hi - x, dx);
      assert m * (hi - x) == s * (b - a);
      ProductOfOpposite(m, hi - x, x - hi);
      assert m * (x - hi) == -(m * (hi - x));
      ProductOfOpposite(s, b - a, a - b);
      assert s * (a - b) == -(s * (b - a));
      Between(b, a - b, s);
      assert a <= b ==> a <= b + s * (a - b) <= b;
      assert b <= a ==> b <= b + s * (a - b) <= a;
    }
  }

  /** The interpolation reaches the second values at x1 and, if the span is wider than a point, the first values at floor(x0). */
  lemma PrologueEnds(x0: real, z0: real, u0: real, v0: real, x1: real, z1: real, u1: real, v1: real)
    ensures var sp := Prologue(x0, z0, u0, v0, x1, z1, u1, v1);
      ZAt(sp, x1) == z1 && UAt(sp, x1) == u1 && VAt(sp, x1) == v1
    ensures var sp := Prologue(x0, z0, u0, v0, x1, z1, u1, v1);
      sp.start as real < x1 ==>
        ZAt(sp, sp.start as real) == z0 && UAt(sp, sp.start as real) == u0 && VAt(sp, sp.start as real) == v0
  {
    var lo := x0.Floor as real;
    var sp := Prologue(x0, z0, u0, v0, x1, z1, u1, v1);
    if lo < x1 {
      LineAtStart(z0, z1, lo, x1);
      assert ZAt(sp, lo) == Ratio(z1 - z0, x1 - lo) * (lo - x1) + z1;
      LineAtStart(u0, u1, lo, x1);
      assert UAt(sp, lo) == Ratio(u1 - u0, x1 - lo) * (lo - x1) + u1;
      LineAtStart(v0, v1, lo, x1);
      assert VAt(sp, lo) == Ratio(v1 - v0, x1 - lo) * (lo - x1) + v1;
    }
  }

  /** Between floor(x0) and x1 every attribute stays between its two values. */
  lemma PrologueBetween(x0: real, z0: real, u0: real, v0: real, x1: real, z1: real, u1: real, v1: real, x: real)
    requires x0.Floor as real <= x <= x1
    ensures var sp := Prologue(x0, z0, u0, v0, x1, z1, u1, v1);
      var z, u, v := ZAt(sp, x), UAt(sp, x), VAt(sp, x);
      && (z0 <= z1 ==> z0 <= z <= z1) && (z1 <= z0 ==> z1 <= z <= z0)
      && (u0 <= u1 ==> u0 <= u <= u1) && (u1 <= u0 ==> u1 <= u <= u0)
      && (v0 <= v1 ==> v0 <= v <= v1) && (v1 <= v0 ==> v1 <= v <= v0)
  {
    var lo := x0.Floor as real;
    var sp := Prologue(x0, z0, u0, v0, x1, z1, u1, v1);
    LineBetween(z0, z1, lo, x1, x);
    assert ZAt(sp, x) == Ratio(z1 - z0, x1 - lo) * (x - x1) + z1;
    LineBetween(u0, u1, lo, x1, x);
    assert UAt(sp, x) == Ratio(u1 - u0, x1 - lo) * (x - x1) + u1;
    LineBetween(v0, v1, lo, x1, x);
    assert VAt(sp, x) == Ratio(v1 - v0, x1 - lo) * (x - x1) + v1;
  }

  /**
   * The span runs from the left endpoint's x (floored) to the right
   * endpoint's x, and its depth from the left endpoint's z to the right
   * endpoint's z. Its texture coordinates, however, run from e0's to e1's
   * whichever side each lies on: a span given right to left is textured
   * mirror-wise.
   */
  lemma SpanEnds(e0: Endpoint, e1: Endpoint)
    ensures var sp := NormalizeSpan(e0, e1);
      && sp.start == Left(e0, e1).x.Floor && sp.xEnd == Right(e0, e1).x
      && ZAt(sp, sp.xEnd) == Right(e0, e1).z
      && UAt(sp, sp.xEnd) == Clamp01(e1.u) && VAt(sp, sp.xEnd) == Clamp01(e1.v)
    ensures var sp := NormalizeSpan(e0, e1);
      sp.start as real < sp.xEnd ==>
        && ZAt(sp, sp.start as real) == Left(e0, e1).z
        && UAt(sp, sp.start as real) == Clamp01(e0.u) && VAt(sp, sp.start as real) == Clamp01(e0.v)
  {
    var l, r := Left(e0, e1), Right(e0, e1);
    PrologueEnds(l.x, l.z, Clamp01(e0.u), Clamp01(e0.v), r.x, r.z, Clamp01(e1.u), Clamp01(e1.v));
  }

  /**
   * Inside the span the depth stays between the endpoint depths and the
   * texture coordinates stay in [0, 1].
   */
  lemma InterpolationInRange(e0: Endpoint, e1: Endpoint, x: real)
    requires NormalizeSpan(e0, e1).start as real <= x <= NormalizeSpan(e0, e1).xEnd
    ensures var sp := NormalizeSpan(e0, e1);
      var z, zl, zr := ZAt(sp, x), Left(e0, e1).z, Right(e0, e1).z;
      && (zl <= zr ==> zl <= z <= zr) && (zr <= zl ==> zr <= z <= zl)
      && 0.0 <= UAt(sp, x) <= 1.0 && 0.0 <= VAt(sp, x) <= 1.0
  {
    var l, r := Left(e0, e1), Right(e0, e1);
    PrologueBetween(l.x, l.z, Clamp01(e0.u), Clamp01(e0.v), r.x, r.z, Clamp01(e1.u), Clamp01(e1.v), x);
  }

  /** `newz_f >= 65535 ? 65535 : newz_f < 0 ? 0 : newz_f`. */
  function ClampDepth(z: real): (c: real)
    ensures 0.0 <= c <= 65535.0
    ensures 0.0 <= z <= 65535.0 ==> c == z
    ensures 65535.0 < z ==> c == 65535.0
    ensures z < 0.0 ==> c == 0.0
  {
    if z >= 65535.0 then 65535.0 else if z < 0.0 then 0.0 else z
  }

  /** The 16-bit depth of column x: the clamped interpolated depth rounded to nearest. */
  function DepthAt(sp: SpanParams, x: int): (d: u16)
    ensures d as real - 0.5 <= ClampDepth(ZAt(sp, x as real)) <= d as real + 0.5
  {
    var c := ClampDepth(ZAt(sp, x as real));
    LRoundWithin(c, 65535);
    LRound(c)
  }

  /** For an integer column, `x <= x1` on reals is `x <= floor(x1)`. */
  lemma ColumnBound(x: int, r: real)
    ensures x as real <= r <==> x <= r.Floor
  {
  }

  /** Column x is on screen, on a row that is on screen, and between the span's first column and its right end. */
  predicate Covered(row: int, sp: SpanParams, x: int) {
    0 <= row < SCREEN_HEIGHT && 0 <= x < SCREEN_WIDTH && sp.start <= x <= sp.xEnd.Floor
  }

  /**
   * The texel index `newv * width + newu` of column x (main.c:553-565),
   * with each coordinate rounded from [0, 1] scaled to [0, size - 1].
   */
  function TexelIndex(e0: Endpoint, e1: Endpoint, tex: Texture, x: int): (i: int)
    requires ValidTexture(tex)
    requires NormalizeSpan(e0, e1).start <= x <= NormalizeSpan(e0, e1).xEnd.Floor
    ensures 0 <= i < |tex.data|
  {
    var sp := NormalizeSpan(e0, e1);
    CoordsInUnit(e0, e1, x);
    var nu := TexCoord(UAt(sp, x as real), tex.width);
    var nv := TexCoord(VAt(sp, x as real), tex.height);
    RowMajorInBounds(nv, nu, tex.height, tex.width);
    nv * tex.width + nu
  }

  /** At every column of the span both texture coordinates lie in [0, 1]. */
  lemma CoordsInUnit(e0: Endpoint, e1: Endpoint, x: int)
    requires NormalizeSpan(e0, e1).start <= x <= NormalizeSpan(e0, e1).xEnd.Floor
    ensures 0.0 <= UAt(NormalizeSpan(e0, e1), x as real) <= 1.0
    ensures 0.0 <= VAt(NormalizeSpan(e0, e1), x as real) <= 1.0
  {
    ColumnBound(x, NormalizeSpan(e0, e1).xEnd);
    InterpolationInRange(e0, e1, x as real);
  }

  /** `lround(c * (size - 1))` for a coordinate c in [0, 1]: an index in [0, size - 1]. */
  function TexCoord(c: real, size: int): (n: int)
    requires 0.0 <= c <= 1.0 && 1 <= size
    ensures 0 <= n < size
  {
    ScaleDown(c, (size - 1) as real);
    LRoundWithin(c * (size - 1) as real, size - 1);
    LRound(c * (size - 1) as real)
  }

  lemma RowMajorInBounds(r: int, c: int, h: int, w: int)
    requires 0 <= r < h && 0 <= c < w
    ensures 0 <= r * w + c < w * h
  {
    assert r * w <= (h - 1) * w;
    assert (h - 1) * w + w == w * h;
  }

  /** A colour as the renderer's draw calls take it. */
  datatype Rgb = Rgb(r: u8, g: u8, b: u8)

  /**
   * The channels of a packed texel: `(t & 0xFF0000) >> 16`, `(t & 0xFF00) >> 8`
   * and `t & 0xFF`, which for an unsigned 32-bit value are these quotients
   * and remainders.
   */
  function Channels(texel: u32): Rgb {
    Rgb((texel / 0x1_0000) % 0x100, (texel / 0x100) % 0x100, texel % 0x100)
  }

  /** Unpacking inverts 0xRRGGBB packing. */
  lemma ChannelsOfPacked(r: u8, g: u8, b: u8)
    ensures Channels(r * 0x1_0000 + g * 0x100 + b) == Rgb(r, g, b)
  {
    var t := r * 0x1_0000 + g * 0x100 + b;
    assert t / 0x100 == r * 0x100 + g;
    assert t / 0x1_0000 == r;
  }

  /** A point drawn with `SDL_RenderDrawPoint` in the colour set just before it. */
  datatype Pixel = Pixel(x: int, y: int, color: Rgb)

  /** Column x of the span passes the depth test against `buf` (main.c:542-550). */
  predicate Lit(buf: seq<u16>, row: int, e0: Endpoint, e1: Endpoint, x: int)
    requires |buf| == SCREEN_PIXELS
  {
    var sp := NormalizeSpan(e0, e1);
    Covered(row, sp, x) && DepthAt(sp, x) < buf[row * SCREEN_WIDTH + x]
  }

  /** Entry i of the buffer lies on screen row `row`. */
  predicate InRow(row: int, i: int) {
    row * SCREEN_WIDTH <= i < row * SCREEN_WIDTH + SCREEN_WIDTH
  }

  /** The buffer once the columns of the span left of `limit` have been visited. */
  function SpanBufferUpTo(buf: seq<u16>, row: int, e0: Endpoint, e1: Endpoint, limit: int): (r: seq<u16>)
    requires |buf| == SCREEN_PIXELS
    ensures |r| == |buf|
  {
    seq(|buf|, i requires 0 <= i < |buf| =>
      var x := i - row * SCREEN_WIDTH;
      if InRow(row, i) && x < limit && Lit(buf, row, e0, e1, x) then DepthAt(NormalizeSpan(e0, e1), x) else buf[i])
  }

  /** The buffer after draw_scanline(row, e0, e1): every column of the span takes its depth where that is nearer. */
  function SpanBuffer(buf: seq<u16>, row: int, e0: Endpoint, e1: Endpoint): (r: seq<u16>)
    requires |buf| == SCREEN_PIXELS
    ensures |r| == |buf|
  {
    SpanBufferUpTo(buf, row, e0, e1, NormalizeSpan(e0, e1).xEnd.Floor + 1)
  }

  /** On a row off the screen draw_scanline returns at once: the buffer is untouched. */
  lemma SpanOffScreen(buf: seq<u16>, row: int, e0: Endpoint, e1: Endpoint)
    requires |buf| == SCREEN_PIXELS && (row >= SCREEN_HEIGHT || row < 0)
    ensures SpanBuffer(buf, row, e0, e1) == buf
  {
  }

  /** Before the first column nothing has changed. */
  lemma SpanBufferNone(buf: seq<u16>, row: int, e0: Endpoint, e1: Endpoint)
    requires |buf| == SCREEN_PIXELS
    ensures SpanBufferUpTo(buf, row, e0, e1, NormalizeSpan(e0, e1).start) == buf
  {
  }

  /**
   * One step of the column loop: column x still holds its old depth, and
   * visiting it writes that entry alone, and only if it is lit.
   */
  lemma SpanBufferStep(buf: seq<u16>, row: int, e0: Endpoint, e1: Endpoint, x: int)
    requires |buf| == SCREEN_PIXELS && 0 <= row < SCREEN_HEIGHT
    ensures 0 <= x < SCREEN_WIDTH ==>
      SpanBufferUpTo(buf, row, e0, e1, x)[row * SCREEN_WIDTH + x] == buf[row * SCREEN_WIDTH + x]
    ensures 0 <= x < SCREEN_WIDTH && Lit(buf, row, e0, e1, x) ==>
      SpanBufferUpTo(buf, row, e0, e1, x + 1)
      == SpanBufferUpTo(buf, row, e0, e1, x)[row * SCREEN_WIDTH + x := DepthAt(NormalizeSpan(e0, e1), x)]
    ensures !(0 <= x < SCREEN_WIDTH && Lit(buf, row, e0, e1, x)) ==>
      SpanBufferUpTo(buf, row, e0, e1, x + 1) == SpanBufferUpTo(buf, row, e0, e1, x)
  {
    var before, after := SpanBufferUpTo(buf, row, e0, e1, x), SpanBufferUpTo(buf, row, e0, e1, x + 1);
    forall i | 0 <= i < |buf| && i != row * SCREEN_WIDTH + x
      ensures after[i] == before[i]
    {
    }
  }

  /** The point column x emits, if it passes the depth test, in its texel's colour. */
  function PixelAt(buf: seq<u16>, row: int, e0: Endpoint, e1: Endpoint, tex: Texture, x: int): seq<Pixel>
    requires |buf| == SCREEN_PIXELS && ValidTexture(tex)
    requires NormalizeSpan(e0, e1).start <= x <= NormalizeSpan(e0, e1).xEnd.Floor
  {
    if Lit(buf, row, e0, e1, x) then [Pixel(x, row, Channels(tex.data[TexelIndex(e0, e1, tex, x)]))] else []
  }

  /** The points emitted for the columns of the span left of `limit`, left to right. */
  function PixelsUpTo(buf: seq<u16>, row: int, e0: Endpoint, e1: Endpoint, tex: Texture, limit: int): seq<Pixel>
    requires |buf| == SCREEN_PIXELS && ValidTexture(tex)
    requires limit <= NormalizeSpan(e0, e1).xEnd.Floor + 1
    decreases limit - NormalizeSpan(e0, e1).start
  {
    if limit <= NormalizeSpan(e0, e1).start then []
    else PixelsUpTo(buf, row, e0, e1, tex, limit - 1) + PixelAt(buf, row, e0, e1, tex, limit - 1)
  }

  /** The points draw_scanline(row, e0, e1) emits; none for a row off the screen. */
  function SpanPixels(buf: seq<u16>, row: int, e0: Endpoint, e1: Endpoint, tex: Texture): seq<Pixel>
    requires |buf| == SCREEN_PIXELS && ValidTexture(tex)
  {
    if row >= SCREEN_HEIGHT || row < 0 then []
    else PixelsUpTo(buf, row, e0, e1, tex, NormalizeSpan(e0, e1).xEnd.Floor + 1)
  }

  /**
   * The values the column loop computes at column x, in terms of the
   * span: its rounded depth, and texture coordinates in [0, 1] whose
   * scaled roundings give the texel index.
   */
  lemma ColumnValues(e0: Endpoint, e1: Endpoint, tex: Texture, x: int,
                     start: int, xEnd: real, z1: real, mz: real, u1: real, mu: real, v1: real, mv: real)
    requires ValidTexture(tex)
    requires NormalizeSpan(e0, e1) == SpanParams(start, xEnd, z1, mz, u1, mu, v1, mv)
    requires start <= x <= xEnd.Floor
    ensures DepthAt(NormalizeSpan(e0, e1), x) == LRound(ClampDepth(mz * (x as real - xEnd) + z1))
    ensures 0.0 <= mu * (x as real - xEnd) + u1 <= 1.0 && 0.0 <= mv * (x as real - xEnd) + v1 <= 1.0
    ensures TexelIndex(e0, e1, tex, x)
         == TexCoord(mv * (x as real - xEnd) + v1, tex.height) * tex.width + TexCoord(mu * (x as real - xEnd) + u1, tex.width)
  {
    var sp := NormalizeSpan(e0, e1);
    CoordsInUnit(e0, e1, x);
    assert ZAt(sp, x as real) == mz * (x as real - xEnd) + z1;
    assert UAt(sp, x as real) == mu * (x as real - xEnd) + u1;
    assert VAt(sp, x as real) == mv * (x as real - xEnd) + v1;
  }

  /**
   * One column of the loop: the depth test reads the entry as it was
   * before the call, and a lit column lowers that entry and emits one
   * point, while any other column changes nothing.
   */
  lemma ColumnStep(buf: seq<u16>, row: int, e0: Endpoint, e1: Endpoint, tex: Texture, x: int)
    requires |buf| == SCREEN_PIXELS && ValidTexture(tex) && 0 <= row < SCREEN_HEIGHT
    requires NormalizeSpan(e0, e1).start <= x <= NormalizeSpan(e0, e1).xEnd.Floor
    ensures var before, i := SpanBufferUpTo(buf, row, e0, e1, x), row * SCREEN_WIDTH + x;
      0 <= x < SCREEN_WIDTH ==> (Lit(buf, row, e0, e1, x) <==> DepthAt(NormalizeSpan(e0, e1), x) < before[i])
    ensures var before, i := SpanBufferUpTo(buf, row, e0, e1, x), row * SCREEN_WIDTH + x;
      Lit(buf, row, e0, e1, x) ==>
        && 0 <= x < SCREEN_WIDTH
        && SpanBufferUpTo(buf, row, e0, e1, x + 1) == before[i := DepthAt(NormalizeSpan(e0, e1), x)]
        && PixelsUpTo(buf, row, e0, e1, tex, x + 1)
           == PixelsUpTo(buf, row, e0, e1, tex, x) + [Pixel(x, row, Channels(tex.data[TexelIndex(e0, e1, tex, x)]))]
    ensures !Lit(buf, row, e0, e1, x) ==>
      && SpanBufferUpTo(buf, row, e0, e1, x + 1) == SpanBufferUpTo(buf, row, e0, e1, x)
      && PixelsUpTo(buf, row, e0, e1, tex, x + 1) == PixelsUpTo(buf, row, e0, e1, tex, x)
  {
    SpanBufferStep(buf, row, e0, e1, x);
  }

  /**
   * The depth test keeps the nearer value: the buffer never grows, and it
   * changes only on the span's own row, at a covered column, to that
   * column's depth.
   */
  lemma SpanOnlyLowers(buf: seq<u16>, row: int, e0: Endpoint, e1: Endpoint)
    requires |buf| == SCREEN_PIXELS
    ensures var r := SpanBuffer(buf, row, e0, e1);
      forall i | 0 <= i < |buf| :: r[i] <= buf[i]
    ensures var r := SpanBuffer(buf, row, e0, e1);
      forall i | 0 <= i < |buf| && r[i] != buf[i] ::
        InRow(row, i) && Covered(row, NormalizeSpan(e0, e1), i - row * SCREEN_WIDTH)
        && r[i] == DepthAt(NormalizeSpan(e0, e1), i - row * SCREEN_WIDTH)
  {
  }

  /**
   * Every covered column ends at the nearer of its old depth and the
   * span's depth there, whatever was in the buffer.
   */
  lemma SpanTakesMinimum(buf: seq<u16>, row: int, e0: Endpoint, e1: Endpoint, x: int)
    requires |buf| == SCREEN_PIXELS && Covered(row, NormalizeSpan(e0, e1), x)
    ensures var i, d := row * SCREEN_WIDTH + x, DepthAt(NormalizeSpan(e0, e1), x);
      SpanBuffer(buf, row, e0, e1)[i] == if d < buf[i] then d else buf[i]
  {
  }

  /** Drawing a span a second time changes nothing. */
  lemma SpanIdempotent(buf: seq<u16>, row: int, e0: Endpoint, e1: Endpoint)
    requires |buf| == SCREEN_PIXELS
    ensures SpanBuffer(SpanBuffer(buf, row, e0, e1), row, e0, e1) == SpanBuffer(buf, row, e0, e1)
  {
    var r := SpanBuffer(buf, row, e0, e1);
    var r2 := SpanBuffer(r, row, e0, e1);
    forall i | 0 <= i < |buf|
      ensures r2[i] == r[i]
    {
    }
  }

  /** The depth buffer does not depend on the order two spans are drawn in. */
  lemma SpansCommute(buf: seq<u16>, row: int, e0: Endpoint, e1: Endpoint, row': int, e0': Endpoint, e1': Endpoint)
    requires |buf| == SCREEN_PIXELS
    ensures SpanBuffer(SpanBuffer(buf, row, e0, e1), row', e0', e1')
         == SpanBuffer(SpanBuffer(buf, row', e0', e1'), row, e0, e1)
  {
    var a := SpanBuffer(SpanBuffer(buf, row, e0, e1), row', e0', e1');
    var b := SpanBuffer(SpanBuffer(buf, row', e0', e1'), row, e0, e1);
    forall i | 0 <= i < |buf|
      ensures a[i] == b[i]
    {
    }
  }

  /** Column x emits one point, on the span's row and at column x, exactly when it passes the depth test. */
  lemma PixelAtShape(buf: seq<u16>, row: int, e0: Endpoint, e1: Endpoint, tex: Texture, x: int)
    requires |buf| == SCREEN_PIXELS && ValidTexture(tex)
    requires NormalizeSpan(e0, e1).start <= x <= NormalizeSpan(e0, e1).xEnd.Floor
    ensures var p := PixelAt(buf, row, e0, e1, tex, x);
      && (Lit(buf, row, e0, e1, x) ==> |p| == 1 && p[0].x == x && p[0].y == row)
      && (!Lit(buf, row, e0, e1, x) ==> p == [])
  {
  }

  /** The points lie on row `row`, left of `limit`, in strictly increasing column order. */
  predicate OrderedOnRow(px: seq<Pixel>, row: int, limit: int) {
    && (forall k | 0 <= k < |px| :: px[k].y == row && px[k].x < limit)
    && (forall k, k' | 0 <= k < k' < |px| :: px[k].x < px[k'].x)
  }

  /** Appending a point at column limit - 1 (or nothing) to points left of it keeps them ordered. */
  lemma AppendOrdered(prev: seq<Pixel>, last: seq<Pixel>, row: int, limit: int)
    requires OrderedOnRow(prev, row, limit - 1)
    requires last == [] || (|last| == 1 && last[0].x == limit - 1 && last[0].y == row)
    ensures OrderedOnRow(prev + last, row, limit)
  {
    var px := prev + last;
    forall k, k' | 0 <= k < k' < |px|
      ensures px[k].x < px[k'].x
    {
      assert px[k] == prev[k];
      if k' < |prev| { assert px[k'] == prev[k']; } else { assert px[k'] == last[0]; }
    }
    forall k | 0 <= k < |px|
      ensures px[k].y == row && px[k].x < limit
    {
      if k < |prev| { assert px[k] == prev[k]; } else { assert px[k] == last[0]; }
    }
  }

  /** The emitted points are on the span's row, one per column at most, left to right. */
  lemma {:induction false} PixelsOrdered(buf: seq<u16>, row: int, e0: Endpoint, e1: Endpoint, tex: Texture, limit: int)
    requires |buf| == SCREEN_PIXELS && ValidTexture(tex)
    requires limit <= NormalizeSpan(e0, e1).xEnd.Floor + 1
    ensures OrderedOnRow(PixelsUpTo(buf, row, e0, e1, tex, limit), row, limit)
    decreases limit - NormalizeSpan(e0, e1).start
  {
    if limit > NormalizeSpan(e0, e1).start {
      PixelsOrdered(buf, row, e0, e1, tex, limit - 1);
      PixelAtShape(buf, row, e0, e1, tex, limit - 1);
      AppendOrdered(PixelsUpTo(buf, row, e0, e1, tex, limit - 1), PixelAt(buf, row, e0, e1, tex, limit - 1), row, limit);
    }
  }

  /** Every point of `px` is at a column of the span that passes the depth test. */
  predicate AllLit(buf: seq<u16>, row: int, e0: Endpoint, e1: Endpoint, px: seq<Pixel>)
    requires |buf| == SCREEN_PIXELS
  {
    forall k | 0 <= k < |px| :: Lit(buf, row, e0, e1, px[k].x)
  }

  lemma AppendAllLit(buf: seq<u16>, row: int, e0: Endpoint, e1: Endpoint, prev: seq<Pixel>, last: seq<Pixel>)
    requires |buf| == SCREEN_PIXELS && AllLit(buf, row, e0, e1, prev)
    requires last == [] || (|last| == 1 && Lit(buf, row, e0, e1, last[0].x))
    ensures AllLit(buf, row, e0, e1, prev + last)
  {
    var px := prev + last;
    forall k | 0 <= k < |px|
      ensures Lit(buf, row, e0, e1, px[k].x)
    {
      if k < |prev| { assert px[k] == prev[k]; } else { assert px[k] == last[0]; }
    }
  }

  /** Every emitted point is a column that passes the depth test. */
  lemma {:induction false} PixelsLit(buf: seq<u16>, row: int, e0: Endpoint, e1: Endpoint, tex: Texture, limit: int)
    requires |buf| == SCREEN_PIXELS && ValidTexture(tex)
    requires limit <= NormalizeSpan(e0, e1).xEnd.Floor + 1
    ensures AllLit(buf, row, e0, e1, PixelsUpTo(buf, row, e0, e1, tex, limit))
    decreases limit - NormalizeSpan(e0, e1).start
  {
    if limit > NormalizeSpan(e0, e1).start {
      PixelsLit(buf, row, e0, e1, tex, limit - 1);
      PixelAtShape(buf, row, e0, e1, tex, limit - 1);
      AppendAllLit(buf, row, e0, e1, PixelsUpTo(buf, row, e0, e1, tex, limit - 1), PixelAt(buf, row, e0, e1, tex, limit - 1));
    }
  }

  /** Every column left of `limit` that passes the depth test has a point in `px`. */
  ghost predicate CoversLit(buf: seq<u16>, row: int, e0: Endpoint, e1: Endpoint, px: seq<Pixel>, limit: int)
    requires |buf| == SCREEN_PIXELS
  {
    forall x | x < limit && Lit(buf, row, e0, e1, x) :: exists k | 0 <= k < |px| :: px[k].x == x
  }

  lemma AppendCoversLit(buf: seq<u16>, row: int, e0: Endpoint, e1: Endpoint, prev: seq<Pixel>, last: seq<Pixel>, limit: int)
    requires |buf| == SCREEN_PIXELS && CoversLit(buf, row, e0, e1, prev, limit - 1)
    requires Lit(buf, row, e0, e1, limit - 1) ==> |last| == 1 && last[0].x == limit - 1
    ensures CoversLit(buf, row, e0, e1, prev + last, limit)
  {
    var px := prev + last;
    forall x | x < limit && Lit(buf, row, e0, e1, x)
      ensures exists k | 0 <= k < |px| :: px[k].x == x
    {
      if x == limit - 1 {
        assert px[|prev|] == last[0];
      } else {
        var k :| 0 <= k < |prev| && prev[k].x == x;
        assert px[k] == prev[k];
      }
    }
  }

  /** Every column left of `limit` that passes the depth test emits a point. */
  lemma {:induction false} PixelsCoverLit(buf: seq<u16>, row: int, e0: Endpoint, e1: Endpoint, tex: Texture, limit: int)
    requires |buf| == SCREEN_PIXELS && ValidTexture(tex)
    requires limit <= NormalizeSpan(e0, e1).xEnd.Floor + 1
    ensures CoversLit(buf, row, e0, e1, PixelsUpTo(buf, row, e0, e1, tex, limit), limit)
    decreases limit - NormalizeSpan(e0, e1).start
  {
    var sp := NormalizeSpan(e0, e1);
    if limit > sp.start {
      PixelsCoverLit(buf, row, e0, e1, tex, limit - 1);
      PixelAtShape(buf, row, e0, e1, tex, limit - 1);
      AppendCoversLit(buf, row, e0, e1, PixelsUpTo(buf, row, e0, e1, tex, limit - 1), PixelAt(buf, row, e0, e1, tex, limit - 1), limit);
    } else {
      assert forall x | x < limit :: !Covered(row, sp, x);
    }
  }

  /** A column that passes the depth test is on screen and is lowered by the span. */
  lemma LitLowered(buf: seq<u16>, row: int, e0: Endpoint, e1: Endpoint, x: int)
    requires |buf| == SCREEN_PIXELS && Lit(buf, row, e0, e1, x)
    ensures 0 <= x < SCREEN_WIDTH
    ensures SpanBuffer(buf, row, e0, e1)[row * SCREEN_WIDTH + x] < buf[row * SCREEN_WIDTH + x]
  {
    SpanTakesMinimum(buf, row, e0, e1, x);
  }

  /** An entry the span lowers is a column of its row that passes the depth test. */
  lemma LoweredLit(buf: seq<u16>, row: int, e0: Endpoint, e1: Endpoint, i: int)
    requires |buf| == SCREEN_PIXELS && 0 <= i < |buf|
    requires SpanBuffer(buf, row, e0, e1)[i] < buf[i]
    ensures InRow(row, i) && Lit(buf, row, e0, e1, i - row * SCREEN_WIDTH)
    ensures i - row * SCREEN_WIDTH < NormalizeSpan(e0, e1).xEnd.Floor + 1
  {
  }

  /** Every point a span on screen emits is a column it lowers. */
  lemma PixelsLowered(buf: seq<u16>, row: int, e0: Endpoint, e1: Endpoint, tex: Texture)
    requires |buf| == SCREEN_PIXELS && ValidTexture(tex) && 0 <= row < SCREEN_HEIGHT
    ensures var px, r := SpanPixels(buf, row, e0, e1, tex), SpanBuffer(buf, row, e0, e1);
      forall k | 0 <= k < |px| ::
        px[k].y == row && 0 <= px[k].x < SCREEN_WIDTH
        && r[row * SCREEN_WIDTH + px[k].x] < buf[row * SCREEN_WIDTH + px[k].x]
  {
    var limit := NormalizeSpan(e0, e1).xEnd.Floor + 1;
    var px := PixelsUpTo(buf, row, e0, e1, tex, limit);
    PixelsOrdered(buf, row, e0, e1, tex, limit);
    PixelsLit(buf, row, e0, e1, tex, limit);
    forall k | 0 <= k < |px|
      ensures px[k].y == row && 0 <= px[k].x < SCREEN_WIDTH
      ensures SpanBuffer(buf, row, e0, e1)[row * SCREEN_WIDTH + px[k].x] < buf[row * SCREEN_WIDTH + px[k].x]
    {
      LitLowered(buf, row, e0, e1, px[k].x);
    }
  }

  /** An entry the span lowers has a point in any sequence that covers the lit columns. */
  lemma LoweredHasPixel(buf: seq<u16>, row: int, e0: Endpoint, e1: Endpoint, px: seq<Pixel>, i: int)
    requires |buf| == SCREEN_PIXELS && 0 <= i < |buf|
    requires CoversLit(buf, row, e0, e1, px, NormalizeSpan(e0, e1).xEnd.Floor + 1)
    requires SpanBuffer(buf, row, e0, e1)[i] < buf[i]
    ensures exists k | 0 <= k < |px| :: row * SCREEN_WIDTH + px[k].x == i
  {
    LoweredLit(buf, row, e0, e1, i);
    var x := i - row * SCREEN_WIDTH;
    assert x < NormalizeSpan(e0, e1).xEnd.Floor + 1 && Lit(buf, row, e0, e1, x);
    var k :| 0 <= k < |px| && px[k].x == x;
    assert row * SCREEN_WIDTH + px[k].x == i;
  }

  /** Every entry a span on screen lowers has a point among those it emits. */
  lemma LoweredHavePixels(buf: seq<u16>, row: int, e0: Endpoint, e1: Endpoint, tex: Texture)
    requires |buf| == SCREEN_PIXELS && ValidTexture(tex) && 0 <= row < SCREEN_HEIGHT
    ensures var px, r := SpanPixels(buf, row, e0, e1, tex), SpanBuffer(buf, row, e0, e1);
      forall i | 0 <= i < |buf| && r[i] < buf[i] :: exists k | 0 <= k < |px| :: row * SCREEN_WIDTH + px[k].x == i
  {
    var limit := NormalizeSpan(e0, e1).xEnd.Floor + 1;
    var px := SpanPixels(buf, row, e0, e1, tex);
    assert px == PixelsUpTo(buf, row, e0, e1, tex, limit);
    PixelsCoverLit(buf, row, e0, e1, tex, limit);
    forall i | 0 <= i < |buf| && SpanBuffer(buf, row, e0, e1)[i] < buf[i]
      ensures exists k | 0 <= k < |px| :: row * SCREEN_WIDTH + px[k].x == i
    {
      LoweredHasPixel(buf, row, e0, e1, px, i);
    }
  }

  /** The points of a whole span are the columns its depth test lowers. */
  lemma SpanPixelsAreLowered(buf: seq<u16>, row: int, e0: Endpoint, e1: Endpoint, tex: Texture)
    requires |buf| == SCREEN_PIXELS && ValidTexture(tex)
    ensures var px, r := SpanPixels(buf, row, e0, e1, tex), SpanBuffer(buf, row, e0, e1);
      && (forall k | 0 <= k < |px| ::
            px[k].y == row && 0 <= px[k].x < SCREEN_WIDTH
            && r[row * SCREEN_WIDTH + px[k].x] < buf[row * SCREEN_WIDTH + px[k].x])
      && (forall k, k' | 0 <= k < k' < |px| :: px[k].x < px[k'].x)
      && (forall i | 0 <= i < |buf| && r[i] < buf[i] ::
            exists k | 0 <= k < |px| :: row * SCREEN_WIDTH + px[k].x == i)
  {
    if 0 <= row < SCREEN_HEIGHT {
      PixelsOrdered(buf, row, e0, e1, tex, NormalizeSpan(e0, e1).xEnd.Floor + 1);
      PixelsLowered(buf, row, e0, e1, tex);
      LoweredHavePixels(buf, row, e0, e1, tex);
    } else {
      SpanOffScreen(buf, row, e0, e1);
    }
  }
}
