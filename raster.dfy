/**
 * The front half of draw_triangle (main.c:637-731): the three
 * compare-swaps that order the projected vertices by screen y, and the
 * closed-form edge interpolation that gives the two span endpoints of
 * every row.
 */
module Raster {
  import opened Numerics
  import opened Geometry

  /** `d ? n / d : 0`, the guarded slopes of draw_triangle and draw_scanline. */
  function Ratio(n: real, d: real): (r: real)
    ensures d == 0.0 ==> r == 0.0
    ensures d != 0.0 ==> r * d == n
  {
    if d == 0.0 then 0.0 else n / d
  }

  /** (f, s, t) is an ordering of the slots 0, 1, 2. */
  predicate IsOrdering(f: int, s: int, t: int) {
    0 <= f < 3 && 0 <= s < 3 && 0 <= t < 3 && f != s && s != t && f != t
  }

  /** The order the three compare-swaps leave: ascending y, ties in slot order. */
  predicate SortedByY(p: seq<ScreenPoint>, f: int, s: int, t: int)
    requires |p| == 3 && IsOrdering(f, s, t)
  {
    && p[f].y <= p[s].y <= p[t].y
    && (p[f].y == p[s].y ==> f < s)
    && (p[s].y == p[t].y ==> s < t)
    && (p[f].y == p[t].y ==> f < t)
  }

  /**
   * The vertex sort of main.c:642-657: three compare-swaps of the index
   * variables (f, s), (s, t), (f, s) with a strict `>`, so tied vertices
   * keep their order.
   */
  function SortByY(p: seq<ScreenPoint>): (o: (int, int, int))
    requires |p| == 3
    ensures IsOrdering(o.0, o.1, o.2) && SortedByY(p, o.0, o.1, o.2)
  {
    var (f1, s1) := if p[0].y > p[1].y then (1, 0) else (0, 1);
    var (s2, t2) := if p[s1].y > p[2].y then (2, s1) else (s1, 2);
    var (f3, s3) := if p[f1].y > p[s2].y then (s2, f1) else (f1, s2);
    (f3, s3, t2)
  }

  /** The orderings SortedByY admits are exactly one: the sort has a unique answer. */
  lemma SortedByYUnique(p: seq<ScreenPoint>, f: int, s: int, t: int, f': int, s': int, t': int)
    requires |p| == 3 && IsOrdering(f, s, t) && IsOrdering(f', s', t')
    requires SortedByY(p, f, s, t) && SortedByY(p, f', s', t')
    ensures f == f' && s == s' && t == t'
  {
  }

  /** The interpolated attributes of one span endpoint. */
  datatype Endpoint = Endpoint(x: real, z: real, u: real, v: real)

  function Attrs(p: ScreenPoint): Endpoint {
    Endpoint(p.x as real, p.z as real, p.u, p.v)
  }

  /** The value m k + a reached k rows along a line of slope m from a. */
  function Along(m: real, k: real, a: real): real {
    m * k + a
  }

  /**
   * The edge from `a` to `b` at screen row `row`: every attribute is
   * m (row - a.y) + a.attr with m = d_attr / dy, and m = 0 when dy = 0.
   */
  function EdgeAt(a: ScreenPoint, b: ScreenPoint, row: int): Endpoint {
    var dy := (b.y - a.y) as real;
    var k := (row - a.y) as real;
    Endpoint(Along(Ratio((b.x - a.x) as real, dy), k, a.x as real),
             Along(Ratio((b.z - a.z) as real, dy), k, a.z as real),
             Along(Ratio(b.u - a.u, dy), k, a.u),
             Along(Ratio(b.v - a.v, dy), k, a.v))
  }

  /** The edge passes through its first vertex, and through its second unless the edge is horizontal. */
  lemma EdgeEnds(a: ScreenPoint, b: ScreenPoint)
    ensures EdgeAt(a, b, a.y) == Attrs(a)
    ensures a.y != b.y ==> EdgeAt(a, b, b.y) == Attrs(b)
  {
    var dy := (b.y - a.y) as real;
    if a.y != b.y {
      RatioEnd((b.x - a.x) as real, dy);
      RatioEnd((b.z - a.z) as real, dy);
      RatioEnd(b.u - a.u, dy);
      RatioEnd(b.v - a.v, dy);
    }
  }

  lemma RatioEnd(n: real, d: real)
    requires d != 0.0
    ensures Ratio(n, d) * d == n
  {
  }

  /** A horizontal edge has slope 0: every row gets the first vertex's attributes. */
  lemma HorizontalEdgeConstant(a: ScreenPoint, b: ScreenPoint, row: int)
    requires a.y == b.y
    ensures EdgeAt(a, b, row) == Attrs(a)
  {
  }

  /**
   * Between its two rows the edge's x stays between the two vertices' x:
   * a span endpoint never leaves the edge's horizontal extent.
   */
  lemma EdgeXBetween(a: ScreenPoint, b: ScreenPoint, row: int)
    requires a.y <= row <= b.y
    ensures var x := EdgeAt(a, b, row).x;
      (a.x <= b.x ==> a.x as real <= x <= b.x as real) && (b.x <= a.x ==> b.x as real <= x <= a.x as real)
  {
    var dy := (b.y - a.y) as real;
    var k := (row - a.y) as real;
    var d := (b.x - a.x) as real;
    var m := Ratio(d, dy);
    assert EdgeAt(a, b, row).x == m * k + a.x as real;
    if a.y < b.y {
      assert m == d / dy;
      var s := k / dy;
      QuotientInClosedUnit(k, dy);
      assert 0.0 <= s <= 1.0;
      CrossQuotient(d, k, dy);
      assert m * k == s * d;
      Between(a.x as real, d, s);
      assert 0.0 <= d ==> a.x as real <= a.x as real + s * d <= a.x as real + d;
      assert d <= 0.0 ==> a.x as real + d <= a.x as real + s * d <= a.x as real;
    }
  }

  /**
   * The two span endpoints of row `row` (main.c:712-724): the short edge
   * f -> s above the middle vertex and s -> t from its row on, then the
   * long edge f -> t. They are draw_scanline's (x0, z0, u0, v0) and
   * (x1, z1, u1, v1).
   */
  function RowEndpoints(p: seq<ScreenPoint>, f: int, s: int, t: int, row: int): (Endpoint, Endpoint)
    requires |p| == 3 && IsOrdering(f, s, t)
  {
    var short := if row < p[s].y then EdgeAt(p[f], p[s], row) else EdgeAt(p[s], p[t], row);
    (short, EdgeAt(p[f], p[t], row))
  }

  /**
   * The first row starts both endpoints at the top vertex, and the short
   * edge is continuous where it switches at the middle vertex's row.
   */
  lemma RowEndpointsJoin(p: seq<ScreenPoint>, f: int, s: int, t: int)
    requires |p| == 3 && IsOrdering(f, s, t) && SortedByY(p, f, s, t)
    ensures p[f].y < p[s].y ==> RowEndpoints(p, f, s, t, p[f].y) == (Attrs(p[f]), Attrs(p[f]))
    ensures p[f].y < p[s].y ==> EdgeAt(p[f], p[s], p[s].y) == RowEndpoints(p, f, s, t, p[s].y).0
    ensures RowEndpoints(p, f, s, t, p[s].y).0 == Attrs(p[s])
  {
    EdgeEnds(p[f], p[s]);
    EdgeEnds(p[s], p[t]);
    EdgeEnds(p[f], p[t]);
  }
}
