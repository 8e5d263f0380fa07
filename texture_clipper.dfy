/**
 * The 2-D prototype of the clipper in texture.c: render_clipped_triangles
 * (texture.c:34-186) and render_clipped_triangles_old (texture.c:188-330).
 *
 * The triangle is clipped against the line y = 0 (first pass, a vertex is
 * out when y < 0) and then y = 0.5 (second pass, out when y > 0.5). Unlike
 * clip_and_render, the pieces are passed on with their vertices in a fixed
 * positional order, whatever slot the outside vertex occupied. The methods
 * return, in order, the triangles that reach draw_triangle; both are proved
 * equal to `TwoPass`, the reference definition.
 */
module TextureClipper {
  import opened Numerics
  import opened ClipIndex

  /** texture.c's SCREEN_DEPTH: the y of the second clipping line. */
  const SECOND_PLANE: real := 0.5

  datatype Point = Point(x: real, y: real)

  /** Three points, as render_clipped_triangles receives them in p0, p1, p2. */
  type Tri2 = s: seq<Point> | |s| == 3 witness [Point(0.0, 0.0), Point(0.0, 0.0), Point(0.0, 0.0)]

  /** The first pass clips against y = 0, the second against y = 0.5. */
  datatype Pass = First | Second

  /** The value of `plane_y` during a pass. */
  function PlaneY(p: Pass): real {
    if p == First then 0.0 else SECOND_PLANE
  }

  /** The classification of texture.c:61-67. */
  predicate Outside(p: Pass, y: real) {
    if p == First then y < 0.0 else y > SECOND_PLANE
  }

  predicate Inside(p: Pass, t: Tri2) {
    forall i | 0 <= i < 3 :: !Outside(p, t[i].y)
  }

  function Mark(t: Tri2, p: Pass, i: int): bool
    requires 0 <= i < 3
  {
    Outside(p, t[i].y)
  }

  function Count(t: Tri2, p: Pass): int {
    CountMarked(Mark(t, p, 0), Mark(t, p, 1), Mark(t, p, 2))
  }

  /** How many of the first `n` vertices the classification loop has marked. */
  function PrefixCount(t: Tri2, p: Pass, n: int): int
    requires 0 <= n <= 3
  {
    if n == 0 then 0 else PrefixCount(t, p, n - 1) + (if Mark(t, p, n - 1) then 1 else 0)
  }

  lemma CountIsPrefix(t: Tri2, p: Pass)
    ensures Count(t, p) == PrefixCount(t, p, 3)
  {
    assert PrefixCount(t, p, 1) == (if Mark(t, p, 0) then 1 else 0);
    assert PrefixCount(t, p, 2) == PrefixCount(t, p, 1) + (if Mark(t, p, 1) then 1 else 0);
  }

  // ---- The two intersection formulas ----

  /**
   * texture.c:88-107: the x at which the edge from `f` to `o` meets
   * y = planeY, as `ndy / dy * dx + f.x`.
   */
  function CrossX(o: Point, f: Point, planeY: real): real
    requires o.y != f.y
  {
    var dx := o.x - f.x;
    var dy := o.y - f.y;
    var ndy := planeY - f.y;
    var scaleFactor := ndy / dy;
    scaleFactor * dx + f.x
  }

  /** texture.c:270 and texture.c:297: the same x measured from `o`, `o.x + dx (planeY - o.y) / dy`. */
  function CrossXOld(o: Point, f: Point, planeY: real): real
    requires o.y != f.y
  {
    o.x + ((o.x - f.x) * (planeY - o.y)) / (o.y - f.y)
  }

  /** The two formulas agree in exact arithmetic. */
  lemma CrossXOldAgrees(o: Point, f: Point, planeY: real)
    requires o.y != f.y
    ensures CrossXOld(o, f, planeY) == CrossX(o, f, planeY)
  {
    var dx, dy := o.x - f.x, o.y - f.y;
    var a := (planeY - f.y) / dy;
    var b := (dx * (planeY - o.y)) / dy;
    QuotientTimesDivisor(planeY - f.y, dy);
    QuotientTimesDivisor(dx * (planeY - o.y), dy);
    FormulasAgree(a, b, dx, dy, planeY - f.y, planeY - o.y);
    assert a * dx + f.x == o.x + b;
  }

  /** If a dy = n and b dy = dx m, with n - m = dy, then a dx = dx + b. */
  lemma FormulasAgree(a: real, b: real, dx: real, dy: real, n: real, m: real)
    requires dy != 0.0 && a * dy == n && b * dy == dx * m && n - m == dy
    ensures a * dx == dx + b
  {
    assert (a * dx - dx - b) * dy == dx * (a * dy) - dx * dy - b * dy;
    assert (a * dx - dx - b) * dy == 0.0;
    ProductSign(a * dx - dx - b, dy);
  }

  /** The point a fraction s of the way from `a` to `b`. */
  function Toward2(a: Point, b: Point, s: real): Point {
    Point(a.x + s * (b.x - a.x), a.y + s * (b.y - a.y))
  }

  /** The parameter at which the edge from `f` to `o` crosses y = planeY. */
  function CrossingParam(o: Point, f: Point, planeY: real): real
    requires o.y != f.y
  {
    (planeY - f.y) / (o.y - f.y)
  }

  /** `new_point[i]`: y set to the line, x from CrossX. */
  function CrossPoint(o: Point, f: Point, planeY: real): (np: Point)
    requires o.y != f.y
    ensures np.y == planeY
    ensures np == Toward2(f, o, CrossingParam(o, f, planeY))
  {
    var s := CrossingParam(o, f, planeY);
    QuotientTimesDivisor(planeY - f.y, o.y - f.y);
    assert s * (o.y - f.y) == planeY - f.y;
    Point(CrossX(o, f, planeY), planeY)
  }

  /**
   * With `o` outside and `f` on the kept side, the divisor is non-zero and
   * the crossing lies in [0, 1) along the edge from `f`.
   */
  lemma CrossingBetween(p: Pass, o: Point, f: Point)
    requires Outside(p, o.y) && !Outside(p, f.y)
    ensures o.y != f.y
    ensures 0.0 <= CrossingParam(o, f, PlaneY(p)) < 1.0
  {
    QuotientInUnit(PlaneY(p) - f.y, o.y - f.y);
  }

  /** With `o` on the kept side and `f` outside, the crossing lies in (0, 1] along the edge from `f`. */
  lemma CrossingNotPast(p: Pass, o: Point, f: Point)
    requires !Outside(p, o.y) && Outside(p, f.y)
    ensures o.y != f.y
    ensures 0.0 < CrossingParam(o, f, PlaneY(p)) <= 1.0
  {
    QuotientInUnitUpper(PlaneY(p) - f.y, o.y - f.y);
  }

  // ---- One pass, and the reference definition ----

  function SelOne(t: Tri2, p: Pass): Selection {
    SelectOneOut(Mark(t, p, 0), Mark(t, p, 1), Mark(t, p, 2))
  }

  function SelTwo(t: Tri2, p: Pass): Selection {
    SelectTwoOut(Mark(t, p, 0), Mark(t, p, 1), Mark(t, p, 2))
  }

  lemma SelOneFacts(t: Tri2, p: Pass)
    requires Count(t, p) == 1
    ensures var sel := SelOne(t, p);
      && IsSplit(sel)
      && Outside(p, t[sel.original].y)
      && !Outside(p, t[sel.fixed0].y) && !Outside(p, t[sel.fixed1].y)
  {
  }

  lemma SelTwoFacts(t: Tri2, p: Pass)
    requires Count(t, p) == 2
    ensures var sel := SelTwo(t, p);
      && IsSplit(sel)
      && !Outside(p, t[sel.original].y)
      && Outside(p, t[sel.fixed0].y) && Outside(p, t[sel.fixed1].y)
  {
  }

  /**
   * `case 1:` (texture.c:78-122): the crossings np0 and np1 of the edges
   * from the two kept vertices to the outside one, and the triangles
   * (np0, a[f0], a[f1]) and (np1, np0, a[f1]).
   */
  function OneOut(t: Tri2, p: Pass): seq<Tri2>
    requires Count(t, p) == 1
  {
    SelOneFacts(t, p);
    var sel := SelOne(t, p);
    CrossingBetween(p, t[sel.original], t[sel.fixed0]);
    CrossingBetween(p, t[sel.original], t[sel.fixed1]);
    var np0 := CrossPoint(t[sel.original], t[sel.fixed0], PlaneY(p));
    var np1 := CrossPoint(t[sel.original], t[sel.fixed1], PlaneY(p));
    [[np0, t[sel.fixed0], t[sel.fixed1]], [np1, np0, t[sel.fixed1]]]
  }

  /** `case 2:` (texture.c:124-163): the triangle (np0, np1, a[original]). */
  function TwoOut(t: Tri2, p: Pass): Tri2
    requires Count(t, p) == 2
  {
    SelTwoFacts(t, p);
    var sel := SelTwo(t, p);
    CrossingNotPast(p, t[sel.original], t[sel.fixed0]);
    CrossingNotPast(p, t[sel.original], t[sel.fixed1]);
    var np0 := CrossPoint(t[sel.original], t[sel.fixed0], PlaneY(p));
    var np1 := CrossPoint(t[sel.original], t[sel.fixed1], PlaneY(p));
    [np0, np1, t[sel.original]]
  }

  /** One pass against one line: nothing, two pieces, one piece, or the triangle itself. */
  function ClipOnce(t: Tri2, p: Pass): (pieces: seq<Tri2>)
    ensures |pieces| <= 2
  {
    var count := Count(t, p);
    if count == 3 then []
    else if count == 1 then OneOut(t, p)
    else if count == 2 then [TwoOut(t, p)]
    else [t]
  }

  /** Three marked vertices give nothing, one gives two pieces, two give one, none leaves the triangle alone. */
  lemma ClipOnceCases(t: Tri2, p: Pass)
    ensures Count(t, p) == 0 ==> ClipOnce(t, p) == [t]
    ensures Count(t, p) == 1 ==> ClipOnce(t, p) == OneOut(t, p) && |ClipOnce(t, p)| == 2
    ensures Count(t, p) == 2 ==> ClipOnce(t, p) == [TwoOut(t, p)]
    ensures Count(t, p) == 3 ==> ClipOnce(t, p) == []
  {
  }

  /** The reference definition: the first pass, then a second pass over each piece. */
  function TwoPass(t: Tri2): seq<Tri2> {
    SecondPass(ClipOnce(t, First))
  }

  function SecondPass(ts: seq<Tri2>): seq<Tri2> {
    if ts == [] then [] else ClipOnce(ts[0], Second) + SecondPass(ts[1..])
  }

  function TwoPassAll(ts: seq<Tri2>): seq<Tri2> {
    if ts == [] then [] else TwoPass(ts[0]) + TwoPassAll(ts[1..])
  }

  /** Which pass still has work to do; every recursive call lowers it. */
  function Stage(t: Tri2): nat {
    if !Inside(First, t) then 2 else if !Inside(Second, t) then 1 else 0
  }

  /** Every vertex of every piece is on the kept side of the line, at its y or at one of the input's. */
  lemma PieceYs(t: Tri2, p: Pass)
    ensures forall q: Tri2, i | q in ClipOnce(t, p) && 0 <= i < 3 ::
      && !Outside(p, q[i].y)
      && (q[i].y == PlaneY(p) || q[i].y == t[0].y || q[i].y == t[1].y || q[i].y == t[2].y)
  {
    var count := Count(t, p);
    if count == 1 {
      SelOneFacts(t, p);
    } else if count == 2 {
      SelTwoFacts(t, p);
    }
  }

  lemma PiecesStayFirst(t: Tri2, p: Pass)
    requires p == First || Inside(First, t)
    ensures forall q | q in ClipOnce(t, p) :: Inside(p, q) && Inside(First, q)
  {
    PieceYs(t, p);
  }

  /** A triangle on the kept side of y = 0 goes through the first pass unchanged. */
  lemma FirstPassKeeps(t: Tri2)
    requires Inside(First, t)
    ensures ClipOnce(t, First) == [t]
    ensures TwoPass(t) == ClipOnce(t, Second)
  {
    assert Count(t, First) == 0;
    assert [t][1..] == [];
    assert SecondPass([t]) == ClipOnce(t, Second) + SecondPass([]);
  }

  lemma SecondPassIsTwoPassAll(ts: seq<Tri2>)
    requires forall q | q in ts :: TwoPass(q) == ClipOnce(q, Second)
    ensures SecondPass(ts) == TwoPassAll(ts)
  {
    if ts != [] {
      assert ts[0] in ts;
      SecondPassIsTwoPassAll(ts[1..]);
    }
  }

  lemma TwoPassAllPair(a: Tri2, b: Tri2)
    ensures TwoPassAll([a, b]) == TwoPass(a) + TwoPass(b)
  {
    assert [a, b][1..] == [b];
    assert [b][1..] == [];
    assert TwoPassAll([b]) == TwoPass(b) + TwoPassAll([]);
  }

  lemma TwoPassAllSingle(a: Tri2)
    ensures TwoPassAll([a]) == TwoPass(a)
  {
    assert [a][1..] == [];
  }

  /** Running both passes on each piece of one pass gives both passes of the whole. */
  lemma TwoPassRecurses(t: Tri2, p: Pass)
    requires p == First || Inside(First, t)
    ensures TwoPass(t) == TwoPassAll(ClipOnce(t, p))
  {
    var pieces := ClipOnce(t, p);
    PiecesStayFirst(t, p);
    forall q | q in pieces
      ensures TwoPass(q) == ClipOnce(q, Second)
    {
      FirstPassKeeps(q);
    }
    if p == First {
      SecondPassIsTwoPassAll(pieces);
    } else {
      FirstPassKeeps(t);
      forall q | q in pieces
        ensures TwoPass(q) == [q]
      {
        assert Count(q, Second) == 0;
      }
      if |pieces| == 2 {
        TwoPassAllPair(pieces[0], pieces[1]);
        assert pieces[0] in pieces && pieces[1] in pieces;
        assert pieces == [pieces[0], pieces[1]];
      } else if |pieces| == 1 {
        TwoPassAllSingle(pieces[0]);
        assert pieces[0] in pieces;
        assert pieces == [pieces[0]];
      }
    }
  }

  /** A triangle between the two lines is drawn once, unchanged. */
  lemma TwoPassKeeps(t: Tri2)
    requires Inside(First, t) && Inside(Second, t)
    ensures TwoPass(t) == [t]
  {
    FirstPassKeeps(t);
    assert Count(t, Second) == 0;
  }

  /** A triangle wholly below y = 0, or wholly above y = 0.5, is not drawn at all. */
  lemma TwoPassDiscards(t: Tri2)
    requires (forall i | 0 <= i < 3 :: t[i].y < 0.0) || (forall i | 0 <= i < 3 :: t[i].y > SECOND_PLANE)
    ensures TwoPass(t) == []
  {
    if forall i | 0 <= i < 3 :: t[i].y < 0.0 {
      assert Mark(t, First, 0) && Mark(t, First, 1) && Mark(t, First, 2);
    } else {
      FirstPassKeeps(t);
      assert Mark(t, Second, 0) && Mark(t, Second, 1) && Mark(t, Second, 2);
    }
  }

  lemma SecondPassInside(ts: seq<Tri2>)
    requires forall q | q in ts :: Inside(First, q)
    ensures forall d | d in SecondPass(ts) :: Inside(First, d) && Inside(Second, d)
  {
    if ts != [] {
      assert ts[0] in ts;
      PiecesStayFirst(ts[0], Second);
      SecondPassInside(ts[1..]);
    }
  }

  /** Every vertex of every triangle that reaches draw_triangle has y in [0, 0.5]. */
  lemma TwoPassYRange(t: Tri2)
    ensures forall d: Tri2, i | d in TwoPass(t) && 0 <= i < 3 :: 0.0 <= d[i].y <= SECOND_PLANE
  {
    PiecesStayFirst(t, First);
    SecondPassInside(ClipOnce(t, First));
  }

  lemma SecondPassLength(ts: seq<Tri2>)
    ensures |SecondPass(ts)| <= 2 * |ts|
  {
    if ts != [] {
      SecondPassLength(ts[1..]);
    }
  }

  /** One input triangle reaches draw_triangle at most four times. */
  lemma TwoPassAtMostFour(t: Tri2)
    ensures |TwoPass(t)| <= 4
  {
    SecondPassLength(ClipOnce(t, First));
  }

  /**
   * What the one-out branch needs: its two triangles are the pass's
   * pieces, need one pass less, and together make up TwoPass.
   */
  lemma OneOutStep(t: Tri2, p: Pass, sel: Selection, np0: Point, np1: Point)
    requires p == First || Inside(First, t)
    requires Count(t, p) == 1 && sel == SelOne(t, p) && IsSplit(sel)
    requires t[sel.original].y != t[sel.fixed0].y && t[sel.original].y != t[sel.fixed1].y
    requires np0 == CrossPoint(t[sel.original], t[sel.fixed0], PlaneY(p))
    requires np1 == CrossPoint(t[sel.original], t[sel.fixed1], PlaneY(p))
    ensures Stage([np0, t[sel.fixed0], t[sel.fixed1]]) < Stage(t) && Stage([np1, np0, t[sel.fixed1]]) < Stage(t)
    ensures TwoPass(t) == TwoPass([np0, t[sel.fixed0], t[sel.fixed1]]) + TwoPass([np1, np0, t[sel.fixed1]])
  {
    var piece0: Tri2, piece1: Tri2 := [np0, t[sel.fixed0], t[sel.fixed1]], [np1, np0, t[sel.fixed1]];
    assert [piece0, piece1] == OneOut(t, p);
    ClipOnceCases(t, p);
    PiecesStayFirst(t, p);
    assert piece0 in ClipOnce(t, p) && piece1 in ClipOnce(t, p);
    TwoPassRecurses(t, p);
    TwoPassAllPair(piece0, piece1);
  }

  /** What the two-out branch needs. */
  lemma TwoOutStep(t: Tri2, p: Pass, sel: Selection, np0: Point, np1: Point)
    requires p == First || Inside(First, t)
    requires Count(t, p) == 2 && sel == SelTwo(t, p) && IsSplit(sel)
    requires t[sel.original].y != t[sel.fixed0].y && t[sel.original].y != t[sel.fixed1].y
    requires np0 == CrossPoint(t[sel.original], t[sel.fixed0], PlaneY(p))
    requires np1 == CrossPoint(t[sel.original], t[sel.fixed1], PlaneY(p))
    ensures Stage([np0, np1, t[sel.original]]) < Stage(t)
    ensures TwoPass(t) == TwoPass([np0, np1, t[sel.original]])
  {
    var piece: Tri2 := [np0, np1, t[sel.original]];
    assert piece == TwoOut(t, p);
    ClipOnceCases(t, p);
    PiecesStayFirst(t, p);
    assert piece in ClipOnce(t, p);
    TwoPassRecurses(t, p);
    TwoPassAllSingle(piece);
  }

  // ---- Winding ----

  /** Twice the signed area of (a, b, c); its sign is the winding, clockwise or counter-clockwise. */
  function Area(a: Point, b: Point, c: Point): real {
    (b.x - a.x) * (c.y - a.y) - (c.x - a.x) * (b.y - a.y)
  }

  /** An area scaled by the factor k. */
  function ScaleArea(k: real, a: real): real {
    k * a
  }

  function TriArea(t: Tri2): real {
    Area(t[0], t[1], t[2])
  }

  /** (np0, f0, f1), with np0 a fraction s0 of the way from f0 to o, has s0 times the area of (o, f0, f1). */
  lemma AreaFixedPiece(o: Point, f0: Point, f1: Point, s0: real, np0: Point)
    requires np0 == Toward2(f0, o, s0)
    ensures Area(np0, f0, f1) == ScaleArea(s0, Area(o, f0, f1))
  {
  }

  /** (np1, np0, f1), both new points slid from their fixed vertex toward o, has s1 (1 - s0) times the area of (o, f0, f1). */
  lemma AreaSharedPiece(o: Point, f0: Point, f1: Point, s0: real, s1: real, np0: Point, np1: Point)
    requires np0 == Toward2(f0, o, s0) && np1 == Toward2(f1, o, s1)
    ensures Area(np1, np0, f1) == ScaleArea(s1, ScaleArea(1.0 - s0, Area(o, f0, f1)))
  {
  }

  /** (np0, np1, o) has (1 - s1) (1 - s0) times the area of (o, f0, f1). */
  lemma AreaKeptPiece(o: Point, f0: Point, f1: Point, s0: real, s1: real, np0: Point, np1: Point)
    requires np0 == Toward2(f0, o, s0) && np1 == Toward2(f1, o, s1)
    ensures Area(np0, np1, o) == ScaleArea(1.0 - s1, ScaleArea(1.0 - s0, Area(o, f0, f1)))
  {
  }

  /**
   * Listing the vertices as (original, fixed[0], fixed[1]) keeps the
   * input's winding when original is slot 0 or 2 and reverses it when
   * original is slot 1.
   */
  lemma SplitArea(t: Tri2, sel: Selection)
    requires IsSplit(sel)
    ensures Area(t[sel.original], t[sel.fixed0], t[sel.fixed1]) == (if sel.original == 1 then -TriArea(t) else TriArea(t))
  {
    SplitCoversSlots(sel, 0);
  }

  /** The selection of the pass that splits the triangle. */
  function SplitSel(t: Tri2, p: Pass): Selection
    requires Count(t, p) == 1 || Count(t, p) == 2
  {
    if Count(t, p) == 1 then SelOne(t, p) else SelTwo(t, p)
  }

  /** The crossing parameters of the two cut edges, measured from fixed[0] and fixed[1]. */
  function SplitParams(t: Tri2, p: Pass): (s: (real, real))
    requires Count(t, p) == 1 || Count(t, p) == 2
    ensures Count(t, p) == 1 ==> 0.0 <= s.0 < 1.0 && 0.0 <= s.1 < 1.0
    ensures Count(t, p) == 2 ==> 0.0 < s.0 <= 1.0 && 0.0 < s.1 <= 1.0
  {
    var sel := SplitSel(t, p);
    if Count(t, p) == 1 then
      SelOneFacts(t, p);
      CrossingBetween(p, t[sel.original], t[sel.fixed0]);
      CrossingBetween(p, t[sel.original], t[sel.fixed1]);
      (CrossingParam(t[sel.original], t[sel.fixed0], PlaneY(p)), CrossingParam(t[sel.original], t[sel.fixed1], PlaneY(p)))
    else
      SelTwoFacts(t, p);
      CrossingNotPast(p, t[sel.original], t[sel.fixed0]);
      CrossingNotPast(p, t[sel.original], t[sel.fixed1]);
      (CrossingParam(t[sel.original], t[sel.fixed0], PlaneY(p)), CrossingParam(t[sel.original], t[sel.fixed1], PlaneY(p)))
  }

  /** The first one-out piece for vertices o, f0, f1 and crossing parameter s0, and its exact area. */
  lemma FixedPieceArea(o: Point, f0: Point, f1: Point, s0: real, piece: Tri2)
    requires piece == [Toward2(f0, o, s0), f0, f1]
    ensures TriArea(piece) == ScaleArea(s0, Area(o, f0, f1))
  {
    AreaFixedPiece(o, f0, f1, s0, Toward2(f0, o, s0));
  }

  /** The second one-out piece for vertices o, f0, f1 and crossing parameters s0, s1, and its exact area. */
  lemma SharedPieceArea(o: Point, f0: Point, f1: Point, s0: real, s1: real, piece: Tri2)
    requires piece == [Toward2(f1, o, s1), Toward2(f0, o, s0), f1]
    ensures TriArea(piece) == ScaleArea(s1, ScaleArea(1.0 - s0, Area(o, f0, f1)))
  {
    AreaSharedPiece(o, f0, f1, s0, s1, Toward2(f0, o, s0), Toward2(f1, o, s1));
  }

  /** The exact area of the first one-out piece, relative to (original, fixed[0], fixed[1]). */
  lemma OneOutFirstArea(t: Tri2, p: Pass)
    requires Count(t, p) == 1
    ensures var sel, s := SelOne(t, p), SplitParams(t, p);
      TriArea(OneOut(t, p)[0]) == ScaleArea(s.0, Area(t[sel.original], t[sel.fixed0], t[sel.fixed1]))
  {
    SelOneFacts(t, p);
    var sel, s := SelOne(t, p), SplitParams(t, p);
    var o, f0, f1 := t[sel.original], t[sel.fixed0], t[sel.fixed1];
    assert CrossPoint(o, f0, PlaneY(p)) == Toward2(f0, o, s.0);
    assert CrossPoint(o, f1, PlaneY(p)) == Toward2(f1, o, s.1);
    FixedPieceArea(o, f0, f1, s.0, OneOut(t, p)[0]);
  }

  /** The exact area of the second one-out piece, relative to (original, fixed[0], fixed[1]). */
  lemma OneOutSecondArea(t: Tri2, p: Pass)
    requires Count(t, p) == 1
    ensures var sel, s := SelOne(t, p), SplitParams(t, p);
      TriArea(OneOut(t, p)[1]) == ScaleArea(s.1, ScaleArea(1.0 - s.0, Area(t[sel.original], t[sel.fixed0], t[sel.fixed1])))
  {
    SelOneFacts(t, p);
    var sel, s := SelOne(t, p), SplitParams(t, p);
    var o, f0, f1 := t[sel.original], t[sel.fixed0], t[sel.fixed1];
    assert CrossPoint(o, f0, PlaneY(p)) == Toward2(f0, o, s.0);
    assert CrossPoint(o, f1, PlaneY(p)) == Toward2(f1, o, s.1);
    SharedPieceArea(o, f0, f1, s.0, s.1, OneOut(t, p)[1]);
  }

  /** The two-out piece for vertices o, f0, f1 and crossing parameters s0, s1, and its exact area. */
  lemma TwoOutPieceArea(o: Point, f0: Point, f1: Point, s0: real, s1: real, piece: Tri2)
    requires piece == [Toward2(f0, o, s0), Toward2(f1, o, s1), o]
    ensures TriArea(piece) == ScaleArea(1.0 - s1, ScaleArea(1.0 - s0, Area(o, f0, f1)))
  {
    AreaKeptPiece(o, f0, f1, s0, s1, Toward2(f0, o, s0), Toward2(f1, o, s1));
  }

  /** The exact area of the two-out piece, relative to (original, fixed[0], fixed[1]). */
  lemma TwoOutArea(t: Tri2, p: Pass)
    requires Count(t, p) == 2
    ensures var sel, s := SelTwo(t, p), SplitParams(t, p);
      TriArea(TwoOut(t, p)) == ScaleArea(1.0 - s.1, ScaleArea(1.0 - s.0, Area(t[sel.original], t[sel.fixed0], t[sel.fixed1])))
  {
    SelTwoFacts(t, p);
    var sel, s := SelTwo(t, p), SplitParams(t, p);
    var o, f0, f1 := t[sel.original], t[sel.fixed0], t[sel.fixed1];
    assert CrossPoint(o, f0, PlaneY(p)) == Toward2(f0, o, s.0);
    assert CrossPoint(o, f1, PlaneY(p)) == Toward2(f1, o, s.1);
    TwoOutPieceArea(o, f0, f1, s.0, s.1, TwoOut(t, p));
  }

  /** The pass splits the triangle with `original` in slot 1, and so lists the pieces with the opposite winding. */
  predicate Reverses(t: Tri2, p: Pass) {
    (Count(t, p) == 1 || Count(t, p) == 2) && SplitSel(t, p).original == 1
  }

  /** The winding rule for one piece: `flip` says whether it winds against the input. */
  predicate WindsAs(q: Tri2, t: Tri2, flip: bool) {
    if flip then TriArea(q) * TriArea(t) <= 0.0 else 0.0 <= TriArea(q) * TriArea(t)
  }

  /** A value k >= 0 times +/- `area` has the sign that choice gives, or is 0. */
  lemma ScaledSign(q: real, k: real, a: real, area: real, flip: bool)
    requires q == ScaleArea(k, a) && 0.0 <= k && a == (if flip then -area else area)
    ensures flip ==> q * area <= 0.0
    ensures !flip ==> 0.0 <= q * area
  {
    var sq := area * area;
    assert 0.0 <= sq by {
      ProductSign(area, area);
    }
    ProductNonneg(k, sq);
    assert q * area == k * (a * area);
    if flip {
      assert a * area == -sq;
      NegateProduct(k, sq);
    }
  }

  /** The same for a value k2 (k1 a) with both factors non-negative. */
  lemma ScaledTwiceSign(q: real, k1: real, k2: real, a: real, area: real, flip: bool)
    requires q == ScaleArea(k2, ScaleArea(k1, a)) && 0.0 <= k1 && 0.0 <= k2 && a == (if flip then -area else area)
    ensures flip ==> q * area <= 0.0
    ensures !flip ==> 0.0 <= q * area
  {
    ProductNonneg(k2, k1);
    assert q == ScaleArea(k2 * k1, a);
    ScaledSign(q, k2 * k1, a, area, flip);
  }

  /** Two pieces with areas s0 a and s1 (1 - s0) a, where a is +/- the input's area. */
  lemma PairWinding(pieces: seq<Tri2>, t: Tri2, s0: real, s1: real, a: real, flip: bool)
    requires |pieces| == 2 && 0.0 <= s0 < 1.0 && 0.0 <= s1
    requires TriArea(pieces[0]) == ScaleArea(s0, a) && TriArea(pieces[1]) == ScaleArea(s1, ScaleArea(1.0 - s0, a))
    requires a == (if flip then -TriArea(t) else TriArea(t))
    ensures forall q | q in pieces :: WindsAs(q, t, flip)
  {
    ScaledSign(TriArea(pieces[0]), s0, a, TriArea(t), flip);
    ScaledTwiceSign(TriArea(pieces[1]), 1.0 - s0, s1, a, TriArea(t), flip);
    assert pieces == [pieces[0], pieces[1]];
  }

  /** Both one-out pieces wind as the input does, the other way when `original` is slot 1. */
  lemma OneOutWinding(t: Tri2, p: Pass)
    requires Count(t, p) == 1
    ensures forall q | q in OneOut(t, p) :: WindsAs(q, t, SelOne(t, p).original == 1)
  {
    SelOneFacts(t, p);
    var sel, s := SelOne(t, p), SplitParams(t, p);
    SplitArea(t, sel);
    OneOutFirstArea(t, p);
    OneOutSecondArea(t, p);
    PairWinding(OneOut(t, p), t, s.0, s.1, Area(t[sel.original], t[sel.fixed0], t[sel.fixed1]), sel.original == 1);
  }

  /** A piece with area (1 - s1) (1 - s0) a, where a is +/- the input's area. */
  lemma SingleWinding(q: Tri2, t: Tri2, s0: real, s1: real, a: real, flip: bool)
    requires s0 <= 1.0 && s1 <= 1.0
    requires TriArea(q) == ScaleArea(1.0 - s1, ScaleArea(1.0 - s0, a))
    requires a == (if flip then -TriArea(t) else TriArea(t))
    ensures WindsAs(q, t, flip)
  {
    ScaledTwiceSign(TriArea(q), 1.0 - s0, 1.0 - s1, a, TriArea(t), flip);
  }

  /** The two-out piece winds as the input does, the other way when `original` is slot 1. */
  lemma TwoOutWinding(t: Tri2, p: Pass)
    requires Count(t, p) == 2
    ensures WindsAs(TwoOut(t, p), t, SelTwo(t, p).original == 1)
  {
    SelTwoFacts(t, p);
    var sel, s := SelTwo(t, p), SplitParams(t, p);
    SplitArea(t, sel);
    TwoOutArea(t, p);
    SingleWinding(TwoOut(t, p), t, s.0, s.1, Area(t[sel.original], t[sel.fixed0], t[sel.fixed1]), sel.original == 1);
  }

  /**
   * The winding of texture.c's pieces: each piece of a pass winds the
   * same way as the input, or is degenerate, except when the split has
   * `original` in slot 1, where each winds the opposite way or is
   * degenerate. The comment "maintaining the CW or CCW ordering" holds
   * for slots 0 and 2 only.
   */
  lemma ClipOnceWinding(t: Tri2, p: Pass)
    ensures forall q | q in ClipOnce(t, p) :: WindsAs(q, t, Reverses(t, p))
  {
    var count := Count(t, p);
    if count == 0 {
      assert ClipOnce(t, p) == [t];
      ProductSign(TriArea(t), TriArea(t));
      assert WindsAs(t, t, false);
    } else if count == 1 {
      OneOutWinding(t, p);
    } else if count == 2 {
      TwoOutWinding(t, p);
    }
  }

  /** The strict winding rule: the piece winds against the input when `flip`, with it otherwise. */
  predicate StrictlyWindsAs(q: Tri2, t: Tri2, flip: bool) {
    if flip then TriArea(q) * TriArea(t) < 0.0 else 0.0 < TriArea(q) * TriArea(t)
  }

  /** A value k > 0 times +/- a non-zero `area` has exactly the sign that choice gives. */
  lemma StrictScaledSign(q: real, k: real, a: real, area: real, flip: bool)
    requires q == ScaleArea(k, a) && 0.0 < k && area != 0.0 && a == (if flip then -area else area)
    ensures flip ==> q * area < 0.0
    ensures !flip ==> 0.0 < q * area
  {
    var sq := area * area;
    assert 0.0 < sq by {
      ProductSign(area, area);
    }
    ProductSign(k, sq);
    assert q * area == k * (a * area);
    if flip {
      assert a * area == -sq;
      NegateProduct(k, sq);
    }
  }

  lemma StrictScaledTwiceSign(q: real, k1: real, k2: real, a: real, area: real, flip: bool)
    requires q == ScaleArea(k2, ScaleArea(k1, a)) && 0.0 < k1 && 0.0 < k2 && area != 0.0
    requires a == (if flip then -area else area)
    ensures flip ==> q * area < 0.0
    ensures !flip ==> 0.0 < q * area
  {
    ProductSign(k2, k1);
    assert q == ScaleArea(k2 * k1, a);
    StrictScaledSign(q, k2 * k1, a, area, flip);
  }

  /** A crossing is at neither end of its edge when neither endpoint lies on the line. */
  lemma CrossingStrict(o: Point, f: Point, planeY: real)
    requires o.y != f.y && o.y != planeY && f.y != planeY
    ensures CrossingParam(o, f, planeY) != 0.0 && CrossingParam(o, f, planeY) != 1.0
  {
    var q := CrossingParam(o, f, planeY);
    QuotientTimesDivisor(planeY - f.y, o.y - f.y);
    assert q * (o.y - f.y) == planeY - f.y;
  }

  /** With no vertex on the line, the crossing parameters are strictly inside (0, 1). */
  lemma SplitParamsStrict(t: Tri2, p: Pass)
    requires Count(t, p) == 1 || Count(t, p) == 2
    requires forall i | 0 <= i < 3 :: t[i].y != PlaneY(p)
    ensures 0.0 < SplitParams(t, p).0 < 1.0 && 0.0 < SplitParams(t, p).1 < 1.0
  {
    var sel := SplitSel(t, p);
    if Count(t, p) == 1 {
      SelOneFacts(t, p);
    } else {
      SelTwoFacts(t, p);
    }
    CrossingStrict(t[sel.original], t[sel.fixed0], PlaneY(p));
    CrossingStrict(t[sel.original], t[sel.fixed1], PlaneY(p));
  }

  lemma OneOutWindingStrict(t: Tri2, p: Pass)
    requires Count(t, p) == 1 && TriArea(t) != 0.0
    requires forall i | 0 <= i < 3 :: t[i].y != PlaneY(p)
    ensures forall q | q in OneOut(t, p) :: StrictlyWindsAs(q, t, SelOne(t, p).original == 1)
  {
    SelOneFacts(t, p);
    var sel, s := SelOne(t, p), SplitParams(t, p);
    var a := Area(t[sel.original], t[sel.fixed0], t[sel.fixed1]);
    SplitArea(t, sel);
    SplitParamsStrict(t, p);
    OneOutFirstArea(t, p);
    OneOutSecondArea(t, p);
    var pieces := OneOut(t, p);
    StrictScaledSign(TriArea(pieces[0]), s.0, a, TriArea(t), sel.original == 1);
    StrictScaledTwiceSign(TriArea(pieces[1]), 1.0 - s.0, s.1, a, TriArea(t), sel.original == 1);
    assert pieces == [pieces[0], pieces[1]];
  }

  lemma TwoOutWindingStrict(t: Tri2, p: Pass)
    requires Count(t, p) == 2 && TriArea(t) != 0.0
    requires forall i | 0 <= i < 3 :: t[i].y != PlaneY(p)
    ensures StrictlyWindsAs(TwoOut(t, p), t, SelTwo(t, p).original == 1)
  {
    SelTwoFacts(t, p);
    var sel, s := SelTwo(t, p), SplitParams(t, p);
    SplitArea(t, sel);
    SplitParamsStrict(t, p);
    TwoOutArea(t, p);
    StrictScaledTwiceSign(TriArea(TwoOut(t, p)), 1.0 - s.0, 1.0 - s.1,
      Area(t[sel.original], t[sel.fixed0], t[sel.fixed1]), TriArea(t), sel.original == 1);
  }

  /**
   * With a non-degenerate input and no vertex on the line, the winding is
   * decided exactly: every piece winds the input's way unless the split has
   * `original` in slot 1, and then every piece winds the other way.
   */
  lemma ClipOnceWindingStrict(t: Tri2, p: Pass)
    requires TriArea(t) != 0.0
    requires forall i | 0 <= i < 3 :: t[i].y != PlaneY(p)
    ensures forall q | q in ClipOnce(t, p) :: StrictlyWindsAs(q, t, Reverses(t, p))
  {
    var count := Count(t, p);
    if count == 0 {
      assert ClipOnce(t, p) == [t];
      ProductSign(TriArea(t), TriArea(t));
      assert StrictlyWindsAs(t, t, false);
    } else if count == 1 {
      OneOutWindingStrict(t, p);
    } else if count == 2 {
      TwoOutWindingStrict(t, p);
    }
  }

  /**
   * A counter-clockwise triangle that comes out wound the other way: slot 1 is below y = 0,
   * and both pieces reach draw_triangle with negative area although the
   * input's is positive.
   */
  lemma WindingReversedExample(t: Tri2)
    requires t == [Point(0.0, 0.25), Point(0.5, -0.25), Point(1.0, 0.25)]
    ensures TriArea(t) == 0.5
    ensures |TwoPass(t)| == 2
    ensures TriArea(TwoPass(t)[0]) == -0.25 && TriArea(TwoPass(t)[1]) == -0.125
  {
    var piece0: Tri2 := [Point(0.25, 0.0), Point(0.0, 0.25), Point(1.0, 0.25)];
    var piece1: Tri2 := [Point(0.75, 0.0), Point(0.25, 0.0), Point(1.0, 0.25)];
    ExampleFirstPass(t, piece0, piece1);
    ExamplePiecesKept(piece0, piece1);
    TwoPassRecurses(t, First);
    assert TwoPass(t) == [piece0, piece1];
  }

  /** The example's pieces wind clockwise, lie between the two lines and are drawn as they are. */
  lemma ExamplePiecesKept(piece0: Tri2, piece1: Tri2)
    requires piece0 == [Point(0.25, 0.0), Point(0.0, 0.25), Point(1.0, 0.25)]
    requires piece1 == [Point(0.75, 0.0), Point(0.25, 0.0), Point(1.0, 0.25)]
    ensures TriArea(piece0) == -0.25 && TriArea(piece1) == -0.125
    ensures TwoPassAll([piece0, piece1]) == [piece0, piece1]
  {
    TwoPassKeeps(piece0);
    TwoPassKeeps(piece1);
    TwoPassAllPair(piece0, piece1);
  }

  /** The first pass of the example: slot 1 is cut off, at x = 0.25 and x = 0.75. */
  lemma ExampleFirstPass(t: Tri2, piece0: Tri2, piece1: Tri2)
    requires t == [Point(0.0, 0.25), Point(0.5, -0.25), Point(1.0, 0.25)]
    requires piece0 == [Point(0.25, 0.0), Point(0.0, 0.25), Point(1.0, 0.25)]
    requires piece1 == [Point(0.75, 0.0), Point(0.25, 0.0), Point(1.0, 0.25)]
    ensures ClipOnce(t, First) == [piece0, piece1]
  {
    assert Count(t, First) == 1;
    assert SelOne(t, First) == Selection(1, 0, 2);
    assert CrossingParam(t[1], t[0], 0.0) == 0.5;
    assert CrossingParam(t[1], t[2], 0.0) == 0.5;
    assert CrossPoint(t[1], t[0], 0.0) == Point(0.25, 0.0);
    assert CrossPoint(t[1], t[2], 0.0) == Point(0.75, 0.0);
  }

  // ---- The loops ----

  /**
   * The classification loop of texture.c:61-67: vertices outside the
   * current line are marked and counted. Marks are only ever set, never
   * cleared, so a mark left by the first pass would survive into the
   * second.
   */
  method MarkVertices(t: Tri2, onSecondIteration: bool, planeY: real, pointMarked: array<bool>)
      returns (count: int)
    requires pointMarked.Length == 3
    requires planeY == PlaneY(if onSecondIteration then Second else First)
    modifies pointMarked
    ensures var p := if onSecondIteration then Second else First;
      && count == Count(t, p)
      && forall j | 0 <= j < 3 :: pointMarked[j] == (old(pointMarked[j]) || Mark(t, p, j))
  {
    ghost var p := if onSecondIteration then Second else First;
    count := 0;
    for i := 0 to 3
      invariant count == PrefixCount(t, p, i)
      invariant forall j | 0 <= j < i :: pointMarked[j] == (old(pointMarked[j]) || Mark(t, p, j))
      invariant forall j | i <= j < 3 :: pointMarked[j] == old(pointMarked[j])
    {
      if (onSecondIteration && t[i].y > planeY) || (!onSecondIteration && t[i].y < planeY) {
        pointMarked[i] := true;
        count := count + 1;
      }
    }
    CountIsPrefix(t, p);
  }

  /** The intersection loop of texture.c:85-108 and texture.c:131-154. */
  method IntersectEdges(t: Tri2, sel: Selection, planeY: real, newPoint: array<Point>)
    requires newPoint.Length == 2 && IsSplit(sel)
    requires t[sel.original].y != t[sel.fixed0].y && t[sel.original].y != t[sel.fixed1].y
    modifies newPoint
    ensures newPoint[0] == CrossPoint(t[sel.original], t[sel.fixed0], planeY)
    ensures newPoint[1] == CrossPoint(t[sel.original], t[sel.fixed1], planeY)
  {
    var fixed := [sel.fixed0, sel.fixed1];
    for i := 0 to 2
      invariant forall j | 0 <= j < i :: newPoint[j] == CrossPoint(t[sel.original], t[fixed[j]], planeY)
    {
      newPoint[i] := CrossPoint(t[sel.original], t[fixed[i]], planeY);
    }
  }

  /** The intersection loop of render_clipped_triangles_old (texture.c:267-271 and texture.c:294-298). */
  method IntersectEdgesOld(t: Tri2, sel: Selection, planeY: real, newPoint: array<Point>)
    requires newPoint.Length == 2 && IsSplit(sel)
    requires t[sel.original].y != t[sel.fixed0].y && t[sel.original].y != t[sel.fixed1].y
    modifies newPoint
    ensures newPoint[0] == CrossPoint(t[sel.original], t[sel.fixed0], planeY)
    ensures newPoint[1] == CrossPoint(t[sel.original], t[sel.fixed1], planeY)
  {
    var fixed := [sel.fixed0, sel.fixed1];
    for i := 0 to 2
      invariant forall j | 0 <= j < i :: newPoint[j] == CrossPoint(t[sel.original], t[fixed[j]], planeY)
    {
      CrossXOldAgrees(t[sel.original], t[fixed[i]], planeY);
      newPoint[i] := Point(CrossXOld(t[sel.original], t[fixed[i]], planeY), planeY);
    }
  }

  /**
   * render_clipped_triangles (texture.c:34-186): the two-pass loop and
   * the classification; the split cases and their recursive calls are in
   * `RenderSplit`. `drawn` lists, in order, the triangles that reach
   * draw_triangle; they are exactly those of the reference definition.
   */
  method RenderClippedTriangles(p0: Point, p1: Point, p2: Point) returns (drawn: seq<Tri2>)
    ensures drawn == TwoPass([p0, p1, p2])
    decreases Stage([p0, p1, p2]), 1
  {
    var onSecondIteration := false;
    var planeY := 0.0;
    var pointMarked := new bool[3] [false, false, false];
    var newPoint := new Point[2];
    var apoint: Tri2 := [p0, p1, p2];
    while true
      invariant planeY == PlaneY(if onSecondIteration then Second else First)
      invariant onSecondIteration ==> Inside(First, apoint)
      invariant forall j | 0 <= j < 3 :: !pointMarked[j]
      decreases !onSecondIteration
    {
      ghost var p := if onSecondIteration then Second else First;
      var count := MarkVertices(apoint, onSecondIteration, planeY, pointMarked);
      if count == 3 {
        ClipOnceCases(apoint, p);
        if onSecondIteration {
          FirstPassKeeps(apoint);
        }
        return [];
      } else if count == 1 || count == 2 {
        assert pointMarked[..] == [Mark(apoint, p, 0), Mark(apoint, p, 1), Mark(apoint, p, 2)];
        drawn := RenderSplit(apoint, p, count, planeY, pointMarked, newPoint);
        return drawn;
      }
      if onSecondIteration {
        break;
      }
      onSecondIteration := true;
      planeY := SECOND_PLANE;
    }
    ClipOnceCases(apoint, First);
    FirstPassKeeps(apoint);
    ClipOnceCases(apoint, Second);
    drawn := [apoint];
  }

  /**
   * `case 1:` and `case 2:` (texture.c:78-163): pick the vertices,
   * intersect the two edges and pass the new triangles back through
   * render_clipped_triangles. The branch for fixed[0] > fixed[1] cannot
   * be taken: the selection always puts the smaller slot first.
   */
  method RenderSplit(t: Tri2, ghost p: Pass, count: int, planeY: real, pointMarked: array<bool>, newPoint: array<Point>)
      returns (drawn: seq<Tri2>)
    requires p == First || Inside(First, t)
    requires count == Count(t, p) && (count == 1 || count == 2) && planeY == PlaneY(p)
    requires pointMarked[..] == [Mark(t, p, 0), Mark(t, p, 1), Mark(t, p, 2)]
    requires newPoint.Length == 2
    modifies newPoint
    ensures drawn == TwoPass(t)
    decreases Stage(t), 0
  {
    if count == 1 {
      SelOneFacts(t, p);
      var sel := SelectOneOut(pointMarked[0], pointMarked[1], pointMarked[2]);
      CrossingBetween(p, t[sel.original], t[sel.fixed0]);
      CrossingBetween(p, t[sel.original], t[sel.fixed1]);
      IntersectEdges(t, sel, planeY, newPoint);
      if sel.fixed0 < sel.fixed1 {
        OneOutStep(t, p, sel, newPoint[0], newPoint[1]);
        var drawn0 := RenderClippedTriangles(newPoint[0], t[sel.fixed0], t[sel.fixed1]);
        var drawn1 := RenderClippedTriangles(newPoint[1], newPoint[0], t[sel.fixed1]);
        drawn := drawn0 + drawn1;
      } else {
        assert false;
      }
    } else {
      SelTwoFacts(t, p);
      var sel := SelectTwoOut(pointMarked[0], pointMarked[1], pointMarked[2]);
      CrossingNotPast(p, t[sel.original], t[sel.fixed0]);
      CrossingNotPast(p, t[sel.original], t[sel.fixed1]);
      IntersectEdges(t, sel, planeY, newPoint);
      if sel.fixed0 < sel.fixed1 {
        TwoOutStep(t, p, sel, newPoint[0], newPoint[1]);
        drawn := RenderClippedTriangles(newPoint[0], newPoint[1], t[sel.original]);
      } else {
        assert false;
      }
    }
  }

  /**
   * render_clipped_triangles_old (texture.c:188-330): the same loop with
   * the older intersection formula; its pieces go to the new function,
   * not back to itself. It draws exactly what the new function draws.
   */
  method RenderClippedTrianglesOld(p0: Point, p1: Point, p2: Point) returns (drawn: seq<Tri2>)
    ensures drawn == TwoPass([p0, p1, p2])
  {
    var onSecondIteration := false;
    var planeY := 0.0;
    var pointMarked := new bool[3] [false, false, false];
    var newPoint := new Point[2];
    var apoint: Tri2 := [p0, p1, p2];
    while true
      invariant planeY == PlaneY(if onSecondIteration then Second else First)
      invariant onSecondIteration ==> Inside(First, apoint)
      invariant forall j | 0 <= j < 3 :: !pointMarked[j]
      decreases !onSecondIteration
    {
      ghost var p := if onSecondIteration then Second else First;
      var count := MarkVertices(apoint, onSecondIteration, planeY, pointMarked);
      if count == 3 {
        ClipOnceCases(apoint, p);
        if onSecondIteration {
          FirstPassKeeps(apoint);
        }
        return [];
      } else if count == 1 || count == 2 {
        assert pointMarked[..] == [Mark(apoint, p, 0), Mark(apoint, p, 1), Mark(apoint, p, 2)];
        drawn := RenderSplitOld(apoint, p, count, planeY, pointMarked, newPoint);
        return drawn;
      }
      if onSecondIteration {
        break;
      }
      onSecondIteration := true;
      planeY := SECOND_PLANE;
    }
    ClipOnceCases(apoint, First);
    FirstPassKeeps(apoint);
    ClipOnceCases(apoint, Second);
    drawn := [apoint];
  }

  /** `case 1:` and `case 2:` of render_clipped_triangles_old (texture.c:260-307). */
  method RenderSplitOld(t: Tri2, ghost p: Pass, count: int, planeY: real, pointMarked: array<bool>, newPoint: array<Point>)
      returns (drawn: seq<Tri2>)
    requires p == First || Inside(First, t)
    requires count == Count(t, p) && (count == 1 || count == 2) && planeY == PlaneY(p)
    requires pointMarked[..] == [Mark(t, p, 0), Mark(t, p, 1), Mark(t, p, 2)]
    requires newPoint.Length == 2
    modifies newPoint
    ensures drawn == TwoPass(t)
  {
    if count == 1 {
      SelOneFacts(t, p);
      var sel := SelectOneOut(pointMarked[0], pointMarked[1], pointMarked[2]);
      CrossingBetween(p, t[sel.original], t[sel.fixed0]);
      CrossingBetween(p, t[sel.original], t[sel.fixed1]);
      IntersectEdgesOld(t, sel, planeY, newPoint);
      if sel.fixed0 < sel.fixed1 {
        OneOutStep(t, p, sel, newPoint[0], newPoint[1]);
        var drawn0 := RenderClippedTriangles(newPoint[0], t[sel.fixed0], t[sel.fixed1]);
        var drawn1 := RenderClippedTriangles(newPoint[1], newPoint[0], t[sel.fixed1]);
        drawn := drawn0 + drawn1;
      } else {
        assert false;
      }
    } else {
      SelTwoFacts(t, p);
      var sel := SelectTwoOut(pointMarked[0], pointMarked[1], pointMarked[2]);
      CrossingNotPast(p, t[sel.original], t[sel.fixed0]);
      CrossingNotPast(p, t[sel.original], t[sel.fixed1]);
      IntersectEdgesOld(t, sel, planeY, newPoint);
      if sel.fixed0 < sel.fixed1 {
        TwoOutStep(t, p, sel, newPoint[0], newPoint[1]);
        drawn := RenderClippedTriangles(newPoint[0], newPoint[1], t[sel.original]);
      } else {
        assert false;
      }
    }
  }
}
