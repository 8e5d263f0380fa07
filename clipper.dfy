/**
 * The two-pass z-plane clipper of main.c, `clip_and_render`
 * (main.c:734-909).
 *
 * The C function loops over two passes (near plane z = 0.1, then far plane
 * z = SCREEN_DEPTH), classifies the three vertices, splits the triangle
 * into one or two pieces when one or two vertices are outside and passes
 * the pieces back through itself. `ClipAndRender` below is that loop; it
 * returns, in order, the triangles it hands to draw_triangle. It is proved
 * equal to `TwoPass`, the reference definition: clip once against the near
 * plane, then clip every piece once against the far plane.
 *
 * `out_triangle` is an uninitialised local array and clone_vertex copies
 * only x, y, z and c, so the u, v and t of a split piece are whatever that
 * stack memory held. The model makes that memory a parameter, `stale`.
 */
module Clipper {
  import opened Numerics
  import opened Geometry
  import opened ClipIndex

  datatype Plane = Near | Far

  /** The value of `plane_z` during a pass. */
  function PlaneZ(p: Plane): real {
    if p == Near then NEAR_PLANE else SCREEN_DEPTH
  }

  /** The classification of main.c:757-758: a vertex is marked when it lies outside the pass's plane. */
  predicate Outside(p: Plane, z: real) {
    if p == Near then z < NEAR_PLANE else z > SCREEN_DEPTH
  }

  predicate Inside(p: Plane, tri: Triangle) {
    forall i | 0 <= i < 3 :: !Outside(p, tri.v[i].z)
  }

  function Mark(tri: Triangle, p: Plane, i: int): bool
    requires 0 <= i < 3
  {
    Outside(p, tri.v[i].z)
  }

  function Count(tri: Triangle, p: Plane): int {
    CountMarked(Mark(tri, p, 0), Mark(tri, p, 1), Mark(tri, p, 2))
  }

  /** How many of the first `n` vertices the classification loop has marked. */
  function PrefixCount(tri: Triangle, p: Plane, n: int): int
    requires 0 <= n <= 3
  {
    if n == 0 then 0 else PrefixCount(tri, p, n - 1) + (if Mark(tri, p, n - 1) then 1 else 0)
  }

  lemma CountIsPrefix(tri: Triangle, p: Plane)
    ensures Count(tri, p) == PrefixCount(tri, p, 3)
  {
    assert PrefixCount(tri, p, 1) == (if Mark(tri, p, 0) then 1 else 0);
    assert PrefixCount(tri, p, 2) == PrefixCount(tri, p, 1) + (if Mark(tri, p, 1) then 1 else 0);
  }

  /** The contents of the uninitialised `out_triangle[0]` and `out_triangle[1]`. */
  datatype Stale = Stale(slot0: Triangle, slot1: Triangle)

  /** The parameter at which the edge from `fix` to `orig` crosses z = planeZ. */
  function CrossingParam(orig: Vertex, fix: Vertex, planeZ: real): real
    requires orig.z != fix.z
  {
    (planeZ - fix.z) / (orig.z - fix.z)
  }

  /** The edge point `fix + s (orig - fix)` in every interpolated attribute; the colour is fix's. */
  function EdgePoint(fix: Vertex, orig: Vertex, s: real): Vertex {
    Vertex(fix.x + s * (orig.x - fix.x), fix.y + s * (orig.y - fix.y), fix.z + s * (orig.z - fix.z),
           fix.u + s * (orig.u - fix.u), fix.v + s * (orig.v - fix.v), fix.c)
  }

  /**
   * One intersection point of main.c:788-815 and 845-875: z is set to the
   * plane, the other attributes are scaled by `ndz / dz` from `fix`, and the
   * colour is fix's. In `case 1:` `fix` is a kept vertex, in `case 2:` a
   * cut one; either way the point lies on the edge from `fix` toward `orig`.
   */
  function Intersect(orig: Vertex, fix: Vertex, planeZ: real): (np: Vertex)
    requires orig.z != fix.z
    ensures np.z == planeZ && np.c == fix.c
    ensures np == EdgePoint(fix, orig, CrossingParam(orig, fix, planeZ))
  {
    var dx := orig.x - fix.x;
    var dy := orig.y - fix.y;
    var dz := orig.z - fix.z;
    var du := orig.u - fix.u;
    var dv := orig.v - fix.v;
    var ndz := planeZ - fix.z;
    var scaleFactor := ndz / dz;
    QuotientTimesDivisor(ndz, dz);
    assert EdgePoint(fix, orig, scaleFactor) == Vertex(fix.x + scaleFactor * dx, fix.y + scaleFactor * dy, fix.z + scaleFactor * dz,
                                                       fix.u + scaleFactor * du, fix.v + scaleFactor * dv, fix.c);
    Vertex(scaleFactor * dx + fix.x, scaleFactor * dy + fix.y, planeZ,
           scaleFactor * du + fix.u, scaleFactor * dv + fix.v, fix.c)
  }

  /**
   * The intersection is THE point of the edge on the plane: any edge point
   * at depth planeZ is it, in every attribute.
   */
  lemma IntersectIsEdgeCrossing(orig: Vertex, fix: Vertex, planeZ: real, s: real)
    requires orig.z != fix.z
    requires EdgePoint(fix, orig, s).z == planeZ
    ensures EdgePoint(fix, orig, s) == Intersect(orig, fix, planeZ)
  {
    var dz := orig.z - fix.z;
    assert s * dz == planeZ - fix.z;
    QuotientUnique(planeZ - fix.z, dz, s);
  }

  /**
   * When the classification puts `fix` on the kept side and `orig` outside,
   * the divisor is non-zero and the crossing lies in [0, 1) along the edge.
   */
  lemma CrossingBetween(p: Plane, orig: Vertex, fix: Vertex)
    requires Outside(p, orig.z) && !Outside(p, fix.z)
    ensures orig.z != fix.z
    ensures 0.0 <= CrossingParam(orig, fix, PlaneZ(p)) < 1.0
  {
    QuotientInUnit(PlaneZ(p) - fix.z, orig.z - fix.z);
  }

  /**
   * When `fix` is outside and `orig` on the kept side (the two-out case),
   * the crossing lies in (0, 1] along the edge from `fix`.
   */
  lemma CrossingNotPast(p: Plane, orig: Vertex, fix: Vertex)
    requires !Outside(p, orig.z) && Outside(p, fix.z)
    ensures orig.z != fix.z
    ensures 0.0 < CrossingParam(orig, fix, PlaneZ(p)) <= 1.0
  {
    QuotientInUnitUpper(PlaneZ(p) - fix.z, orig.z - fix.z);
  }

  /** clone_vertex(src, &out.v[slot]). */
  function CloneInto(out: Triangle, slot: int, src: Vertex): Triangle
    requires 0 <= slot < 3
  {
    out.(v := out.v[slot := CloneVertex(src, out.v[slot])])
  }

  /**
   * The three clone_vertex calls that build one output triangle from the
   * stack slot `dst`: positions and colours come from the arguments, u, v
   * and t stay as `dst` had them.
   */
  function Fill(dst: Triangle, sel: Selection, atOriginal: Vertex, atFixed0: Vertex, atFixed1: Vertex): (r: Triangle)
    requires IsSplit(sel)
    ensures Pos(r.v[sel.original]) == Pos(atOriginal) && r.v[sel.original].c == atOriginal.c
    ensures Pos(r.v[sel.fixed0]) == Pos(atFixed0) && r.v[sel.fixed0].c == atFixed0.c
    ensures Pos(r.v[sel.fixed1]) == Pos(atFixed1) && r.v[sel.fixed1].c == atFixed1.c
    ensures r.t == dst.t && forall i | 0 <= i < 3 :: r.v[i].u == dst.v[i].u && r.v[i].v == dst.v[i].v
  {
    CloneInto(CloneInto(CloneInto(dst, sel.original, atOriginal), sel.fixed0, atFixed0), sel.fixed1, atFixed1)
  }

  function SelOne(tri: Triangle, p: Plane): Selection {
    SelectOneOut(Mark(tri, p, 0), Mark(tri, p, 1), Mark(tri, p, 2))
  }

  function SelTwo(tri: Triangle, p: Plane): Selection {
    SelectTwoOut(Mark(tri, p, 0), Mark(tri, p, 1), Mark(tri, p, 2))
  }

  lemma SelOneFacts(tri: Triangle, p: Plane)
    requires Count(tri, p) == 1
    ensures var sel := SelOne(tri, p);
      && IsSplit(sel)
      && Outside(p, tri.v[sel.original].z)
      && !Outside(p, tri.v[sel.fixed0].z) && !Outside(p, tri.v[sel.fixed1].z)
  {
  }

  lemma SelTwoFacts(tri: Triangle, p: Plane)
    requires Count(tri, p) == 2
    ensures var sel := SelTwo(tri, p);
      && IsSplit(sel)
      && !Outside(p, tri.v[sel.original].z)
      && Outside(p, tri.v[sel.fixed0].z) && Outside(p, tri.v[sel.fixed1].z)
  {
  }

  /** `case 1:` (main.c:778-831): the two intersections and the two winding-preserving triangles. */
  function OneOut(tri: Triangle, p: Plane, stale: Stale): seq<Triangle>
    requires Count(tri, p) == 1
  {
    SelOneFacts(tri, p);
    var sel := SelOne(tri, p);
    var np0 := Intersect(tri.v[sel.original], tri.v[sel.fixed0], PlaneZ(p));
    var np1 := Intersect(tri.v[sel.original], tri.v[sel.fixed1], PlaneZ(p));
    [Fill(stale.slot0, sel, np0, tri.v[sel.fixed0], tri.v[sel.fixed1]),
     Fill(stale.slot1, sel, np1, np0, tri.v[sel.fixed1])]
  }

  /** `case 2:` (main.c:837-883): the kept vertex and the two intersections in their own slots. */
  function TwoOut(tri: Triangle, p: Plane, stale: Stale): Triangle
    requires Count(tri, p) == 2
  {
    SelTwoFacts(tri, p);
    var sel := SelTwo(tri, p);
    var np0 := Intersect(tri.v[sel.original], tri.v[sel.fixed0], PlaneZ(p));
    var np1 := Intersect(tri.v[sel.original], tri.v[sel.fixed1], PlaneZ(p));
    Fill(stale.slot0, sel, tri.v[sel.original], np0, np1)
  }

  /** One pass of the clipper against one plane: nothing, two pieces, one piece, or the triangle itself. */
  function ClipOnce(tri: Triangle, p: Plane, stale: Stale): (pieces: seq<Triangle>)
    ensures |pieces| <= 2
  {
    var count := Count(tri, p);
    if count == 3 then []
    else if count == 1 then OneOut(tri, p, stale)
    else if count == 2 then [TwoOut(tri, p, stale)]
    else [tri]
  }

  lemma ClipOnceCases(tri: Triangle, p: Plane, stale: Stale)
    ensures Count(tri, p) == 0 ==> ClipOnce(tri, p, stale) == [tri]
    ensures Count(tri, p) == 1 ==> ClipOnce(tri, p, stale) == OneOut(tri, p, stale)
    ensures Count(tri, p) == 2 ==> ClipOnce(tri, p, stale) == [TwoOut(tri, p, stale)]
    ensures Count(tri, p) == 3 ==> ClipOnce(tri, p, stale) == []
  {
  }

  /** The reference definition: near pass, then a far pass over each piece. */
  function TwoPass(tri: Triangle, stale: Stale): seq<Triangle> {
    FarPass(ClipOnce(tri, Near, stale), stale)
  }

  function FarPass(ts: seq<Triangle>, stale: Stale): seq<Triangle> {
    if ts == [] then [] else ClipOnce(ts[0], Far, stale) + FarPass(ts[1..], stale)
  }

  function TwoPassAll(ts: seq<Triangle>, stale: Stale): seq<Triangle> {
    if ts == [] then [] else TwoPass(ts[0], stale) + TwoPassAll(ts[1..], stale)
  }

  /** Which pass still has work to do; every recursive call of clip_and_render lowers it. */
  function Stage(tri: Triangle): nat {
    if !Inside(Near, tri) then 2 else if !Inside(Far, tri) then 1 else 0
  }

  /**
   * Every vertex of every piece is on the kept side of the plane, and its
   * depth is either the plane's or one of the input's depths.
   */
  lemma PieceDepths(tri: Triangle, p: Plane, stale: Stale)
    ensures forall q, i | q in ClipOnce(tri, p, stale) && 0 <= i < 3 ::
      && !Outside(p, q.v[i].z)
      && (q.v[i].z == PlaneZ(p) || q.v[i].z == tri.v[0].z || q.v[i].z == tri.v[1].z || q.v[i].z == tri.v[2].z)
  {
    var count := Count(tri, p);
    if count == 1 {
      SelOneFacts(tri, p);
    } else if count == 2 {
      SelTwoFacts(tri, p);
    }
  }

  /** Clipping a triangle that lies on the near plane's kept side against the far plane keeps it there. */
  lemma PiecesStayNear(tri: Triangle, p: Plane, stale: Stale)
    requires p == Near || Inside(Near, tri)
    ensures forall q | q in ClipOnce(tri, p, stale) :: Inside(p, q) && Inside(Near, q)
  {
    PieceDepths(tri, p, stale);
  }

  /**
   * The recursion of clip_and_render computes the two-pass reference:
   * running TwoPass on each piece of one pass gives TwoPass of the whole,
   * because a piece needs nothing more from the pass that produced it.
   */
  lemma TwoPassRecurses(tri: Triangle, p: Plane, stale: Stale)
    requires p == Near || Inside(Near, tri)
    ensures TwoPass(tri, stale) == TwoPassAll(ClipOnce(tri, p, stale), stale)
  {
    var pieces := ClipOnce(tri, p, stale);
    PiecesStayNear(tri, p, stale);
    forall q | q in pieces
      ensures TwoPass(q, stale) == ClipOnce(q, Far, stale)
    {
      NearPassKeeps(q, stale);
    }
    if p == Near {
      FarPassIsTwoPassAll(pieces, stale);
    } else {
      NearPassKeeps(tri, stale);
      forall q | q in pieces
        ensures TwoPass(q, stale) == [q]
      {
        assert Count(q, Far) == 0;
      }
      if |pieces| == 2 {
        assert pieces[0] in pieces && pieces[1] in pieces;
        assert pieces[1..][1..] == [];
        assert TwoPassAll(pieces[1..], stale) == TwoPass(pieces[1], stale) + TwoPassAll(pieces[1..][1..], stale);
        assert TwoPassAll(pieces, stale) == [pieces[0]] + [pieces[1]] + [];
        assert pieces == [pieces[0]] + [pieces[1]];
      } else if |pieces| == 1 {
        assert pieces[0] in pieces;
        assert pieces[1..] == [];
        assert TwoPassAll(pieces, stale) == [pieces[0]] + [];
      }
    }
  }

  /** A triangle on the kept side of the near plane goes through the near pass unchanged. */
  lemma NearPassKeeps(tri: Triangle, stale: Stale)
    requires Inside(Near, tri)
    ensures ClipOnce(tri, Near, stale) == [tri]
    ensures TwoPass(tri, stale) == ClipOnce(tri, Far, stale)
  {
    assert Count(tri, Near) == 0;
    assert [tri][1..] == [];
    assert FarPass([tri], stale) == ClipOnce(tri, Far, stale) + FarPass([], stale);
  }

  lemma FarPassIsTwoPassAll(ts: seq<Triangle>, stale: Stale)
    requires forall q | q in ts :: TwoPass(q, stale) == ClipOnce(q, Far, stale)
    ensures FarPass(ts, stale) == TwoPassAll(ts, stale)
  {
    if ts != [] {
      assert ts[0] in ts;
      FarPassIsTwoPassAll(ts[1..], stale);
    }
  }

  /**
   * The classification loop of main.c:755-765: marks every vertex outside
   * the current plane and counts them.
   */
  method MarkVertices(tri: Triangle, onSecondIteration: bool, planeZ: real, pointMarked: array<bool>)
      returns (count: int)
    requires pointMarked.Length == 3
    requires planeZ == PlaneZ(if onSecondIteration then Far else Near)
    modifies pointMarked
    ensures var p := if onSecondIteration then Far else Near;
      && count == Count(tri, p)
      && pointMarked[..] == [Mark(tri, p, 0), Mark(tri, p, 1), Mark(tri, p, 2)]
  {
    ghost var p := if onSecondIteration then Far else Near;
    count := 0;
    for i := 0 to 3
      invariant count == PrefixCount(tri, p, i)
      invariant forall j | 0 <= j < i :: pointMarked[j] == Mark(tri, p, j)
    {
      if (onSecondIteration && tri.v[i].z > planeZ) || (!onSecondIteration && tri.v[i].z < planeZ) {
        pointMarked[i] := true;
        count := count + 1;
      } else {
        pointMarked[i] := false;
      }
    }
    CountIsPrefix(tri, p);
  }

  /**
   * The intersection loop that both split cases run (main.c:785-816 and
   * main.c:844-875): the crossings of the edges from `fixed[i]` to `original`.
   */
  method IntersectEdges(tri: Triangle, sel: Selection, planeZ: real, newPoint: array<Vertex>)
    requires newPoint.Length == 2 && IsSplit(sel)
    requires tri.v[sel.original].z != tri.v[sel.fixed0].z && tri.v[sel.original].z != tri.v[sel.fixed1].z
    modifies newPoint
    ensures newPoint[0] == Intersect(tri.v[sel.original], tri.v[sel.fixed0], planeZ)
    ensures newPoint[1] == Intersect(tri.v[sel.original], tri.v[sel.fixed1], planeZ)
  {
    var fixed := [sel.fixed0, sel.fixed1];
    for i := 0 to 2
      invariant forall j | 0 <= j < i :: newPoint[j] == Intersect(tri.v[sel.original], tri.v[fixed[j]], planeZ)
    {
      newPoint[i] := Intersect(tri.v[sel.original], tri.v[fixed[i]], planeZ);
    }
  }

  /**
   * clip_and_render (main.c:734-909): the two-pass loop and the
   * classification; the split cases and their recursive calls are in
   * `RenderSplit`. `drawn` lists, in order, the triangles that reach
   * draw_triangle; they are exactly those of the reference definition.
   */
  method ClipAndRender(tri: Triangle, stale: Stale) returns (drawn: seq<Triangle>)
    ensures drawn == TwoPass(tri, stale)
    decreases Stage(tri), 1
  {
    var onSecondIteration := false;
    var planeZ := NEAR_PLANE;
    var pointMarked := new bool[3];
    var newPoint := new Vertex[2];
    var outTriangle := new Triangle[] [stale.slot0, stale.slot1];
    while true
      invariant planeZ == PlaneZ(if onSecondIteration then Far else Near)
      invariant onSecondIteration ==> Inside(Near, tri)
      invariant outTriangle[0] == stale.slot0 && outTriangle[1] == stale.slot1
      decreases !onSecondIteration
    {
      ghost var p := if onSecondIteration then Far else Near;
      var count := MarkVertices(tri, onSecondIteration, planeZ, pointMarked);
      if count == 3 {
        ClipOnceCases(tri, p, stale);
        if onSecondIteration {
          NearPassKeeps(tri, stale);
        }
        return [];
      } else if count == 1 || count == 2 {
        drawn := RenderSplit(tri, stale, p, count, planeZ, pointMarked, newPoint, outTriangle);
        return drawn;
      }
      if onSecondIteration {
        break;
      }
      onSecondIteration := true;
      planeZ := SCREEN_DEPTH;
    }
    ClipOnceCases(tri, Near, stale);
    NearPassKeeps(tri, stale);
    ClipOnceCases(tri, Far, stale);
    drawn := [tri];
  }

  /**
   * `case 1:` and `case 2:` of clip_and_render (main.c:778-883): pick the
   * vertices, intersect the two edges, build the output triangles in the
   * stack slots with clone_vertex and pass them back to ClipAndRender.
   */
  method RenderSplit(tri: Triangle, stale: Stale, ghost p: Plane, count: int, planeZ: real,
                     pointMarked: array<bool>, newPoint: array<Vertex>, outTriangle: array<Triangle>)
      returns (drawn: seq<Triangle>)
    requires p == Near || Inside(Near, tri)
    requires count == Count(tri, p) && (count == 1 || count == 2) && planeZ == PlaneZ(p)
    requires pointMarked[..] == [Mark(tri, p, 0), Mark(tri, p, 1), Mark(tri, p, 2)]
    requires newPoint.Length == 2 && outTriangle.Length == 2
    requires outTriangle[0] == stale.slot0 && outTriangle[1] == stale.slot1
    modifies newPoint, outTriangle
    ensures drawn == TwoPass(tri, stale)
    decreases Stage(tri), 0
  {
    if count == 1 {
      SelOneFacts(tri, p);
      var sel := SelectOneOut(pointMarked[0], pointMarked[1], pointMarked[2]);
      var original := sel.original;
      IntersectEdges(tri, sel, planeZ, newPoint);
      outTriangle[0] := CloneInto(outTriangle[0], original, newPoint[0]);
      outTriangle[0] := CloneInto(outTriangle[0], sel.fixed0, tri.v[sel.fixed0]);
      outTriangle[0] := CloneInto(outTriangle[0], sel.fixed1, tri.v[sel.fixed1]);
      outTriangle[1] := CloneInto(outTriangle[1], original, newPoint[1]);
      outTriangle[1] := CloneInto(outTriangle[1], sel.fixed0, newPoint[0]);
      outTriangle[1] := CloneInto(outTriangle[1], sel.fixed1, tri.v[sel.fixed1]);
      OneOutStep(tri, p, stale, sel, newPoint[0], newPoint[1], outTriangle[0], outTriangle[1]);
      var drawn0 := ClipAndRender(outTriangle[0], stale);
      var drawn1 := ClipAndRender(outTriangle[1], stale);
      drawn := drawn0 + drawn1;
    } else {
      SelTwoFacts(tri, p);
      var sel := SelectTwoOut(pointMarked[0], pointMarked[1], pointMarked[2]);
      var original := sel.original;
      IntersectEdges(tri, sel, planeZ, newPoint);
      outTriangle[0] := CloneInto(outTriangle[0], original, tri.v[original]);
      outTriangle[0] := CloneInto(outTriangle[0], sel.fixed0, newPoint[0]);
      outTriangle[0] := CloneInto(outTriangle[0], sel.fixed1, newPoint[1]);
      TwoOutStep(tri, p, stale, sel, newPoint[0], newPoint[1], outTriangle[0]);
      drawn := ClipAndRender(outTriangle[0], stale);
    }
  }

  /**
   * What the one-out branch of clip_and_render needs: the triangles it
   * builds are the pass's pieces, need one pass less, and make up TwoPass.
   */
  lemma OneOutStep(tri: Triangle, p: Plane, stale: Stale, sel: Selection, np0: Vertex, np1: Vertex,
                   piece0: Triangle, piece1: Triangle)
    requires p == Near || Inside(Near, tri)
    requires Count(tri, p) == 1 && sel == SelOne(tri, p) && IsSplit(sel)
    requires tri.v[sel.original].z != tri.v[sel.fixed0].z && tri.v[sel.original].z != tri.v[sel.fixed1].z
    requires np0 == Intersect(tri.v[sel.original], tri.v[sel.fixed0], PlaneZ(p))
    requires np1 == Intersect(tri.v[sel.original], tri.v[sel.fixed1], PlaneZ(p))
    requires piece0 == CloneInto(CloneInto(CloneInto(stale.slot0, sel.original, np0), sel.fixed0, tri.v[sel.fixed0]), sel.fixed1, tri.v[sel.fixed1])
    requires piece1 == CloneInto(CloneInto(CloneInto(stale.slot1, sel.original, np1), sel.fixed0, np0), sel.fixed1, tri.v[sel.fixed1])
    ensures Stage(piece0) < Stage(tri) && Stage(piece1) < Stage(tri)
    ensures TwoPass(tri, stale) == TwoPass(piece0, stale) + TwoPass(piece1, stale)
  {
    assert [piece0, piece1] == OneOut(tri, p, stale);
    ClipOnceCases(tri, p, stale);
    PiecesStayNear(tri, p, stale);
    assert piece0 in ClipOnce(tri, p, stale) && piece1 in ClipOnce(tri, p, stale);
    TwoPassRecurses(tri, p, stale);
    TwoPassAllPair(piece0, piece1, stale);
  }

  /** What the two-out branch of clip_and_render needs. */
  lemma TwoOutStep(tri: Triangle, p: Plane, stale: Stale, sel: Selection, np0: Vertex, np1: Vertex, piece: Triangle)
    requires p == Near || Inside(Near, tri)
    requires Count(tri, p) == 2 && sel == SelTwo(tri, p) && IsSplit(sel)
    requires tri.v[sel.original].z != tri.v[sel.fixed0].z && tri.v[sel.original].z != tri.v[sel.fixed1].z
    requires np0 == Intersect(tri.v[sel.original], tri.v[sel.fixed0], PlaneZ(p))
    requires np1 == Intersect(tri.v[sel.original], tri.v[sel.fixed1], PlaneZ(p))
    requires piece == CloneInto(CloneInto(CloneInto(stale.slot0, sel.original, tri.v[sel.original]), sel.fixed0, np0), sel.fixed1, np1)
    ensures Stage(piece) < Stage(tri)
    ensures TwoPass(tri, stale) == TwoPass(piece, stale)
  {
    assert piece == TwoOut(tri, p, stale);
    ClipOnceCases(tri, p, stale);
    PiecesStayNear(tri, p, stale);
    assert piece in ClipOnce(tri, p, stale);
    TwoPassRecurses(tri, p, stale);
    TwoPassAllSingle(piece, stale);
  }

  lemma TwoPassAllPair(a: Triangle, b: Triangle, stale: Stale)
    ensures TwoPassAll([a, b], stale) == TwoPass(a, stale) + TwoPass(b, stale)
  {
    assert [a, b][1..] == [b];
    assert [b][1..] == [];
    assert TwoPassAll([b], stale) == TwoPass(b, stale) + TwoPassAll([], stale);
  }

  lemma TwoPassAllSingle(a: Triangle, stale: Stale)
    ensures TwoPassAll([a], stale) == TwoPass(a, stale)
  {
    assert [a][1..] == [];
  }

  /** A pass leaves every piece inside the near plane's kept side, and inside the far plane's after the far pass. */
  lemma FarPassInside(ts: seq<Triangle>, stale: Stale)
    requires forall q | q in ts :: Inside(Near, q)
    ensures forall d | d in FarPass(ts, stale) :: Inside(Near, d) && Inside(Far, d)
  {
    if ts != [] {
      assert ts[0] in ts;
      PiecesStayNear(ts[0], Far, stale);
      FarPassInside(ts[1..], stale);
    }
  }

  /** Every vertex of every triangle clip_and_render draws lies between the near and the far plane. */
  lemma TwoPassDepthRange(tri: Triangle, stale: Stale)
    ensures forall d, i | d in TwoPass(tri, stale) && 0 <= i < 3 :: NEAR_PLANE <= d.v[i].z <= SCREEN_DEPTH
  {
    PiecesStayNear(tri, Near, stale);
    FarPassInside(ClipOnce(tri, Near, stale), stale);
  }

  lemma FarPassLength(ts: seq<Triangle>, stale: Stale)
    ensures |FarPass(ts, stale)| <= 2 * |ts|
  {
    if ts != [] {
      FarPassLength(ts[1..], stale);
    }
  }

  /** One input triangle reaches draw_triangle at most four times. */
  lemma TwoPassAtMostFour(tri: Triangle, stale: Stale)
    ensures |TwoPass(tri, stale)| <= 4
  {
    FarPassLength(ClipOnce(tri, Near, stale), stale);
  }

  /** A triangle between the planes is drawn once, unchanged. */
  lemma TwoPassKeeps(tri: Triangle, stale: Stale)
    requires Inside(Near, tri) && Inside(Far, tri)
    ensures TwoPass(tri, stale) == [tri]
  {
    NearPassKeeps(tri, stale);
    assert Count(tri, Far) == 0;
  }

  /** A triangle wholly in front of the near plane, or wholly beyond the far plane, is not drawn at all. */
  lemma TwoPassDiscards(tri: Triangle, stale: Stale)
    requires (forall i | 0 <= i < 3 :: tri.v[i].z < NEAR_PLANE) || (forall i | 0 <= i < 3 :: tri.v[i].z > SCREEN_DEPTH)
    ensures TwoPass(tri, stale) == []
  {
    if forall i | 0 <= i < 3 :: tri.v[i].z < NEAR_PLANE {
      assert Mark(tri, Near, 0) && Mark(tri, Near, 1) && Mark(tri, Near, 2);
    } else {
      NearPassKeeps(tri, stale);
      assert Mark(tri, Far, 0) && Mark(tri, Far, 1) && Mark(tri, Far, 2);
    }
  }

  // ---- Winding: every piece faces the same way as the triangle it came from ----

  lemma ScaleScale(k1: real, k2: real, n: Vec3)
    ensures Scale(k2, Scale(k1, n)) == Scale(k2 * k1, n)
  {
  }

  /** The piece's normal is a non-negative multiple of the triangle's. */
  ghost predicate FacesSameWay(piece: Triangle, tri: Triangle) {
    exists k: real :: 0.0 <= k && Normal(piece.v) == Scale(k, Normal(tri.v))
  }

  /** A normal scaled twice by non-negative factors faces the same way as the original. */
  lemma ScaledTwiceSameWay(piece: Triangle, tri: Triangle, k1: real, k2: real)
    requires 0.0 <= k1 && 0.0 <= k2 && Normal(piece.v) == Scale(k2, Scale(k1, Normal(tri.v)))
    ensures FacesSameWay(piece, tri)
  {
    ScaleScale(k1, k2, Normal(tri.v));
    ProductNonneg(k2, k1);
    assert 0.0 <= k2 * k1 && Normal(piece.v) == Scale(k2 * k1, Normal(tri.v));
  }

  lemma IntersectPos(orig: Vertex, fix: Vertex, planeZ: real)
    requires orig.z != fix.z
    ensures Pos(Intersect(orig, fix, planeZ)) == Toward(Pos(fix), Pos(orig), CrossingParam(orig, fix, planeZ))
  {
  }

  /**
   * The geometry of the one-out split: slot o of the first piece `a` slides
   * toward slot f0; for the second piece `b`, slot f0 slides toward o
   * (giving `mid`) and then o toward f1. The normals are t0 and
   * t1 (1 - t0) times the original.
   */
  lemma OneOutNormals(v: Verts, sel: Selection, t0: real, t1: real, a: Verts, mid: Verts, b: Verts)
    requires IsSplit(sel)
    requires var o, f0, f1 := sel.original, sel.fixed0, sel.fixed1;
      && Pos(a[o]) == Toward(Pos(v[f0]), Pos(v[o]), t0) && Pos(a[f0]) == Pos(v[f0]) && Pos(a[f1]) == Pos(v[f1])
      && Pos(mid[o]) == Pos(v[o]) && Pos(mid[f0]) == Pos(a[o]) && Pos(mid[f1]) == Pos(v[f1])
      && Pos(b[o]) == Toward(Pos(v[f1]), Pos(v[o]), t1) && Pos(b[f0]) == Pos(a[o]) && Pos(b[f1]) == Pos(v[f1])
    ensures Normal(a) == Scale(t0, Normal(v))
    ensures Normal(b) == Scale(t1, Scale(1.0 - t0, Normal(v)))
  {
    // The three selections one at a time, so that every slot index is a constant.
    if sel.original == 0 {
      OneOutNormalsAt0(v, t0, t1, a, mid, b);
    } else if sel.original == 1 {
      OneOutNormalsAt1(v, t0, t1, a, mid, b);
    } else {
      OneOutNormalsAt2(v, t0, t1, a, mid, b);
    }
  }

  /**
   * The geometry of the two-out split: slot f0 slides toward slot o
   * (giving `mid`), then f1 toward o; the normal is (1 - t1)(1 - t0) times
   * the original.
   */
  lemma TwoOutNormal(v: Verts, sel: Selection, t0: real, t1: real, mid: Verts, a: Verts)
    requires IsSplit(sel)
    requires var o, f0, f1 := sel.original, sel.fixed0, sel.fixed1;
      && Pos(mid[o]) == Pos(v[o]) && Pos(mid[f0]) == Toward(Pos(v[f0]), Pos(v[o]), t0) && Pos(mid[f1]) == Pos(v[f1])
      && Pos(a[o]) == Pos(v[o]) && Pos(a[f0]) == Pos(mid[f0]) && Pos(a[f1]) == Toward(Pos(v[f1]), Pos(v[o]), t1)
    ensures Normal(a) == Scale(1.0 - t1, Scale(1.0 - t0, Normal(v)))
  {
    if sel.original == 0 {
      TwoOutNormalAt0(v, t0, t1, mid, a);
    } else if sel.original == 1 {
      TwoOutNormalAt1(v, t0, t1, mid, a);
    } else {
      TwoOutNormalAt2(v, t0, t1, mid, a);
    }
  }

  lemma OneOutNormalsAt0(v: Verts, t0: real, t1: real, a: Verts, mid: Verts, b: Verts)
    requires Pos(a[0]) == Toward(Pos(v[1]), Pos(v[0]), t0) && Pos(a[1]) == Pos(v[1]) && Pos(a[2]) == Pos(v[2])
    requires Pos(mid[0]) == Pos(v[0]) && Pos(mid[1]) == Pos(a[0]) && Pos(mid[2]) == Pos(v[2])
    requires Pos(b[0]) == Toward(Pos(v[2]), Pos(v[0]), t1) && Pos(b[1]) == Pos(a[0]) && Pos(b[2]) == Pos(v[2])
    ensures Normal(a) == Scale(t0, Normal(v))
    ensures Normal(b) == Scale(t1, Scale(1.0 - t0, Normal(v)))
  {
    SlideSlotFrom(v, 0, 1, t0, a);
    SlideSlot(v, 1, 0, t0, mid);
    SlideSlotFrom(mid, 0, 2, t1, b);
  }

  lemma TwoOutNormalAt0(v: Verts, t0: real, t1: real, mid: Verts, a: Verts)
    requires Pos(mid[0]) == Pos(v[0]) && Pos(mid[1]) == Toward(Pos(v[1]), Pos(v[0]), t0) && Pos(mid[2]) == Pos(v[2])
    requires Pos(a[0]) == Pos(v[0]) && Pos(a[1]) == Pos(mid[1]) && Pos(a[2]) == Toward(Pos(v[2]), Pos(v[0]), t1)
    ensures Normal(a) == Scale(1.0 - t1, Scale(1.0 - t0, Normal(v)))
  {
    SlideSlot(v, 1, 0, t0, mid);
    SlideSlot(mid, 2, 0, t1, a);
  }

  lemma OneOutNormalsAt1(v: Verts, t0: real, t1: real, a: Verts, mid: Verts, b: Verts)
    requires Pos(a[1]) == Toward(Pos(v[0]), Pos(v[1]), t0) && Pos(a[0]) == Pos(v[0]) && Pos(a[2]) == Pos(v[2])
    requires Pos(mid[1]) == Pos(v[1]) && Pos(mid[0]) == Pos(a[1]) && Pos(mid[2]) == Pos(v[2])
    requires Pos(b[1]) == Toward(Pos(v[2]), Pos(v[1]), t1) && Pos(b[0]) == Pos(a[1]) && Pos(b[2]) == Pos(v[2])
    ensures Normal(a) == Scale(t0, Normal(v))
    ensures Normal(b) == Scale(t1, Scale(1.0 - t0, Normal(v)))
  {
    SlideSlotFrom(v, 1, 0, t0, a);
    SlideSlot(v, 0, 1, t0, mid);
    SlideSlotFrom(mid, 1, 2, t1, b);
  }

  lemma TwoOutNormalAt1(v: Verts, t0: real, t1: real, mid: Verts, a: Verts)
    requires Pos(mid[1]) == Pos(v[1]) && Pos(mid[0]) == Toward(Pos(v[0]), Pos(v[1]), t0) && Pos(mid[2]) == Pos(v[2])
    requires Pos(a[1]) == Pos(v[1]) && Pos(a[0]) == Pos(mid[0]) && Pos(a[2]) == Toward(Pos(v[2]), Pos(v[1]), t1)
    ensures Normal(a) == Scale(1.0 - t1, Scale(1.0 - t0, Normal(v)))
  {
    SlideSlot(v, 0, 1, t0, mid);
    SlideSlot(mid, 2, 1, t1, a);
  }

  lemma OneOutNormalsAt2(v: Verts, t0: real, t1: real, a: Verts, mid: Verts, b: Verts)
    requires Pos(a[2]) == Toward(Pos(v[0]), Pos(v[2]), t0) && Pos(a[0]) == Pos(v[0]) && Pos(a[1]) == Pos(v[1])
    requires Pos(mid[2]) == Pos(v[2]) && Pos(mid[0]) == Pos(a[2]) && Pos(mid[1]) == Pos(v[1])
    requires Pos(b[2]) == Toward(Pos(v[1]), Pos(v[2]), t1) && Pos(b[0]) == Pos(a[2]) && Pos(b[1]) == Pos(v[1])
    ensures Normal(a) == Scale(t0, Normal(v))
    ensures Normal(b) == Scale(t1, Scale(1.0 - t0, Normal(v)))
  {
    SlideSlotFrom(v, 2, 0, t0, a);
    SlideSlot(v, 0, 2, t0, mid);
    SlideSlotFrom(mid, 2, 1, t1, b);
  }

  lemma TwoOutNormalAt2(v: Verts, t0: real, t1: real, mid: Verts, a: Verts)
    requires Pos(mid[2]) == Pos(v[2]) && Pos(mid[0]) == Toward(Pos(v[0]), Pos(v[2]), t0) && Pos(mid[1]) == Pos(v[1])
    requires Pos(a[2]) == Pos(v[2]) && Pos(a[0]) == Pos(mid[0]) && Pos(a[1]) == Toward(Pos(v[1]), Pos(v[2]), t1)
    ensures Normal(a) == Scale(1.0 - t1, Scale(1.0 - t0, Normal(v)))
  {
    SlideSlot(v, 0, 2, t0, mid);
    SlideSlot(mid, 1, 2, t1, a);
  }

  /** With one vertex out, both pieces keep the winding of the triangle (main.c:818-827). */
  lemma OneOutFacing(tri: Triangle, p: Plane, stale: Stale)
    requires Count(tri, p) == 1
    ensures forall q | q in OneOut(tri, p, stale) :: FacesSameWay(q, tri)
  {
    SelOneFacts(tri, p);
    var sel := SelOne(tri, p);
    var o, f0, f1 := sel.original, sel.fixed0, sel.fixed1;
    var pz := PlaneZ(p);
    var t0 := CrossingParam(tri.v[o], tri.v[f0], pz);
    var t1 := CrossingParam(tri.v[o], tri.v[f1], pz);
    CrossingBetween(p, tri.v[o], tri.v[f0]);
    CrossingBetween(p, tri.v[o], tri.v[f1]);
    IntersectPos(tri.v[o], tri.v[f0], pz);
    IntersectPos(tri.v[o], tri.v[f1], pz);
    var pieces := OneOut(tri, p, stale);
    var np0 := Intersect(tri.v[o], tri.v[f0], pz);
    var mid := tri.v[f0 := np0];
    OneOutNormals(tri.v, sel, t0, t1, pieces[0].v, mid, pieces[1].v);
    assert FacesSameWay(pieces[0], tri);
    ScaledTwiceSameWay(pieces[1], tri, 1.0 - t0, t1);
  }

  /** With two vertices out, the piece keeps the winding of the triangle (main.c:877-880). */
  lemma TwoOutFacing(tri: Triangle, p: Plane, stale: Stale)
    requires Count(tri, p) == 2
    ensures FacesSameWay(TwoOut(tri, p, stale), tri)
  {
    SelTwoFacts(tri, p);
    var sel := SelTwo(tri, p);
    var o, f0, f1 := sel.original, sel.fixed0, sel.fixed1;
    var pz := PlaneZ(p);
    var t0 := CrossingParam(tri.v[o], tri.v[f0], pz);
    var t1 := CrossingParam(tri.v[o], tri.v[f1], pz);
    CrossingNotPast(p, tri.v[o], tri.v[f0]);
    CrossingNotPast(p, tri.v[o], tri.v[f1]);
    IntersectPos(tri.v[o], tri.v[f0], pz);
    IntersectPos(tri.v[o], tri.v[f1], pz);
    var piece := TwoOut(tri, p, stale);
    var mid := tri.v[f0 := Intersect(tri.v[o], tri.v[f0], pz)];
    TwoOutNormal(tri.v, sel, t0, t1, mid, piece.v);
    ScaledTwiceSameWay(piece, tri, 1.0 - t0, 1.0 - t1);
  }

  lemma ClipOnceFacing(tri: Triangle, p: Plane, stale: Stale)
    ensures forall q | q in ClipOnce(tri, p, stale) :: FacesSameWay(q, tri)
  {
    var count := Count(tri, p);
    if count == 1 {
      OneOutFacing(tri, p, stale);
    } else if count == 2 {
      TwoOutFacing(tri, p, stale);
    } else if count == 0 {
      assert ClipOnce(tri, p, stale) == [tri];
      assert Normal(tri.v) == Scale(1.0, Normal(tri.v));
    }
  }

  lemma FacesSameWayTrans(a: Triangle, b: Triangle, c: Triangle)
    requires FacesSameWay(a, b) && FacesSameWay(b, c)
    ensures FacesSameWay(a, c)
  {
    var k1 :| 0.0 <= k1 && Normal(b.v) == Scale(k1, Normal(c.v));
    var k2 :| 0.0 <= k2 && Normal(a.v) == Scale(k2, Normal(b.v));
    ScaleScale(k1, k2, Normal(c.v));
    assert 0.0 <= k2 * k1;
  }

  lemma FarPassFacing(ts: seq<Triangle>, tri: Triangle, stale: Stale)
    requires forall q | q in ts :: FacesSameWay(q, tri)
    ensures forall d | d in FarPass(ts, stale) :: FacesSameWay(d, tri)
  {
    if ts != [] {
      assert ts[0] in ts;
      ClipOnceFacing(ts[0], Far, stale);
      forall d | d in ClipOnce(ts[0], Far, stale)
        ensures FacesSameWay(d, tri)
      {
        FacesSameWayTrans(d, ts[0], tri);
      }
      FarPassFacing(ts[1..], tri, stale);
    }
  }

  /**
   * Clipping preserves the winding order (main.c:818 and main.c:877): no
   * drawn piece is flipped relative to the input, so back-face culling in
   * draw_triangle treats the pieces as it treats the triangle.
   */
  lemma TwoPassFacing(tri: Triangle, stale: Stale)
    ensures forall d | d in TwoPass(tri, stale) :: FacesSameWay(d, tri)
  {
    ClipOnceFacing(tri, Near, stale);
    FarPassFacing(ClipOnce(tri, Near, stale), tri, stale);
  }

  // ---- What a split piece inherits from the stack slot ----

  /** The texture and texture coordinates of `piece` are those of the stack slot `slot`. */
  predicate FromSlot(piece: Triangle, slot: Triangle) {
    piece.t == slot.t && forall i | 0 <= i < 3 :: piece.v[i].u == slot.v[i].u && piece.v[i].v == slot.v[i].v
  }

  predicate KeepsOrSlot(piece: Triangle, tri: Triangle, stale: Stale) {
    piece == tri || FromSlot(piece, stale.slot0) || FromSlot(piece, stale.slot1)
  }

  /**
   * clone_vertex copies no u and v, and nothing copies `t`, so a split piece
   * takes its texture and texture coordinates from the uninitialised slot.
   */
  lemma ClipOnceAttributes(tri: Triangle, p: Plane, stale: Stale)
    ensures forall q | q in ClipOnce(tri, p, stale) :: KeepsOrSlot(q, tri, stale)
    ensures Count(tri, p) == 1 ==>
      FromSlot(ClipOnce(tri, p, stale)[0], stale.slot0) && FromSlot(ClipOnce(tri, p, stale)[1], stale.slot1)
    ensures Count(tri, p) == 2 ==> FromSlot(ClipOnce(tri, p, stale)[0], stale.slot0)
  {
    if Count(tri, p) == 1 {
      SelOneFacts(tri, p);
    } else if Count(tri, p) == 2 {
      SelTwoFacts(tri, p);
    }
  }

  lemma FarPassAttributes(ts: seq<Triangle>, tri: Triangle, stale: Stale)
    requires forall q | q in ts :: KeepsOrSlot(q, tri, stale)
    ensures forall d | d in FarPass(ts, stale) :: KeepsOrSlot(d, tri, stale)
  {
    if ts != [] {
      assert ts[0] in ts;
      ClipOnceAttributes(ts[0], Far, stale);
      FarPassAttributes(ts[1..], tri, stale);
    }
  }

  /** Every drawn triangle is the input itself or carries a stack slot's texture and coordinates. */
  lemma TwoPassAttributes(tri: Triangle, stale: Stale)
    ensures forall d | d in TwoPass(tri, stale) :: KeepsOrSlot(d, tri, stale)
  {
    ClipOnceAttributes(tri, Near, stale);
    FarPassAttributes(ClipOnce(tri, Near, stale), tri, stale);
  }
}
