/**
 * splitRect (rect.c:25-107): carve a destination rectangle into strips
 * around a "knife" rectangle. A first pass counts the knife edges strictly
 * inside the destination and sizes the output array; a second pass cuts
 * off, in order, the strip left of the knife, above it, right of it and
 * below it, each time moving one edge of `baserect` inward.
 *
 * Rectangles are read as the half-open cell ranges [left, right) x
 * [top, bottom), so a strip and what remains of `baserect` share no cell.
 */
module RectSplit {
  import opened Numerics

  /** `rect`, with unsigned coordinates; comparisons are the only operations on them. */
  datatype Rect = Rect(top: u32, left: u32, bottom: u32, right: u32)

  /** The cell (x, y) lies in `r`. */
  predicate InRect(r: Rect, x: int, y: int) {
    r.left <= x < r.right && r.top <= y < r.bottom
  }

  /** `inner` lies within `outer`: top and left no smaller, bottom and right no larger. */
  predicate Within(inner: Rect, outer: Rect) {
    outer.top <= inner.top && outer.left <= inner.left && inner.bottom <= outer.bottom && inner.right <= outer.right
  }

  // ---- The count pass (rect.c:37-47) ----

  predicate LeftInside(base: Rect, k: Rect) {
    k.left > base.left && k.left < base.right
  }

  predicate RightInside(base: Rect, k: Rect) {
    k.right > base.left && k.right < base.right
  }

  predicate TopInside(base: Rect, k: Rect) {
    k.top < base.bottom && k.top > base.top
  }

  predicate BottomInside(base: Rect, k: Rect) {
    k.bottom < base.bottom && k.bottom > base.top
  }

  /** What the count pass leaves in `rect_count`: the knife edges strictly inside `rdest`. */
  function CountPass(rdest: Rect, k: Rect): (n: int)
    ensures 0 <= n <= 4
  {
    (if LeftInside(rdest, k) then 1 else 0) + (if RightInside(rdest, k) then 1 else 0)
      + (if TopInside(rdest, k) then 1 else 0) + (if BottomInside(rdest, k) then 1 else 0)
  }

  // ---- The write pass (rect.c:52-102), one step at a time ----

  /** The pieces written so far and the current `baserect`. */
  datatype Carving = Carving(pieces: seq<Rect>, base: Rect)

  /** rect.c:53-63: the strip left of the knife, full height; the base's left edge moves to the knife's. */
  function CutLeft(c: Carving, k: Rect): Carving {
    if LeftInside(c.base, k) then
      Carving(c.pieces + [Rect(c.base.top, c.base.left, c.base.bottom, k.left)], c.base.(left := k.left))
    else c
  }

  /** rect.c:66-76: the strip above the knife, across the remaining width; the top edge moves down. */
  function CutTop(c: Carving, k: Rect): Carving {
    if TopInside(c.base, k) then
      Carving(c.pieces + [Rect(c.base.top, c.base.left, k.top, c.base.right)], c.base.(top := k.top))
    else c
  }

  /** rect.c:79-89: the strip right of the knife; the right edge moves in. */
  function CutRight(c: Carving, k: Rect): Carving {
    if RightInside(c.base, k) then
      Carving(c.pieces + [Rect(c.base.top, k.right, c.base.bottom, c.base.right)], c.base.(right := k.right))
    else c
  }

  /** rect.c:92-102: the strip below the knife; the bottom edge moves up. */
  function CutBottom(c: Carving, k: Rect): Carving {
    if BottomInside(c.base, k) then
      Carving(c.pieces + [Rect(k.bottom, c.base.left, c.base.bottom, c.base.right)], c.base.(bottom := k.bottom))
    else c
  }

  /** The four steps in the order splitRect takes them, starting from `baserect` = `rdest`. */
  function Carve(rdest: Rect, k: Rect): Carving {
    CutBottom(CutRight(CutTop(CutLeft(Carving([], rdest), k), k), k), k)
  }

  // ---- The method ----

  /**
   * splitRect: the array has one slot per counted edge, the writes stay
   * inside it, and its first `outCount` slots are the pieces of `Carve`.
   * `rdest` and the knife are values and are not changed.
   */
  method SplitRect(rdest: Rect, rknife: Rect) returns (outrect: array<Rect>, outCount: int)
    ensures fresh(outrect)
    ensures outrect.Length == CountPass(rdest, rknife)
    ensures 0 <= outCount <= outrect.Length
    ensures outrect[..outCount] == Carve(rdest, rknife).pieces
  {
    var baserect := rdest;
    var rectCount := CountCuts(baserect, rknife);
    outrect := new Rect[rectCount];
    ghost var c := Carving([], rdest);
    rectCount := 0;
    WritesFit(rdest, rknife);

    if rknife.left > baserect.left && rknife.left < baserect.right {
      rectCount := Emit(outrect, rectCount, Rect(baserect.top, baserect.left, baserect.bottom, rknife.left));
      baserect := baserect.(left := rknife.left);
    }
    c := CutLeft(c, rknife);
    assert outrect[..rectCount] == c.pieces && baserect == c.base;

    if rknife.top < baserect.bottom && rknife.top > baserect.top {
      rectCount := Emit(outrect, rectCount, Rect(baserect.top, baserect.left, rknife.top, baserect.right));
      baserect := baserect.(top := rknife.top);
    }
    c := CutTop(c, rknife);
    assert outrect[..rectCount] == c.pieces && baserect == c.base;

    if rknife.right > baserect.left && rknife.right < baserect.right {
      rectCount := Emit(outrect, rectCount, Rect(baserect.top, rknife.right, baserect.bottom, baserect.right));
      baserect := baserect.(right := rknife.right);
    }
    c := CutRight(c, rknife);
    assert outrect[..rectCount] == c.pieces && baserect == c.base;

    if rknife.bottom > baserect.top && rknife.bottom < baserect.bottom {
      rectCount := Emit(outrect, rectCount, Rect(rknife.bottom, baserect.left, baserect.bottom, baserect.right));
      baserect := baserect.(bottom := rknife.bottom);
    }
    c := CutBottom(c, rknife);
    assert outrect[..rectCount] == c.pieces;

    outCount := rectCount;
  }

  /** The count pass, rect.c:37-47: one for each knife edge strictly inside `base`. */
  method CountCuts(base: Rect, rknife: Rect) returns (rectCount: int)
    ensures rectCount == CountPass(base, rknife)
  {
    rectCount := 0;
    if rknife.left > base.left && rknife.left < base.right {
      rectCount := rectCount + 1;
    }
    if rknife.right > base.left && rknife.right < base.right {
      rectCount := rectCount + 1;
    }
    if rknife.top < base.bottom && rknife.top > base.top {
      rectCount := rectCount + 1;
    }
    if rknife.bottom < base.bottom && rknife.bottom > base.top {
      rectCount := rectCount + 1;
    }
  }

  /** `outrect[rect_count] = piece; rect_count++`: one more piece after those already written. */
  method Emit(outrect: array<Rect>, n: int, piece: Rect) returns (n': int)
    requires 0 <= n < outrect.Length
    modifies outrect
    ensures n' == n + 1
    ensures outrect[..n'] == old(outrect[..n]) + [piece]
  {
    outrect[n] := piece;
    n' := n + 1;
  }

  // ---- Properties of the carving ----

  /**
   * The writes never exceed the allocation: after each step the number
   * of pieces is at most the number of counted edges that step can have
   * used, because each write condition implies its count condition.
   */
  lemma WritesFit(rdest: Rect, k: Rect)
    ensures var c1 := CutLeft(Carving([], rdest), k);
      |c1.pieces| == (if LeftInside(rdest, k) then 1 else 0)
    ensures var c2 := CutTop(CutLeft(Carving([], rdest), k), k);
      |c2.pieces| == (if LeftInside(rdest, k) then 1 else 0) + (if TopInside(rdest, k) then 1 else 0)
    ensures var c3 := CutRight(CutTop(CutLeft(Carving([], rdest), k), k), k);
      |c3.pieces| <= (if LeftInside(rdest, k) then 1 else 0) + (if TopInside(rdest, k) then 1 else 0)
        + (if RightInside(rdest, k) then 1 else 0)
    ensures |Carve(rdest, k).pieces| <= CountPass(rdest, k)
  {
    var c1 := CutLeft(Carving([], rdest), k);
    var c2 := CutTop(c1, k);
    var c3 := CutRight(c2, k);
    assert RightInside(c2.base, k) ==> RightInside(rdest, k);
    assert BottomInside(c3.base, k) ==> BottomInside(rdest, k);
  }

  /** With a proper knife (left < right, top < bottom) every counted edge is cut: the array is filled exactly. */
  lemma CountsAgree(rdest: Rect, k: Rect)
    requires k.left < k.right && k.top < k.bottom
    ensures |Carve(rdest, k).pieces| == CountPass(rdest, k)
  {
    var c1 := CutLeft(Carving([], rdest), k);
    var c2 := CutTop(c1, k);
    var c3 := CutRight(c2, k);
    assert RightInside(c2.base, k) <==> RightInside(rdest, k);
    assert BottomInside(c3.base, k) <==> BottomInside(rdest, k);
  }

  /** An inverted knife can leave slots unwritten: the count pass sees both vertical edges, the write pass cuts once. */
  lemma InvertedKnifeUnderfills()
    ensures var rdest, k := Rect(0, 0, 10, 10), Rect(0, 5, 10, 3);
      CountPass(rdest, k) == 2 && |Carve(rdest, k).pieces| == 1
  {
  }

  /** How many of the rectangles contain the cell (x, y). */
  function CoverCount(rs: seq<Rect>, x: int, y: int): nat {
    if rs == [] then 0 else (if InRect(rs[0], x, y) then 1 else 0) + CoverCount(rs[1..], x, y)
  }

  lemma {:induction false} CoverCountAppend(a: seq<Rect>, b: seq<Rect>, x: int, y: int)
    ensures CoverCount(a + b, x, y) == CoverCount(a, x, y) + CoverCount(b, x, y)
  {
    if a != [] {
      assert (a + b)[1..] == a[1..] + b;
      CoverCountAppend(a[1..], b, x, y);
    } else {
      assert a + b == b;
    }
  }

  lemma CoverCountPair(r: Rect, s: Rect, x: int, y: int)
    ensures CoverCount([r, s], x, y) == (if InRect(r, x, y) then 1 else 0) + (if InRect(s, x, y) then 1 else 0)
  {
    assert [r, s][1..] == [s];
    assert [s][1..] == [];
    assert CoverCount([s], x, y) == (if InRect(s, x, y) then 1 else 0) + CoverCount([], x, y);
  }

  /** The pieces so far and the current base cover every cell of `rdest` exactly once, and nothing else. */
  ghost predicate Tiles(c: Carving, rdest: Rect) {
    forall x: int, y: int :: CoverCount(c.pieces + [c.base], x, y) == (if InRect(rdest, x, y) then 1 else 0)
  }

  /** A step replaces the base by a piece and a new base that split its cells between them. */
  lemma StepTiles(c: Carving, c': Carving, piece: Rect, rdest: Rect)
    requires Tiles(c, rdest)
    requires c'.pieces == c.pieces + [piece]
    requires forall x: int, y: int ::
      (if InRect(piece, x, y) then 1 else 0) + (if InRect(c'.base, x, y) then 1 else 0) == (if InRect(c.base, x, y) then 1 else 0)
    ensures Tiles(c', rdest)
  {
    forall x: int, y: int
      ensures CoverCount(c'.pieces + [c'.base], x, y) == (if InRect(rdest, x, y) then 1 else 0)
    {
      assert c'.pieces + [c'.base] == c.pieces + [piece, c'.base];
      CoverCountAppend(c.pieces, [piece, c'.base], x, y);
      CoverCountPair(piece, c'.base, x, y);
      CoverCountAppend(c.pieces, [c.base], x, y);
      assert CoverCount([c.base], x, y) == (if InRect(c.base, x, y) then 1 else 0) by {
        assert [c.base][1..] == [];
      }
    }
  }

  lemma CutLeftTiles(c: Carving, k: Rect, rdest: Rect)
    requires Tiles(c, rdest)
    ensures Tiles(CutLeft(c, k), rdest)
  {
    if LeftInside(c.base, k) {
      StepTiles(c, CutLeft(c, k), Rect(c.base.top, c.base.left, c.base.bottom, k.left), rdest);
    }
  }

  lemma CutTopTiles(c: Carving, k: Rect, rdest: Rect)
    requires Tiles(c, rdest)
    ensures Tiles(CutTop(c, k), rdest)
  {
    if TopInside(c.base, k) {
      StepTiles(c, CutTop(c, k), Rect(c.base.top, c.base.left, k.top, c.base.right), rdest);
    }
  }

  lemma CutRightTiles(c: Carving, k: Rect, rdest: Rect)
    requires Tiles(c, rdest)
    ensures Tiles(CutRight(c, k), rdest)
  {
    if RightInside(c.base, k) {
      StepTiles(c, CutRight(c, k), Rect(c.base.top, k.right, c.base.bottom, c.base.right), rdest);
    }
  }

  lemma CutBottomTiles(c: Carving, k: Rect, rdest: Rect)
    requires Tiles(c, rdest)
    ensures Tiles(CutBottom(c, k), rdest)
  {
    if BottomInside(c.base, k) {
      StepTiles(c, CutBottom(c, k), Rect(k.bottom, c.base.left, c.base.bottom, c.base.right), rdest);
    }
  }

  /**
   * The pieces together with the final `baserect` tile `rdest`: every
   * cell of `rdest` lies in exactly one of them, and no other cell lies
   * in any.
   */
  lemma CarveTiles(rdest: Rect, k: Rect, x: int, y: int)
    ensures var c := Carve(rdest, k);
      CoverCount(c.pieces + [c.base], x, y) == (if InRect(rdest, x, y) then 1 else 0)
  {
    var c0 := Carving([], rdest);
    assert Tiles(c0, rdest) by {
      forall x: int, y: int
        ensures CoverCount(c0.pieces + [c0.base], x, y) == (if InRect(rdest, x, y) then 1 else 0)
      {
        assert c0.pieces + [c0.base] == [rdest];
        assert [rdest][1..] == [];
      }
    }
    var c1 := CutLeft(c0, k);
    CutLeftTiles(c0, k, rdest);
    var c2 := CutTop(c1, k);
    CutTopTiles(c1, k, rdest);
    var c3 := CutRight(c2, k);
    CutRightTiles(c2, k, rdest);
    CutBottomTiles(c3, k, rdest);
  }

  /** No piece shares a cell with the knife. */
  ghost predicate AvoidKnife(c: Carving, k: Rect) {
    forall i, x: int, y: int | 0 <= i < |c.pieces| && InRect(c.pieces[i], x, y) :: !InRect(k, x, y)
  }

  /** Every piece lies within `rdest`, and so does the final base. */
  ghost predicate InsideDest(c: Carving, rdest: Rect) {
    Within(c.base, rdest) && forall i | 0 <= i < |c.pieces| :: Within(c.pieces[i], rdest)
  }

  /**
   * Every step moves one edge of `baserect` inward and only ever shrinks
   * it; its piece lies inside the old base and on the far side of a knife
   * edge.
   */
  lemma CutsShrink(c: Carving, k: Rect, rdest: Rect)
    requires InsideDest(c, rdest) && AvoidKnife(c, k)
    ensures InsideDest(CutLeft(c, k), rdest) && AvoidKnife(CutLeft(c, k), k)
    ensures InsideDest(CutTop(c, k), rdest) && AvoidKnife(CutTop(c, k), k)
    ensures InsideDest(CutRight(c, k), rdest) && AvoidKnife(CutRight(c, k), k)
    ensures InsideDest(CutBottom(c, k), rdest) && AvoidKnife(CutBottom(c, k), k)
    ensures Within(CutLeft(c, k).base, c.base) && Within(CutTop(c, k).base, c.base)
    ensures Within(CutRight(c, k).base, c.base) && Within(CutBottom(c, k).base, c.base)
  {
  }

  /** Every piece lies within `rdest` and outside the knife, and `baserect` ends within `rdest`. */
  lemma CarveInside(rdest: Rect, k: Rect)
    ensures InsideDest(Carve(rdest, k), rdest)
    ensures AvoidKnife(Carve(rdest, k), k)
  {
    var c0 := Carving([], rdest);
    var c1 := CutLeft(c0, k);
    var c2 := CutTop(c1, k);
    var c3 := CutRight(c2, k);
    CutsShrink(c0, k, rdest);
    CutsShrink(c1, k, rdest);
    CutsShrink(c2, k, rdest);
    CutsShrink(c3, k, rdest);
  }

  /** The cells two rectangles share, as a rectangle. */
  function Overlap(a: Rect, b: Rect): Rect {
    Rect(if a.top < b.top then b.top else a.top, if a.left < b.left then b.left else a.left,
         if a.bottom < b.bottom then a.bottom else b.bottom, if a.right < b.right then a.right else b.right)
  }

  /** The knife is proper and meets `rdest` in at least one cell. */
  predicate Overlaps(rdest: Rect, k: Rect) {
    k.left < k.right && k.top < k.bottom
    && k.left < rdest.right && rdest.left < k.right && k.top < rdest.bottom && rdest.top < k.bottom
  }

  /** With an overlapping knife, the final `baserect` is exactly the overlap of `rdest` and the knife. */
  lemma CarveLeavesOverlap(rdest: Rect, k: Rect)
    requires Overlaps(rdest, k)
    ensures Carve(rdest, k).base == Overlap(rdest, k)
  {
  }

  /**
   * With an overlapping knife, the pieces are `rdest` minus the knife:
   * every cell of `rdest` outside the knife lies in exactly one piece,
   * and no other cell lies in any.
   */
  lemma CarveSubtracts(rdest: Rect, k: Rect, x: int, y: int)
    requires Overlaps(rdest, k)
    ensures CoverCount(Carve(rdest, k).pieces, x, y) == (if InRect(rdest, x, y) && !InRect(k, x, y) then 1 else 0)
  {
    var c := Carve(rdest, k);
    CarveTiles(rdest, k, x, y);
    CoverCountAppend(c.pieces, [c.base], x, y);
    assert [c.base][1..] == [];
    CarveLeavesOverlap(rdest, k);
    assert InRect(c.base, x, y) <==> InRect(rdest, x, y) && InRect(k, x, y);
  }

  /** A knife that covers `rdest` cuts nothing: no pieces, and `baserect` stays `rdest`. */
  lemma CoveringKnifeCutsNothing(rdest: Rect, k: Rect)
    requires Within(rdest, k)
    ensures Carve(rdest, k) == Carving([], rdest)
  {
  }
}
