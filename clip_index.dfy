/**
 * The index selection both clippers share, written with the same nested
 * conditionals in main.c:780-782 / main.c:839-841 and texture.c:80-82 /
 * texture.c:126-128. `m0`, `m1`, `m2` are the entries of `point_marked`.
 */
module ClipIndex {

  /** The vertex that is handled on its own (`original`) and the other two (`fixed[0]`, `fixed[1]`). */
  datatype Selection = Selection(original: int, fixed0: int, fixed1: int)

  function Marked(m0: bool, m1: bool, m2: bool, i: int): bool {
    if i == 0 then m0 else if i == 1 then m1 else m2
  }

  function CountMarked(m0: bool, m1: bool, m2: bool): int {
    (if m0 then 1 else 0) + (if m1 then 1 else 0) + (if m2 then 1 else 0)
  }

  /** `original` and `fixed` are a rearrangement of the slots 0, 1, 2 with fixed[0] < fixed[1]. */
  predicate IsSplit(sel: Selection) {
    && 0 <= sel.fixed0 < sel.fixed1 <= 2
    && 0 <= sel.original <= 2
    && sel.original != sel.fixed0 && sel.original != sel.fixed1
  }

  /** A split names every slot exactly once. */
  lemma SplitCoversSlots(sel: Selection, i: int)
    requires IsSplit(sel) && 0 <= i < 3
    ensures i == sel.original || i == sel.fixed0 || i == sel.fixed1
    ensures sel.original + sel.fixed0 + sel.fixed1 == 3
  {
  }

  /** The `case 1:` selection: one vertex is marked. */
  function SelectOneOut(m0: bool, m1: bool, m2: bool): (sel: Selection)
    ensures CountMarked(m0, m1, m2) == 1 ==>
      && IsSplit(sel)
      && Marked(m0, m1, m2, sel.original)
      && !Marked(m0, m1, m2, sel.fixed0) && !Marked(m0, m1, m2, sel.fixed1)
  {
    var fixed0 := if m0 then (if m1 then 2 else 1) else 0;
    var fixed1 :=
      if fixed0 == 0 then (if m1 then 2 else 1)
      else if fixed0 == 1 then (if m0 then 2 else 0)
      else (if m0 then 1 else 0);
    var original := if m0 then 0 else if m1 then 1 else 2;
    Selection(original, fixed0, fixed1)
  }

  /** The `case 2:` selection: two vertices are marked, `original` is the one kept. */
  function SelectTwoOut(m0: bool, m1: bool, m2: bool): (sel: Selection)
    ensures CountMarked(m0, m1, m2) == 2 ==>
      && IsSplit(sel)
      && !Marked(m0, m1, m2, sel.original)
      && Marked(m0, m1, m2, sel.fixed0) && Marked(m0, m1, m2, sel.fixed1)
  {
    var original := if m0 then (if m1 then 2 else 1) else 0;
    var fixed0 := if m0 then 0 else if m1 then 1 else 2;
    var fixed1 :=
      if fixed0 == 0 then (if m1 then 1 else 2)
      else if fixed0 == 1 then (if m0 then 0 else 2)
      else (if m0 then 0 else 1);
    Selection(original, fixed0, fixed1)
  }
}
