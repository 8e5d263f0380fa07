# A verified model of the lestertoo software renderer core

lestertoo is a small SDL software renderer written in C. This project models its core in Dafny and proves properties of that model. The core has three parts.

**main.c.** The textured, depth-buffered triangle pipeline:
- `clear_zbuf` / `init_zbuf` reset the 16-bit depth buffer to 0xFFFF.
- `TO_SCREEN_X/Y/Z` and `project` turn camera space into pixels and depths.
- `clip_and_render` clips a triangle against the near plane z = 0.1 and the far plane z = 20. It uses two passes and recursive calls on the pieces.
- `draw_triangle` projects the triangle, sorts the vertices by y and walks the rows.
- `draw_scanline` interpolates depth and texture coordinates along a row. It draws a texel wherever the depth test passes.

**texture.c.** The two-dimensional prototype of the clipper. `render_clipped_triangles` and its predecessor `render_clipped_triangles_old` clip against y = 0 and y = 0.5.

**rect.c.** `splitRect` carves a rectangle into strips around a "knife" rectangle that occludes part of it.

C floats are Dafny `real`s. The three float-to-integer conversions are written out:
- a cast truncates toward zero;
- `lround` rounds halfway cases away from zero;
- `floor` rounds down.

State the C code updates in place is modelled as follows:
- The depth buffer is a class holding an `array<u16>`.
- The loops are methods with loop invariants.
- The stack arrays `point_marked`, `new_point` and `out_triangle` are arrays.
- `splitRect`'s output is a fresh `array<Rect>`.

Each method is proved equal to a reference function: `TwoPass` for the clippers, `SpanBuffer`/`TriangleBuffer`/`DrawAll` for drawing, and `Carve` for `splitRect`. The properties the code and its comments promise are then proved about those functions.

Things the proofs bring out about the source:
- **Swap block in draw_scanline** (main.c:527-530). The block meant to swap v swaps u a second time. So whenever a span is drawn right to left, its texture coordinates still run from the first argument's to the second's (`Span.SpanEnds`).
- **Stale stack slots in clip_and_render.** `clone_vertex` copies neither u nor v, and nothing copies the texture pointer. A split piece therefore takes those from whatever the stack slot `out_triangle[k]` held (`Clipper.ClipOnceAttributes`). The model makes that content a parameter (`Stale`).
- **Winding in texture.c** (texture.c:110-114 and 156-158). The comment "maintaining the CW or CCW ordering" holds only when the vertex on the other side of the line is in slot 0 or slot 2. texture.c lists a piece's vertices in the order (original, fixed[0], fixed[1]), so when that vertex is in slot 1 every piece comes out wound the other way (`TextureClipper.ClipOnceWinding`, `TextureClipper.WindingReversedExample`). main.c writes each vertex back into its own slot, so its pieces keep the input's winding (`Clipper.TwoPassFacing`).
- **Inverted knife in splitRect.** A knife with left > right (or top > bottom) can be counted twice in the count pass but cut only once in the write pass. The array is then longer than `out_count` (`RectSplit.InvertedKnifeUnderfills`).

Modules:
- `Numerics`: widths and conversions.
- `Geometry`: the records and the normal.
- `Projector`: projection.
- `ClipIndex`: the ternary index selection shared by both clippers.
- `Clipper`: main.c's clipper.
- `Raster`: the sort and the edges.
- `Span`: draw_scanline's specification.
- `Fill`: draw_triangle's and drawing's specification.
- `Render`: the depth-buffer class and its methods.
- `TextureClipper`: texture.c.
- `RectSplit`: rect.c.

## Model

| member | source | states |
|---|---|---|
| Numerics.Trunc | main.c:14-16 | The C cast to an integer: a non-negative value is floored and a negative one is rounded up, so the result is the integer part toward zero. |
| Numerics.LRound | main.c:549-568 | `lround`: the result is within 0.5 of the argument; a non-negative argument rounds to the nearest integer with halves going up, a negative one with halves going down. |
| Numerics.LRoundMonotone | main.c:549 | Rounding never reverses the order of two values. |
| Numerics.TruncMonotone | main.c:14-16 | Truncation never reverses the order of two values. |
| Numerics.Clamp01 | main.c:505-508 | The texture-coordinate clamp lands in [0, 1], returns values already in [0, 1] unchanged, and sends values below 0 to 0 and above 1 to 1. |
| Projector.ScreenZ | main.c:16 | TO_SCREEN_Z: a z before the eye or beyond SCREEN_DEPTH encodes as 65535; otherwise the depth is z * 65535 / 20 truncated. |
| Projector.ScreenZEnds | main.c:16 | The eye encodes as depth 0 and the far plane as 65535. |
| Projector.ScreenZMonotone | main.c:16 | For z >= 0 the depth encoding never decreases as z grows. |
| Projector.ScreenXYMonotone | main.c:14-15 | TO_SCREEN_X is monotone in x and TO_SCREEN_Y is antitone in y (screen y grows downward). |
| Projector.PerspectiveScale | main.c:480 | The perspective factor is 1 for z = 0 and otherwise the value that multiplied by z gives the focal length. |
| Projector.Project | main.c:478-488 | `project` carries u and v through and encodes depth with TO_SCREEN_Z. |
| Projector.ProjectAxis | main.c:478-488 | A point on the view axis lands at the screen centre (320, 240). At z = 0 the perspective factor is 1 and the pixel is (ScreenX(x), ScreenY(y)). The macros send a scaled coordinate (x times the perspective factor `focal_length / z`) of ±1 to half a viewport height either side of the centre, ScreenX(±1) = 320 ± 240, and ScreenY(+1) = 0, ScreenY(-1) = 480. |
| Projector.ProjectAlongRay | main.c:478-488 | Perspective: all points (k x, k y, k z) with k > 0 and z != 0 project to the same pixel. |
| Geometry.CloneVertex | main.c:177-183 | Reference definition, no own contract: the copy takes x, y, z and the colour from the source and keeps the destination's u and v. Clipper.Fill and Clipper.ClipOnceAttributes state what this means for split pieces. |
| Geometry.Normal | main.c:597-609 | Reference definition, no own contract: the normal before normalisation, (v0 - v2) x (v1 - v2). Clipper.TwoPassFacing and Fill.BackFacingScale state how clipping and culling treat it. |
| Clipper.Outside | main.c:755-765 | Reference definition, no own contract: the near pass marks z < 0.1 and the far pass marks z > 20. Clipper.MarkVertices proves the classification loop computes exactly these marks. |
| Clipper.Count | main.c:755-765 | Reference definition, no own contract: the number of marked vertices. Clipper.MarkVertices proves the loop returns it, and Clipper.ClipOnceCases branches on it. |
| Clipper.Intersect | main.c:788-875 | A new vertex lies on the plane, carries fix's colour, and is the point at the crossing parameter of the edge from fix toward orig. Both cases use it: in `case 1:` fix is a kept vertex, in `case 2:` a cut one. |
| Clipper.IntersectIsEdgeCrossing | main.c:788-815 | Any point of the edge at the plane's depth equals the computed intersection in every attribute: the formula finds the unique crossing. |
| Clipper.CrossingBetween | main.c:755-815 | When the classification marks the cut vertex and not the kept one, the divisor dz is non-zero and the crossing lies in [0, 1) along the edge. |
| Clipper.CrossingNotPast | main.c:844-875 | In the two-out case the divisor is non-zero and the crossing lies in (0, 1]. |
| Clipper.Fill | main.c:818-827 | clone_vertex into a stack slot copies position and colour into slots original, fixed[0] and fixed[1], and leaves u, v and the texture as the slot had them. |
| Clipper.SelOneFacts | main.c:778-782 | With one vertex out, the selected `original` is the marked vertex, and fixed[0] and fixed[1] are the two unmarked ones, all distinct. |
| Clipper.SelTwoFacts | main.c:837-841 | With two vertices out, the selected `original` is the one unmarked vertex and fixed[0], fixed[1] are the marked ones. |
| Clipper.OneOut | main.c:785-827 | Reference definition, no own contract: the two crossings np0, np1 toward the cut vertex, then the pieces (np0, fixed[0], fixed[1]) in stack slot 0 and (np1, np0, fixed[1]) in slot 1, each vertex in the slot C writes it to. Clipper.OneOutFacing, Clipper.ClipOnceAttributes and Clipper.PieceDepths state its properties. |
| Clipper.TwoOut | main.c:844-880 | Reference definition, no own contract: the kept vertex and the crossings of the edges from the two cut vertices, written into stack slot 0 in their own slots. Clipper.TwoOutFacing, Clipper.ClipOnceAttributes and Clipper.PieceDepths state its properties. |
| Clipper.ClipOnce | main.c:768-895 | One pass against one plane yields at most two pieces. Clipper.ClipOnceCases gives the case split. |
| Clipper.ClipOnceCases | main.c:768-895 | Counts 0, 1, 2 and 3 give the triangle unchanged, the two one-out pieces, the single two-out piece, and nothing. |
| Clipper.TwoPass | main.c:734-909 | Reference definition, no own contract: the near pass, then the far pass on each of its pieces. Clipper.ClipAndRender proves the recursive code equal to it. TwoPassKeeps, TwoPassDiscards, TwoPassDepthRange, TwoPassAtMostFour, TwoPassFacing and TwoPassAttributes state its properties. |
| Clipper.FarPass | main.c:768-895 | Reference definition, no own contract: the far pass applied to each triangle of a sequence, with the pieces kept in order. |
| Clipper.PieceDepths | main.c:788-883 | Every vertex of every piece of a pass is on the kept side of its plane, at the plane's depth or at one of the input's depths. |
| Clipper.MarkVertices | main.c:755-765 | The classification loop leaves `point_marked[i]` set exactly for the vertices outside the current plane and returns their number. |
| Clipper.IntersectEdges | main.c:785-816 | The intersection loop leaves `new_point[i]` equal to the crossing of the edge from fixed[i] to original. |
| Clipper.ClipAndRender | main.c:734-909 | The triangles that reach draw_triangle are exactly the reference TwoPass: the near pass, then the far pass on every piece, in recursion order. |
| Clipper.RenderSplit | main.c:778-883 | The one-out and two-out branches, with their recursive calls, draw exactly TwoPass of the triangle. |
| Clipper.TwoPassRecurses | main.c:830-883 | Running both passes on each piece of one pass gives both passes of the whole triangle, so the recursion restarting at the near plane computes the two-pass result. |
| Clipper.TwoPassKeeps | main.c:891-908 | A triangle between the two planes is drawn once and unchanged. |
| Clipper.TwoPassDiscards | main.c:772-774 | A triangle wholly in front of the near plane or wholly beyond the far plane is not drawn. |
| Clipper.TwoPassDepthRange | main.c:750-905 | Every vertex of every drawn triangle has 0.1 <= z <= 20. |
| Clipper.TwoPassAtMostFour | main.c:778-883 | One input triangle reaches draw_triangle at most four times. |
| Clipper.TwoPassFacing | main.c:818-880 | Every drawn piece's normal is a non-negative multiple of the input's normal: clipping keeps the CW/CCW ordering, as the comment promises. |
| Clipper.ClipOnceFacing | main.c:818-880 | The same for the pieces of one pass. |
| Clipper.OneOutFacing | main.c:818-827 | Both one-out pieces keep the input's winding. |
| Clipper.TwoOutFacing | main.c:877-880 | The two-out piece keeps the input's winding. |
| Clipper.TwoPassAttributes | main.c:818-880 | Every drawn triangle is the input itself, or carries the texture and texture coordinates of one of the two stack slots. |
| Clipper.ClipOnceAttributes | main.c:818-880 | The one-out pieces take u, v and the texture from out_triangle[0] and [1] respectively, and the two-out piece from out_triangle[0]. |
| ClipIndex.SelectOneOut | main.c:780-782 | The nested ternaries of `case 1:` pick the one marked vertex as `original` and the other two, in increasing order, as fixed[0] < fixed[1]. |
| ClipIndex.SelectTwoOut | main.c:839-841 | The nested ternaries of `case 2:` pick the one unmarked vertex as `original` and the two marked ones as fixed[0] < fixed[1]. |
| ClipIndex.SplitCoversSlots | main.c:780-782 | A selection names every vertex slot exactly once. |
| Raster.Ratio | main.c:676-687 | `d ? n / d : 0`: zero for a zero divisor, otherwise the quotient that multiplied by d gives n. |
| Raster.SortByY | main.c:642-657 | The three compare-swaps yield a permutation (f, s, t) of 0, 1, 2 with non-decreasing y, and ties keep their index order. |
| Raster.SortedByYUnique | main.c:642-657 | Only one permutation meets that condition, so the sort's answer is fully determined. |
| Raster.EdgeAt | main.c:676-724 | Reference definition, no own contract: at a row, each attribute of an edge is slope times (row - first.y) plus the first vertex's value, and the slope is 0 for a horizontal edge. Raster.EdgeEnds, Raster.HorizontalEdgeConstant and Raster.EdgeXBetween state its properties. |
| Raster.RowEndpoints | main.c:699-731 | Reference definition, no own contract: above the middle vertex's row the span runs from edge f -> s, from that row on from edge s -> t, and always to the long edge f -> t. Raster.RowEndpointsJoin and Fill.RowsStep state its properties. |
| Raster.EdgeEnds | main.c:699-724 | An interpolated edge passes through its first vertex, and through its second unless it is horizontal. |
| Raster.HorizontalEdgeConstant | main.c:676-687 | A horizontal edge has slope 0, so every row gets its first vertex's attributes. |
| Raster.EdgeXBetween | main.c:699-724 | Between its two rows an edge's x stays between its vertices' x. |
| Raster.RowEndpointsJoin | main.c:699-731 | The first row starts both span ends at the top vertex, and the short edge is continuous at the middle vertex's row. |
| Span.NormalizeSpan | main.c:504-539 | After the prologue the first column, floor(x0), never lies to the right of x1. |
| Span.SpanEnds | main.c:504-539 | The span runs from the left end's floored x to the right end's x, and its depth from the left end's z to the right end's. Its u and v, however, run from the first argument's to the second's whichever side each is on: the swap block exchanges u twice and v never. |
| Span.PrologueEnds | main.c:533-539 | The interpolation reaches the right-hand values at x1, and the left-hand values at floor(x0) when the span is wider than one point. |
| Span.PrologueBetween | main.c:533-549 | Between floor(x0) and x1 every interpolated attribute stays between its two end values. |
| Span.ZAt | main.c:548 | Reference definition, no own contract: the depth at column x is mz (x - x1) + z1. Span.PrologueEnds, Span.PrologueBetween and Span.DepthAt state its properties. |
| Span.UAt | main.c:556 | Reference definition, no own contract: u at column x is mu (x - x1) + u1. Span.PrologueEnds, Span.PrologueBetween and Span.InterpolationInRange state its properties. |
| Span.VAt | main.c:560 | Reference definition, no own contract: v at column x is mv (x - x1) + v1. Span.PrologueEnds, Span.PrologueBetween and Span.InterpolationInRange state its properties. |
| Span.InterpolationInRange | main.c:504-557 | Inside a span the depth stays between the endpoint depths, and both texture coordinates stay in [0, 1]. |
| Span.ClampDepth | main.c:549 | The clamp before rounding lands in [0, 65535], returns values already in range unchanged, and sends values above 65535 to 65535 and below 0 to 0. |
| Span.DepthAt | main.c:548-549 | A column's 16-bit depth is within 0.5 of its clamped interpolated depth. |
| Span.TexCoord | main.c:557-561 | Rounding a coordinate in [0, 1] scaled by size - 1 gives an index in [0, size - 1]. |
| Span.TexelIndex | main.c:553-565 | At every column of the span, the texel index `newv * width + newu` is inside the texture's data. |
| Span.ChannelsOfPacked | main.c:564 | Unpacking the 0xRRGGBB texel gives back its red, green and blue bytes. |
| Span.SpanOffScreen | main.c:501-502 | A row off the screen returns at once and leaves the buffer untouched. |
| Span.SpanBuffer | main.c:493-573 | A reference definition whose own contract states only that the buffer's size is unchanged. Every covered column whose depth beats the old entry takes that depth, and every other entry is untouched. Span.SpanOnlyLowers, Span.SpanTakesMinimum, Span.SpanIdempotent and Span.SpansCommute state its properties. |
| Span.SpanPixels | main.c:493-573 | Reference definition, no own contract: the points of the lit columns from left to right, none for a row off the screen. Span.SpanPixelsAreLowered states its properties. |
| Span.SpanOnlyLowers | main.c:539-572 | The depth test keeps the nearer value: no entry grows. An entry changes only on the span's row, at a covered column, and only to that column's depth. |
| Span.SpanTakesMinimum | main.c:547-571 | Every covered column ends at the smaller of its old depth and the span's depth there. |
| Span.SpanIdempotent | main.c:539-572 | Drawing the same span twice leaves the buffer as drawing it once. |
| Span.SpansCommute | main.c:539-572 | The buffer does not depend on the order in which two spans are drawn. |
| Span.SpanPixelsAreLowered | main.c:539-572 | The points drawn are on the span's row, on screen and strictly left to right. Each is a column whose entry the span lowers, and every lowered entry has its point. |
| Span.ColumnStep | main.c:540-571 | One column: it is drawn exactly when its depth is below the entry as it stood before. A drawn column writes that entry alone and emits one point coloured by its texel, and any other column changes nothing. |
| Span.ColumnValues | main.c:546-561 | The values the loop computes at column x are the span's rounded clamped depth and coordinates in [0, 1] whose scaled roundings give the texel index. |
| Render.DepthBuffer.constructor | main.c:91-101 | init_zbuf allocates a 640 x 480 buffer with every entry 0xFFFF. |
| Render.DepthBuffer.Clear | main.c:86-89 | clear_zbuf sets every entry to 0xFFFF, the far plane. |
| Render.DepthBuffer.DrawScanline | main.c:493-573 | draw_scanline leaves the buffer as SpanBuffer of the old buffer and returns exactly the points SpanPixels lists. |
| Render.DepthBuffer.FillColumns | main.c:539-572 | The column loop, given the prologue's values, leaves the buffer as SpanBuffer and emits the points of every column up to floor(x1). |
| Render.DepthBuffer.DrawColumn | main.c:540-571 | One pass of the column loop extends the buffer and the points by that column's contribution. |
| Render.DepthBuffer.DrawTriangle | main.c:575-732 | draw_triangle leaves the buffer as TriangleBuffer and returns TrianglePixels: nothing if the triangle is skipped, otherwise the spans of its rows. |
| Render.DepthBuffer.DrawRows | main.c:659-731 | The row loop draws, for every row from the top vertex's to the one above the bottom vertex's, the span between the long edge and the short edge. |
| Render.DepthBuffer.ClipAndDraw | main.c:734-909 | clip_and_render with drawing leaves the buffer as DrawAll of the TwoPass pieces, in recursion order, and every piece has a valid texture. |
| Render.TwoPassTextures | main.c:818-880 | Every drawn piece takes its texture from the input or from a stack slot, so it is valid when those are. |
| Render.ClippedPiecesCullLikeOriginal | main.c:611-622 | A clipped piece is culled only if its source triangle would be, and a non-degenerate piece is culled whenever the source is. |
| Fill.BackFacing | main.c:611-622 | Reference definition, no own contract: the exact form of `acos(-n.z / length(n)) >= 3 pi / 4`, n.z > 0 and n.x^2 + n.y^2 <= n.z^2, which is false for a zero normal. Fill.BackFacingScale and Render.ClippedPiecesCullLikeOriginal state its properties. |
| Fill.Skipped | main.c:594-622 | Reference definition, no own contract: draw_triangle returns early when all three vertices have z < 0 or the triangle is back-facing. Fill.TriangleOnlyLowers states that a skipped triangle changes nothing. |
| Fill.ProjectAll | main.c:638-640 | The three projected points are `project` of the three vertices. |
| Fill.RowsStep | main.c:699-731 | Each iteration of the row loop draws its span into the buffer the earlier rows left, when the row is on screen, and changes nothing otherwise. |
| Fill.RowsBuffer | main.c:699-731 | A reference definition whose own contract states only that the buffer's size is unchanged. It gives the buffer after the rows from the top vertex's up to a bound. Fill.RowsStep and Render.DepthBuffer.DrawRows state its properties. |
| Fill.TriangleBuffer | main.c:575-732 | A reference definition whose own contract states only that the buffer's size is unchanged. A skipped triangle leaves the buffer as it was. Otherwise the buffer is that of the rows from the top projected vertex to the bottom one. Fill.TriangleIsMin, Fill.TriangleOnlyLowers and Fill.TrianglesCommute state its properties. |
| Fill.DrawAll | main.c:734-909 | A reference definition whose own contract states only that the buffer's size is unchanged. It draws the triangles of a sequence one after another. Fill.DrawAllIsMin and Fill.DrawOrderIrrelevant state its properties. |
| Fill.BackFacingScale | main.c:611-622 | Scaling a normal by a positive factor does not change the cull decision; a zero normal is never culled. |
| Fill.TriangleIsMin | main.c:575-732 | Drawing a triangle sets every entry to the smaller of its old value and the depth the triangle offers there. |
| Fill.TriangleOnlyLowers | main.c:575-732 | Drawing a triangle never raises a depth. It changes an entry only if the triangle is not skipped, and only on a screen row from the top projected vertex's to the bottom one's. |
| Fill.TrianglesCommute | main.c:575-732 | The buffer does not depend on the order in which two triangles are drawn. |
| Fill.DrawAllIsMin | main.c:575-732 | Drawing a sequence of triangles sets every entry to the minimum of its old value and all offered depths. |
| Fill.DrawOrderIrrelevant | main.c:575-732 | Two batches of triangles give the same depth buffer whichever is drawn first. |
| TextureClipper.MarkVertices | texture.c:61-67 | The classification loop counts the vertices outside the current line and sets their marks. Marks are only set, never cleared, so the second pass starts with the first pass's marks. |
| TextureClipper.Outside | texture.c:61-67 | Reference definition, no own contract: the first pass marks y < 0 and the second marks y > 0.5. TextureClipper.MarkVertices proves the loop sets these marks. |
| TextureClipper.Count | texture.c:58-67 | Reference definition, no own contract: the number of marked vertices. TextureClipper.MarkVertices proves the loop counts them. |
| TextureClipper.IntersectEdges | texture.c:85-108 | `new_point[i]` is the point of the line on the edge from fixed[i] toward original. |
| TextureClipper.IntersectEdgesOld | texture.c:267-271 | The old formula also yields the crossing point of each cut edge. |
| TextureClipper.CrossX | texture.c:88-107 | Reference definition, no own contract: the new formula `ndy / dy * dx + f.x`. TextureClipper.CrossPoint and TextureClipper.CrossXOldAgrees state its properties. |
| TextureClipper.CrossXOld | texture.c:270 | Reference definition, no own contract: the old formula `o.x + dx (y - o.y) / dy`. TextureClipper.CrossXOldAgrees proves it equal to CrossX. |
| TextureClipper.CrossXOldAgrees | texture.c:270 | In exact arithmetic, the old formula `o.x + ((o.x - f.x)(y - o.y))/(o.y - f.y)` and the new `(ndy/dy) dx + f.x` give the same x. |
| TextureClipper.CrossPoint | texture.c:94-107 | A new point lies on the line and is the point at the crossing parameter of the edge from the fixed vertex toward original. |
| TextureClipper.CrossingBetween | texture.c:61-108 | With original outside and fixed inside, dy is non-zero and the crossing is in [0, 1). |
| TextureClipper.CrossingNotPast | texture.c:131-154 | In the two-out case dy is non-zero and the crossing is in (0, 1]. |
| TextureClipper.SelOneFacts | texture.c:80-82 | In `case 1:` original is the marked vertex and fixed[0], fixed[1] the unmarked ones. |
| TextureClipper.SelTwoFacts | texture.c:126-128 | In `case 2:` original is the unmarked vertex and fixed[0], fixed[1] the marked ones. |
| TextureClipper.OneOut | texture.c:78-122 | Reference definition, no own contract: the pieces (np0, fixed[0], fixed[1]) and (np1, np0, fixed[1]). TextureClipper.OneOutFirstArea, TextureClipper.OneOutSecondArea and TextureClipper.ClipOnceWinding state its properties. |
| TextureClipper.TwoOut | texture.c:124-163 | Reference definition, no own contract: the piece (np0, np1, original). TextureClipper.TwoOutArea and TextureClipper.ClipOnceWinding state its properties. |
| TextureClipper.ClipOnce | texture.c:69-170 | One pass against one line yields at most two pieces. TextureClipper.ClipOnceCases gives the case split. |
| TextureClipper.ClipOnceCases | texture.c:70-170 | Counts 3, 1, 2 and 0 give nothing, two pieces, one piece, and the triangle itself. |
| TextureClipper.TwoPass | texture.c:34-186 | Reference definition, no own contract: the y = 0 pass, then the y = 0.5 pass on each piece. TextureClipper.RenderClippedTriangles proves the recursive code equal to it. |
| TextureClipper.SecondPass | texture.c:56-170 | Reference definition, no own contract: the y = 0.5 pass applied to each triangle of a sequence, in order. |
| TextureClipper.PieceYs | texture.c:88-163 | Every vertex of every piece is on the kept side of the line, at the line's y or at one of the input's. |
| TextureClipper.RenderClippedTriangles | texture.c:34-186 | The triangles handed to draw_triangle are exactly TwoPass: the y = 0 pass, then the y = 0.5 pass on each piece. |
| TextureClipper.RenderSplit | texture.c:78-163 | The one-out and two-out branches, with their recursive calls, draw TwoPass of the triangle. |
| TextureClipper.RenderClippedTrianglesOld | texture.c:188-330 | The old function draws exactly what the new one does. |
| TextureClipper.RenderSplitOld | texture.c:260-307 | Its split branches, which pass their pieces to the new function, draw TwoPass. |
| TextureClipper.TwoPassRecurses | texture.c:113-158 | Both passes applied to each piece of a pass give both passes of the whole, so restarting at y = 0 computes the two-pass result. |
| TextureClipper.TwoPassKeeps | texture.c:167-185 | A triangle with every y in [0, 0.5] is drawn once and unchanged. |
| TextureClipper.TwoPassDiscards | texture.c:73-75 | A triangle wholly below y = 0 or wholly above y = 0.5 is not drawn. |
| TextureClipper.TwoPassYRange | texture.c:56-185 | Every vertex of every drawn triangle has 0 <= y <= 0.5. |
| TextureClipper.TwoPassAtMostFour | texture.c:78-163 | One input reaches draw_triangle at most four times. |
| TextureClipper.SplitArea | texture.c:110-158 | Listing the vertices as (original, fixed[0], fixed[1]) keeps the signed area when original is slot 0 or 2, and negates it when original is slot 1. |
| TextureClipper.OneOutFirstArea | texture.c:113 | The first one-out piece (np0, fixed[0], fixed[1]) has exactly s0 times the area of (original, fixed[0], fixed[1]). |
| TextureClipper.OneOutSecondArea | texture.c:114 | The second one-out piece (np1, np0, fixed[1]) has exactly s1 (1 - s0) times that area. |
| TextureClipper.TwoOutArea | texture.c:158 | The two-out piece (np0, np1, original) has exactly (1 - s1)(1 - s0) times that area. |
| TextureClipper.SplitParams | texture.c:85-154 | In the one-out case both crossing parameters lie in [0, 1); in the two-out case, in (0, 1]. |
| TextureClipper.ClipOnceWinding | texture.c:110-158 | Every piece winds as the input or is degenerate, except that when original is slot 1 every piece winds the other way or is degenerate. The comment "maintaining the CW or CCW ordering" holds for slots 0 and 2 only. |
| TextureClipper.ClipOnceWindingStrict | texture.c:110-158 | With non-zero input area and no vertex on the line the winding is exact: every piece keeps the input's winding, unless original is slot 1, in which case every piece has the opposite one. |
| TextureClipper.WindingReversedExample | texture.c:34-186 | The counter-clockwise triangle (0, 0.25), (0.5, -0.25), (1, 0.25) reaches draw_triangle as two clockwise pieces with areas -0.25 and -0.125. |
| RectSplit.CountPass | rect.c:37-47 | The count pass counts between 0 and 4 knife edges. |
| RectSplit.CountCuts | rect.c:37-47 | The count loop returns the number of knife edges strictly inside the destination rectangle. |
| RectSplit.CutLeft | rect.c:53-63 | Reference definition, no own contract: when the knife's left edge is strictly inside baserect, the strip left of it is appended and baserect's left edge moves to the knife's. RectSplit.CutsShrink states its properties. |
| RectSplit.CutTop | rect.c:66-76 | Reference definition, no own contract: the strip above the knife is appended and baserect's top edge moves down to the knife's. RectSplit.CutsShrink states its properties. |
| RectSplit.CutRight | rect.c:79-89 | Reference definition, no own contract: the strip right of the knife is appended and baserect's right edge moves in to the knife's. RectSplit.CutsShrink states its properties. |
| RectSplit.CutBottom | rect.c:92-102 | Reference definition, no own contract: the strip below the knife is appended and baserect's bottom edge moves up to the knife's. RectSplit.CutsShrink states its properties. |
| RectSplit.Carve | rect.c:52-102 | Reference definition, no own contract: the four cuts in the order left, top, right, bottom, starting from baserect = rdest. RectSplit.SplitRect is proved equal to it. RectSplit.CarveInside, RectSplit.CarveTiles, RectSplit.CarveLeavesOverlap and RectSplit.CarveSubtracts state its properties. |
| RectSplit.Emit | rect.c:55-62 | One write: the slot at the current count takes the piece, the count goes up by one, and the earlier slots are untouched. |
| RectSplit.SplitRect | rect.c:25-107 | splitRect allocates one slot per counted edge and writes only inside the array. Its first `out_count` slots are exactly the carved pieces, in the order left, top, right, bottom. |
| RectSplit.WritesFit | rect.c:37-104 | Each write condition implies its count condition, so the write pass never writes more rectangles than were allocated. |
| RectSplit.CountsAgree | rect.c:37-104 | For a knife with left < right and top < bottom, every counted edge is cut, so out_count equals the allocation. |
| RectSplit.InvertedKnifeUnderfills | rect.c:37-104 | For the knife left 5, right 3 over a 10 x 10 destination, the count pass counts two edges but the write pass cuts once. |
| RectSplit.CutsShrink | rect.c:53-102 | Each step moves one edge of baserect inward, so baserect only shrinks. Every piece stays inside the destination and shares no cell with the knife. |
| RectSplit.CarveInside | rect.c:52-102 | Every piece, and the final baserect, lies within the destination, and no piece shares a cell with the knife. |
| RectSplit.CarveTiles | rect.c:52-102 | The pieces and the final baserect tile the destination: every cell of it is covered exactly once, and no other cell is covered. |
| RectSplit.CarveLeavesOverlap | rect.c:52-102 | For a proper knife that overlaps the destination, the final baserect is exactly their overlap. |
| RectSplit.CarveSubtracts | rect.c:52-102 | For a proper overlapping knife, the pieces cover exactly the cells of the destination outside the knife, each once. |
| RectSplit.CoveringKnifeCutsNothing | rect.c:37-102 | A knife that contains the destination yields no pieces and leaves baserect equal to the destination. |

## Left out

- SDL windows, renderers, event loops and the FPS title are left out. The points `SDL_RenderDrawPoint` would draw become the methods' returned pixel sequences; draw colours beyond the texel's colour are not modelled.
- Lighting in draw_triangle (main.c:597-635) is left out: `sqrt`, `acos`, the lighting percentage and the draw colour. The back-face test is kept in exact form: a zero normal is never culled, which matches the NaN comparison.
- Floating point is exact real arithmetic. IEEE rounding, overflow and NaN are not modelled except where noted, and neither is the float/int mixing of `current_s`, which is an integer row counter here.
- `int` overflow of screen coordinates and of `z_addr` is not modelled. Off-screen columns and rows are skipped exactly as the code skips them.
- Render.DepthBuffer.DrawScanline: it takes its row as an integer. draw_triangle passes only integral rows, and a fractional row would be truncated for indexing.
- Render.DepthBuffer.ClipAndDraw: in C every recursion frame has its own uninitialised `out_triangle[2]` (main.c:743), and reading its `.t` is undefined behaviour. The model shares one `Stale` value across all frames, and its `requires ValidTexture(stale.slot0.t) && ValidTexture(stale.slot1.t)` is an assumption the C code never establishes.
- Clipper.ClipAndRender: the uninitialised stack slots `out_triangle[0]` and `out_triangle[1]` are the one parameter `Stale`, shared by every recursion frame, where C gives each frame fresh ones.
- The object, list and cube code of main.c (lists, `new_cube`, `translate_object`, the rotations, `render_object`, `main`) is left out: it builds scenes and is not part of the pipeline modelled here. `malloc` failure in `init_zbuf` and `new_texture` is left out too.
- texture.c's `draw_triangle` (texture.c:27-32) only draws the three outline segments with SDL. `render_triangle` (texture.c:332-335) only delegates. `TO_SCREEN_Z`, `rotate_point_global` and `main` of texture.c are not used by the clipper. All are left out.
- rect.c's `drawRect` (rect.c:17-23) is SDL drawing and is left out. `drawOccluded` (rect.c:109-132) is incomplete and does not compile (rect.c:123), so it is left out too. rect.c's `main` is left out as SDL plumbing.
- RectSplit.SplitRect: the slots an inverted knife leaves unwritten hold the default `Rect(0, 0, 0, 0)`, where the C array holds uninitialised memory. `malloc` failure is not modelled.
- bresenham3d-TEMP.c is not part of this model.
