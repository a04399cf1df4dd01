# Coordinate-system gizmo: per-axis vertex colouring

This project models the coordinate-system gizmo of Helix Toolkit's SharpDX
WPF layer (`CoordinateSystemModel3D`). The gizmo is an arrow mesh plus three
billboard labels X, Y and Z. Its vertex colours are painted per axis.

- The mesh's vertices are read as three contiguous segments of `n / 3`
  vertices each, where `n` is the vertex count and `/` is integer division.
  Segment `which` is the index range `[(n/3)*which, (n/3)*(which+1))`. The
  products and `which + 1` are 32-bit `int` arithmetic, which wraps silently.
- Painting axis `which` copies the current colour buffer. If the mesh has no
  buffer yet, it starts from `n` black vertices instead. The segment is then
  overwritten with the new colour and the copy is installed as the mesh's
  buffer. The old buffer is never written.
- Painting also replaces the label of axis `which`. The label is the axis
  name, anchored 7 units along that axis, in font size 12 and the new colour.
  An index that is not an axis touches no label.
- The constructor paints axes 0, 1 and 2 red, green and blue. A change of an
  axis-colour property repaints that one axis. The property system calls
  back only when the new value differs from the old one.

Modules:

- `Optional` and `Colors` (`colors.dfy`): an option type, and 8-bit RGBA
  colours with the constants black, red, green (0,128,0) and blue.
- `Segments` (`segments.dfy`): the 32-bit segment arithmetic and the painter
  as a function on values (`Painted`, which yields `Failed` or the installed
  buffer, and `AfterPaint`, the mesh's buffer after the call). It also holds
  the lemmas about painting: bounds, disjointness, idempotence, commutation,
  the initial colouring and the behaviour for indices that are not axes.
- `Labels` (`labels.dfy`): the label an axis receives.
- `CoordinateSystem` (`coordinate_system.dfy`): the imperative model. It has
  a `Mesh` class with a nullable colour array, and the gizmo class with a
  three-element label array. The painter is a method that allocates a fresh
  array and fills the segment in a loop. Its contract ties the result to
  `Painted` and `AfterPaint`.

The painter indexes its copy directly, so an index outside the copy raises an
error in the source. The model returns `ok == false` in that case. The label
has already been replaced at that point, and the mesh keeps its old buffer.
`Painted` returns `Failed` for exactly these calls (`PaintedFails`), so no
method needs a precondition on `which`. A failure is kept apart from "no
buffer yet": after a failed call `AfterPaint` returns the previous buffer,
whether that is absent or present.

Indices that are not axes are not a uniform no-op in the code:

- With fewer than 3 vertices the segment is empty. A fresh copy of the
  current buffer, or `n` black colours if there is none, is installed
  unchanged (`PaintedOutOfRange`).
- When `n` is a positive multiple of 3, the bounds do not wrap, and the
  current buffer, if any, has `n` colours, the call fails
  (`PaintedOutOfRange`). A longer buffer can let it succeed: the copy keeps
  the buffer's own length, so with 3 vertices and 10 colours, index 3
  paints colour 3 (`LongBufferLetsStrayAxisPaint`).
- When the bounds wrap, anything can happen. On 6 vertices, index -2^31 paints
  vertices 0 and 1 (`WrappedIndexPaints`). On 3 vertices, index 2^31-1 makes
  `which + 1` wrap to -2^31, the loop never runs, and the black baseline is
  installed (`WrappedIndexSkipsLoop`).
- Otherwise the call can succeed and paint trailing vertices. With 4
  vertices, index 3 paints vertex 3 (`StrayAxisPaintsTrailingVertex`).

The gizmo's own callers only pass 0, 1 and 2, so none of these cases is
reached from the gizmo itself.

## Model

| member | source | states |
|---|---|---|
| `Segments.SegmentSize` | Source/HelixToolkit.Wpf.SharpDX/Model/Elements3D/CoordinateSystemModel3D.cs:138 | the segment length is the vertex count divided by 3, rounded down: 3*s <= n < 3*s + 3 |
| `Segments.SegmentStart` | Source/HelixToolkit.Wpf.SharpDX/Model/Elements3D/CoordinateSystemModel3D.cs:140 | the loop's first index is `Wrap32((n/3)*which)`: congruent to (n/3)*which modulo 2^32, and equal to it when that product fits in 32 bits |
| `Segments.SegmentEnd` | Source/HelixToolkit.Wpf.SharpDX/Model/Elements3D/CoordinateSystemModel3D.cs:140 | the loop's bound is `Wrap32((n/3)*Wrap32(which+1))`: congruent to (n/3)*(which+1) modulo 2^32, and equal to it when neither the sum nor the products wrap |
| `Segments.InSegment` | Source/HelixToolkit.Wpf.SharpDX/Model/Elements3D/CoordinateSystemModel3D.cs:140 | index i is written by the loop exactly when start <= i < end; when nothing wraps that is the range [(n/3)*which, (n/3)*(which+1)) |
| `Segments.Wrap32` | Source/HelixToolkit.Wpf.SharpDX/Model/Elements3D/CoordinateSystemModel3D.cs:138-140 | unchecked 32-bit arithmetic: an in-range value is kept, and any value is reduced to the 32-bit value congruent to it modulo 2^32 |
| `Segments.SegmentWithin` | Source/HelixToolkit.Wpf.SharpDX/Model/Elements3D/CoordinateSystemModel3D.cs:138-140 | for an axis index no bound wraps; the painted range is [(n/3)*which, (n/3)*(which+1)), lies within [0, n) and is n/3 long, even when n is not a multiple of 3 |
| `Segments.SegmentsDisjoint` | Source/HelixToolkit.Wpf.SharpDX/Model/Elements3D/CoordinateSystemModel3D.cs:140-143 | the ranges painted for two different indices share no vertex, provided neither index's bounds wrap |
| `Segments.WrappedSegmentsOverlap` | Source/HelixToolkit.Wpf.SharpDX/Model/Elements3D/CoordinateSystemModel3D.cs:138-142 | when bounds wrap, ranges can overlap: on 6 vertices, index -2^31 names vertices 0 and 1, which axis 0 also names |
| `Segments.Partition` | Source/HelixToolkit.Wpf.SharpDX/Model/Elements3D/CoordinateSystemModel3D.cs:138-143 | a vertex below 3*(n/3) lies in exactly one of the three axis segments; the trailing n % 3 vertices lie in none |
| `Segments.Fill` | Source/HelixToolkit.Wpf.SharpDX/Model/Elements3D/CoordinateSystemModel3D.cs:139 | the repeated-colour sequence has the requested length and every element is that colour |
| `Segments.Overwrite` | Source/HelixToolkit.Wpf.SharpDX/Model/Elements3D/CoordinateSystemModel3D.cs:140-143 | overwriting a range keeps the length, puts the colour at every index in the range and keeps every other element |
| `Segments.Baseline` | Source/HelixToolkit.Wpf.SharpDX/Model/Elements3D/CoordinateSystemModel3D.cs:139 | the painter starts from the current buffer when there is one, and otherwise from n black colours |
| `Segments.OverwriteRange` | Source/HelixToolkit.Wpf.SharpDX/Model/Elements3D/CoordinateSystemModel3D.cs:140-143 | the loop fails exactly when the range is non-empty and starts below 0 or ends past the copy; otherwise the result has the copy's length, the colour inside the range and the copy's colour elsewhere |
| `Segments.Painted` | Source/HelixToolkit.Wpf.SharpDX/Model/Elements3D/CoordinateSystemModel3D.cs:138-144 | a successful paint yields a buffer as long as the baseline, with the new colour on the (wrapped) segment and the baseline colour elsewhere |
| `Segments.PaintedFails` | Source/HelixToolkit.Wpf.SharpDX/Model/Elements3D/CoordinateSystemModel3D.cs:140-143 | the painter fails exactly when some index of its segment lies outside the copied buffer |
| `Segments.AfterPaint` | Source/HelixToolkit.Wpf.SharpDX/Model/Elements3D/CoordinateSystemModel3D.cs:139-144 | a mesh that has a buffer keeps having one; the buffer after a paint is as long as the baseline; a failed paint leaves the buffer as it was |
| `Segments.PaintedAt` | Source/HelixToolkit.Wpf.SharpDX/Model/Elements3D/CoordinateSystemModel3D.cs:138-144 | painting an axis of a mesh whose buffer is absent or has one colour per vertex succeeds; the new buffer has n colours; the segment holds the new colour; every other vertex keeps its colour, or is black if there was no buffer |
| `Segments.PaintedIdempotent` | Source/HelixToolkit.Wpf.SharpDX/Model/Elements3D/CoordinateSystemModel3D.cs:140-143 | painting the same axis twice with the same colour equals painting it once |
| `Segments.PaintedLastWins` | Source/HelixToolkit.Wpf.SharpDX/Model/Elements3D/CoordinateSystemModel3D.cs:140-143 | repainting an axis gives the same buffer as painting it only with the latest colour |
| `Segments.PaintedCommute` | Source/HelixToolkit.Wpf.SharpDX/Model/Elements3D/CoordinateSystemModel3D.cs:140-143 | paints of two different axes give the same buffer in either order |
| `Segments.PaintedOutOfRange` | Source/HelixToolkit.Wpf.SharpDX/Model/Elements3D/CoordinateSystemModel3D.cs:123-143 | for an index that is not an axis, and a current buffer that is absent or has n colours: with fewer than 3 vertices the segment is empty and the baseline (a copy of the current buffer, or n black colours) is installed unchanged; with a positive multiple of 3 vertices and bounds that do not wrap, the range leaves the buffer and the call fails |
| `Segments.WrappedIndexPaints` | Source/HelixToolkit.Wpf.SharpDX/Model/Elements3D/CoordinateSystemModel3D.cs:138-144 | on 6 vertices with no buffer, index -2^31 succeeds and paints vertices 0 and 1, because both bounds wrap |
| `Segments.WrappedIndexSkipsLoop` | Source/HelixToolkit.Wpf.SharpDX/Model/Elements3D/CoordinateSystemModel3D.cs:138-144 | on 3 vertices with no buffer, index 2^31-1 makes which+1 wrap, the loop runs zero times and the black baseline is installed |
| `Segments.StrayAxisPaintsTrailingVertex` | Source/HelixToolkit.Wpf.SharpDX/Model/Elements3D/CoordinateSystemModel3D.cs:138-144 | on a 4-vertex mesh with no buffer, index 3 succeeds and paints only the last vertex |
| `Segments.LongBufferLetsStrayAxisPaint` | Source/HelixToolkit.Wpf.SharpDX/Model/Elements3D/CoordinateSystemModel3D.cs:139-144 | with 3 vertices and a 10-colour buffer, index 3 succeeds and paints colour 3, because the copy keeps the buffer's own length |
| `Segments.Coloring` | Source/HelixToolkit.Wpf.SharpDX/Model/Elements3D/CoordinateSystemModel3D.cs:138-143 | a three-colour segment colouring has one colour per vertex |
| `Segments.ColoringAt` | Source/HelixToolkit.Wpf.SharpDX/Model/Elements3D/CoordinateSystemModel3D.cs:138-143 | in a three-colour colouring, a vertex of segment w has axis colour w and a trailing vertex is black |
| `Segments.RepaintColoring` | Source/HelixToolkit.Wpf.SharpDX/Model/Elements3D/CoordinateSystemModel3D.cs:116-119 | painting axis w of a three-colour colouring gives the colouring with only colour w replaced |
| `Segments.NoBufferIsBlack` | Source/HelixToolkit.Wpf.SharpDX/Model/Elements3D/CoordinateSystemModel3D.cs:139 | painting a mesh with no buffer has the same outcome as painting one whose buffer holds n black colours |
| `Segments.FirstPaintFromNothing` | Source/HelixToolkit.Wpf.SharpDX/Model/Elements3D/CoordinateSystemModel3D.cs:106 | the first paint (axis 0, any colour) from no buffer gives segment 0 in that colour and every other vertex black |
| `Segments.PaintAllAxes` | Source/HelixToolkit.Wpf.SharpDX/Model/Elements3D/CoordinateSystemModel3D.cs:106-108 | painting axes 0, 1, 2 with any three colours from no buffer gives the colouring whose segments hold those colours and whose trailing vertices are black |
| `Segments.InitialColoring` | Source/HelixToolkit.Wpf.SharpDX/Model/Elements3D/CoordinateSystemModel3D.cs:106-108 | after the three initial paints from no buffer, segment 0 is red, segment 1 green, segment 2 blue and the trailing n % 3 vertices black |
| `Labels.OnAxis` | Source/HelixToolkit.Wpf.SharpDX/Model/Elements3D/CoordinateSystemModel3D.cs:127-135 | the anchor point has the given distance on its own axis and 0 on the other two |
| `Labels.AxisLabel` | Source/HelixToolkit.Wpf.SharpDX/Model/Elements3D/CoordinateSystemModel3D.cs:123-137 | a label is produced exactly for indices 0, 1 and 2 |
| `Labels.AxisLabelShape` | Source/HelixToolkit.Wpf.SharpDX/Model/Elements3D/CoordinateSystemModel3D.cs:125-136 | axis 0, 1, 2 gets text "X", "Y", "Z", anchored 7 along that axis and 0 on the others, font size 12, font colour the new colour |
| `Labels.AxisLabelsDistinct` | Source/HelixToolkit.Wpf.SharpDX/Model/Elements3D/CoordinateSystemModel3D.cs:125-136 | labels of different axes differ in text and in anchor |
| `CoordinateSystem.Mesh.constructor` | Source/HelixToolkit.Wpf.SharpDX/Model/Elements3D/CoordinateSystemModel3D.cs:96 | a freshly built mesh has the given vertex count and no colour buffer |
| `CoordinateSystem.CoordinateSystemModel.constructor` | Source/HelixToolkit.Wpf.SharpDX/Model/Elements3D/CoordinateSystemModel3D.cs:90-114 | the new gizmo's axis colours are red, green and blue; its labels are the X, Y, Z labels in those colours; its mesh buffer is fresh, with segments red, green, blue and trailing vertices black |
| `CoordinateSystem.CoordinateSystemModel.PaintDefaultAxes` | Source/HelixToolkit.Wpf.SharpDX/Model/Elements3D/CoordinateSystemModel3D.cs:106-108 | the three paints from no buffer install the X, Y, Z labels in red, green, blue and a fresh buffer with segments red, green, blue and trailing vertices black |
| `CoordinateSystem.CoordinateSystemModel.UpdateAxisColorOf` | Source/HelixToolkit.Wpf.SharpDX/Model/Elements3D/CoordinateSystemModel3D.cs:121-145 | the label of an axis index is replaced and no other; the call fails exactly when `Painted` does; the mesh's buffer afterwards is `AfterPaint` of the old one (bounds wrapped to 32 bits); on success the buffer is a fresh array; on failure the mesh keeps its array; the old array is never written |
| `CoordinateSystem.CoordinateSystemModel.ReplaceLabel` | Source/HelixToolkit.Wpf.SharpDX/Model/Elements3D/CoordinateSystemModel3D.cs:123-137 | the label array changes only at an axis index, to `AxisLabel`; any other index leaves all labels unchanged |
| `CoordinateSystem.CoordinateSystemModel.CopyColors` | Source/HelixToolkit.Wpf.SharpDX/Model/Elements3D/CoordinateSystemModel3D.cs:139 | the working buffer is a fresh array holding the current colours, or n black colours when there are none |
| `CoordinateSystem.CoordinateSystemModel.FillRange` | Source/HelixToolkit.Wpf.SharpDX/Model/Elements3D/CoordinateSystemModel3D.cs:140-143 | the loop completes exactly when `OverwriteRange` succeeds, and then the buffer holds `OverwriteRange`'s result |
| `CoordinateSystem.CoordinateSystemModel.UpdateAxisColor` | Source/HelixToolkit.Wpf.SharpDX/Model/Elements3D/CoordinateSystemModel3D.cs:116-119 | repainting the gizmo's own mesh has the same effect as the painter applied to that mesh |
| `CoordinateSystem.CoordinateSystemModel.SetAxisColor` | Source/HelixToolkit.Wpf.SharpDX/Model/Elements3D/CoordinateSystemModel3D.cs:19-42 | an axis-colour change keeps the gizmo invariant; only that axis's colour and label change; when the value differs the buffer is a fresh array, when it is the same the callback does not run and the array is kept; either way the axis's segment holds the new colour and every other vertex keeps its colour |
| `CoordinateSystem.CoordinateSystemModel.CanHitTest` | Source/HelixToolkit.Wpf.SharpDX/Model/Elements3D/CoordinateSystemModel3D.cs:147-150 | the gizmo never takes part in hit testing |

## Left out

- SegmentsDisjoint: stated only for indices whose bounds do not wrap. With wrapping, segments of different indices can overlap, as `WrappedSegmentsOverlap` shows; every axis index is unwrapped (`SegmentWithin`).
- PaintedOutOfRange: the failure clause is stated only for bounds that do not wrap and for a current buffer that is absent or has n colours; a longer buffer can let the call succeed. Wrapped bounds can paint or skip the loop instead; `WrappedIndexPaints` and `WrappedIndexSkipsLoop` exhibit both, and `PaintedFails` gives the exact failure condition for every index.
- Arrow geometry (`MeshBuilder.AddArrow`, `ToMesh`): the mesh builder is an external library. The vertex count is a constructor parameter. The model does not claim that the three segments are the X, Y and Z arrows.
- The dependency-property system (registration, getters, setters, the equality test before a change callback): an axis-colour change is the direct call `SetAxisColor`, which repaints only when the new value differs from the stored one. The current property values are the field `axisColors`.
- Materials, cull mode, the render-technique lookup, `IsHitTestVisible` flags and `Children.Add`: these are rendering and scene-graph glue with no effect on colours or labels.
- Floating-point `Color4` and the `ToColor4` conversion: colours are four 8-bit channels, and the named colours are their 8-bit values.
- Billboard objects and their rendering, including the transparent background: a billboard is represented by its text geometry only (glyph, integer anchor, font size, font colour). Before its first paint it is `None`.
- Exceptions: the out-of-range index error at line 142 is the result `ok == false`, not an exception.
