/**
 * The coordinate-system gizmo: an arrow mesh whose vertex colours are painted
 * per axis, and three billboard labels, one per axis.
 */
module CoordinateSystem {
  import opened Optional
  import opened Colors
  import opened Segments
  import opened Labels

  /**
   * A mesh as the painter sees it: the number of vertex positions, fixed when
   * the mesh is built, and a colour buffer that is null until first painted.
   */
  class Mesh {
    const vertexCount: count
    var colors: array?<Color>

    constructor (vertexCount: count)
      ensures this.vertexCount == vertexCount && colors == null
    {
      this.vertexCount := vertexCount;
      colors := null;
    }

    /** The current colour buffer as a value. */
    ghost function Buffer(): Option<seq<Color>>
      reads this, colors
    {
      if colors == null then None else Some(colors[..])
    }
  }

  class CoordinateSystemModel {
    /** The geometry of each axis billboard; `None` until its axis is first painted. */
    const billboards: array<Option<Label>>
    const arrowMesh: Mesh
    /** The current values of the X, Y and Z axis-colour properties. */
    var axisColors: seq<Color>

    /**
     * The mesh is coloured segment by segment with the three axis colours
     * (trailing vertices black), and each label shows its axis colour.
     */
    ghost predicate Valid()
      reads this, billboards, arrowMesh, arrowMesh.colors
    {
      billboards.Length == 3 && |axisColors| == 3 &&
      arrowMesh.Buffer() == Some(Coloring(arrowMesh.vertexCount, axisColors)) &&
      forall w :: 0 <= w < 3 ==> billboards[w] == AxisLabel(w, axisColors[w])
    }

    /**
     * Builds the gizmo over an arrow mesh of `vertexCount` vertices and paints
     * the three axes with their default colours.
     */
    constructor (vertexCount: count)
      ensures Valid()
      ensures fresh(billboards) && fresh(arrowMesh) && fresh(arrowMesh.colors)
      ensures arrowMesh.vertexCount == vertexCount
      ensures axisColors == [Red, Green, Blue]
      ensures billboards[..] == [AxisLabel(0, Red), AxisLabel(1, Green), AxisLabel(2, Blue)]
      ensures arrowMesh.Buffer() == Some(Coloring(vertexCount, [Red, Green, Blue]))
    {
      arrowMesh := new Mesh(vertexCount);
      billboards := new Option<Label>[3](_ => None);
      axisColors := [Red, Green, Blue];
      new;
      PaintDefaultAxes();
      assert billboards[0] == AxisLabel(0, axisColors[0]);
      assert billboards[1] == AxisLabel(1, axisColors[1]);
      assert billboards[2] == AxisLabel(2, axisColors[2]);
    }

    /** The constructor's three paints: axis 0 red, axis 1 green, axis 2 blue, starting from no buffer. */
    method PaintDefaultAxes()
      requires billboards.Length == 3 && arrowMesh.colors == null
      modifies billboards, arrowMesh
      ensures billboards[..] == [AxisLabel(0, Red), AxisLabel(1, Green), AxisLabel(2, Blue)]
      ensures fresh(arrowMesh.colors)
      ensures arrowMesh.Buffer() == Some(Coloring(arrowMesh.vertexCount, [Red, Green, Blue]))
    {
      ghost var n := arrowMesh.vertexCount;
      InitialColoring(n);
      var ok := UpdateAxisColorOf(arrowMesh, 0, Red);
      ok := UpdateAxisColorOf(arrowMesh, 1, Green);
      ok := UpdateAxisColorOf(arrowMesh, 2, Blue);
    }

    /**
     * Replaces the label of axis `which` (if it is an axis), then installs a
     * fresh copy of the mesh's colour buffer with segment `which` set to
     * `color`. `ok` is false when the segment reaches outside the copied
     * buffer: the indexer raises an error, the label has been replaced
     * already and the mesh keeps its buffer.
     */
    method UpdateAxisColorOf(mesh: Mesh, which: int32, color: Color) returns (ok: bool)
      requires billboards.Length == 3
      modifies billboards, mesh
      ensures billboards[..] == if 0 <= which < 3 then old(billboards[..])[which := AxisLabel(which, color)]
                                else old(billboards[..])
      ensures ok <==> Painted(old(mesh.Buffer()), mesh.vertexCount, which, color).Installed?
      ensures mesh.Buffer() == AfterPaint(old(mesh.Buffer()), mesh.vertexCount, which, color)
      ensures ok ==> fresh(mesh.colors)
      ensures !ok ==> mesh.colors == old(mesh.colors)
      ensures old(mesh.colors) != null ==> old(mesh.colors)[..] == old(mesh.Buffer()).value
    {
      ReplaceLabel(which, color);
      var segment := mesh.vertexCount / 3;
      var buffer := CopyColors(mesh);
      // int arithmetic in the source is unchecked: both bounds wrap modulo 2^32
      var lo, hi := Wrap32(segment * which), Wrap32(segment * Wrap32(which + 1));
      ok := FillRange(buffer, lo, hi, color);
      if ok {
        mesh.colors := buffer;
      }
    }

    /** The label switch: axes 0, 1 and 2 get a new label; any other index leaves the labels alone. */
    method ReplaceLabel(which: int, color: Color)
      requires billboards.Length == 3
      modifies billboards
      ensures billboards[..] == if 0 <= which < 3 then old(billboards[..])[which := AxisLabel(which, color)]
                                else old(billboards[..])
    {
      match which {
        case 0 =>
          billboards[which] := Some(Label("X", Vec3(7, 0, 0), 12, color));
          assert AxisLabel(which, color).value.text == "X";
        case 1 =>
          billboards[which] := Some(Label("Y", Vec3(0, 7, 0), 12, color));
          assert AxisLabel(which, color).value.text == "Y";
        case 2 =>
          billboards[which] := Some(Label("Z", Vec3(0, 0, 7), 12, color));
          assert AxisLabel(which, color).value.text == "Z";
        case _ =>
      }
    }

    /** A fresh copy of the mesh's colour buffer, or `vertexCount` black colours if it has none. */
    static method CopyColors(mesh: Mesh) returns (buffer: array<Color>)
      ensures fresh(buffer)
      ensures buffer[..] == Baseline(mesh.Buffer(), mesh.vertexCount)
    {
      if mesh.colors == null {
        buffer := new Color[mesh.vertexCount](_ => Black);
      } else {
        var current := mesh.colors;
        buffer := new Color[current.Length](i requires 0 <= i < current.Length reads current => current[i]);
      }
    }

    /**
     * Sets indices lo, lo+1, ..., hi-1 of `buffer` to `color`, in that order.
     * `ok` is false when one of them lies outside the buffer; the writes that
     * came before it have been made, but the caller then drops the buffer.
     */
    static method FillRange(buffer: array<Color>, lo: int32, hi: int32, color: Color) returns (ok: bool)
      modifies buffer
      ensures ok <==> OverwriteRange(old(buffer[..]), lo, hi, color).Installed?
      ensures ok ==> buffer[..] == OverwriteRange(old(buffer[..]), lo, hi, color).buffer
    {
      var i := lo;
      while i < hi
        invariant lo <= i <= if lo < hi then hi else lo
        invariant lo < i ==> 0 <= lo && i <= buffer.Length
        invariant forall k :: 0 <= k < buffer.Length ==> buffer[k] == if lo <= k < i then color else old(buffer[k])
      {
        if !(0 <= i < buffer.Length) {
          return false;
        }
        buffer[i] := color;
        i := i + 1;
      }
      return true;
    }

    /** Repaints axis `which` of the gizmo's own arrow mesh. */
    method UpdateAxisColor(which: int32, color: Color) returns (ok: bool)
      requires billboards.Length == 3
      modifies billboards, arrowMesh
      ensures billboards[..] == if 0 <= which < 3 then old(billboards[..])[which := AxisLabel(which, color)]
                                else old(billboards[..])
      ensures ok <==> Painted(old(arrowMesh.Buffer()), arrowMesh.vertexCount, which, color).Installed?
      ensures arrowMesh.Buffer() == AfterPaint(old(arrowMesh.Buffer()), arrowMesh.vertexCount, which, color)
      ensures ok ==> fresh(arrowMesh.colors)
      ensures !ok ==> arrowMesh.colors == old(arrowMesh.colors)
    {
      ok := UpdateAxisColorOf(arrowMesh, which, color);
    }

    /**
     * A change of the colour property of axis `which`. The property system
     * calls back only when the value actually changes; the callback repaints
     * that axis. Only that axis's segment and label change.
     */
    method SetAxisColor(which: int32, color: Color)
      requires Valid() && 0 <= which < 3
      modifies this, billboards, arrowMesh
      ensures Valid()
      ensures axisColors == old(axisColors)[which := color]
      ensures billboards[..] == old(billboards[..])[which := AxisLabel(which, color)]
      ensures old(axisColors[which]) != color ==> fresh(arrowMesh.colors)
      ensures old(axisColors[which]) == color ==> arrowMesh.colors == old(arrowMesh.colors)
      ensures forall i :: 0 <= i < arrowMesh.vertexCount ==>
                arrowMesh.colors[i] == if InSegment(arrowMesh.vertexCount, which, i) then color
                                       else old(arrowMesh.colors[i])
    {
      ghost var before := arrowMesh.Buffer();
      if axisColors[which] != color {
        axisColors := axisColors[which := color];
        var ok := UpdateAxisColor(which, color);
        RepaintColoring(arrowMesh.vertexCount, old(axisColors), which, color);
        PaintedAt(before, arrowMesh.vertexCount, which, color);
      } else {
        assert axisColors == old(axisColors)[which := color];
        assert billboards[..] == old(billboards[..])[which := AxisLabel(which, color)];
        forall i | 0 <= i < arrowMesh.vertexCount && InSegment(arrowMesh.vertexCount, which, i)
          ensures arrowMesh.colors[i] == color
        {
          ColoringAt(arrowMesh.vertexCount, axisColors, i);
        }
      }
    }

    /** The gizmo never takes part in hit testing. */
    function CanHitTest(): (hit: bool)
      ensures !hit
    {
      false
    }
  }
}
