/**
 * The axis labels: one billboard text per axis, showing the axis name a
 * fixed distance beyond the arrow tip, in the axis colour. Only the glyph,
 * the anchor (integer coordinates), the font size and the font colour are
 * modelled.
 */
module Labels {
  import opened Optional
  import opened Colors

  datatype Vec3 = Vec3(x: int, y: int, z: int)

  datatype Label = Label(text: string, anchor: Vec3, fontSize: nat, fontColor: Color)

  /** How far along its axis a label is anchored. */
  const LabelDistance := 7

  const LabelFontSize := 12

  /** The coordinate of `v` along axis `k` (0 = x, 1 = y, 2 = z). */
  function Coord(v: Vec3, k: int): int
    requires 0 <= k < 3
  {
    if k == 0 then v.x else if k == 1 then v.y else v.z
  }

  /** The point `d` units along axis `which` from the origin. */
  function OnAxis(which: int, d: int): (v: Vec3)
    requires 0 <= which < 3
    ensures Coord(v, which) == d
    ensures forall k :: 0 <= k < 3 && k != which ==> Coord(v, k) == 0
  {
    Vec3(if which == 0 then d else 0, if which == 1 then d else 0, if which == 2 then d else 0)
  }

  /**
   * The label the painter installs for axis `which` in colour `c`, or `None`
   * for an index that is not an axis (no label is touched then).
   */
  function AxisLabel(which: int, c: Color): (r: Option<Label>)
    ensures r.Some? <==> 0 <= which < 3
  {
    if 0 <= which < 3 then Some(Label(["XYZ"[which]], OnAxis(which, LabelDistance), LabelFontSize, c))
    else None
  }

  /**
   * The label of axis `which` is the axis's own name, anchored 7 units along
   * that axis and nowhere else, in size 12 and colour `c`.
   */
  lemma AxisLabelShape(which: int, c: Color)
    requires 0 <= which < 3
    ensures AxisLabel(which, c).value.text == (if which == 0 then "X" else if which == 1 then "Y" else "Z")
    ensures Coord(AxisLabel(which, c).value.anchor, which) == 7
    ensures forall k :: 0 <= k < 3 && k != which ==> Coord(AxisLabel(which, c).value.anchor, k) == 0
    ensures AxisLabel(which, c).value.fontSize == 12
    ensures AxisLabel(which, c).value.fontColor == c
  {
  }

  /** Labels of different axes differ in both text and anchor, whatever their colours. */
  lemma AxisLabelsDistinct(w1: int, c1: Color, w2: int, c2: Color)
    requires 0 <= w1 < 3 && 0 <= w2 < 3 && w1 != w2
    ensures AxisLabel(w1, c1).value.text != AxisLabel(w2, c2).value.text
    ensures AxisLabel(w1, c1).value.anchor != AxisLabel(w2, c2).value.anchor
  {
  }
}
