/**
 * The vertex-colour painter as a function on values.
 *
 * The arrow mesh's vertices are read as three contiguous segments of
 * `n / 3` vertices each (integer division); segment `which` is the index
 * range [ (n/3)*which, (n/3)*(which+1) ), computed in 32-bit two's
 * complement arithmetic that wraps silently. Painting an axis copies the
 * current colour buffer (or starts from an all-black one of length `n`)
 * and overwrites that range with the new colour. Nothing checks that `n`
 * is a multiple of 3 or that `which` is an axis: the copy is indexed
 * directly, and an index outside it raises an error. `Painted` returns
 * `Failed` exactly in that case.
 */
module Segments {
  import opened Optional
  import opened Colors

  /** A 32-bit signed integer. */
  type int32 = x: int | -0x8000_0000 <= x < 0x8000_0000

  /** A collection count: a non-negative 32-bit signed integer. */
  type count = n: nat | n < 0x8000_0000

  /** Unchecked 32-bit arithmetic: reduces `x` into the 32-bit range, modulo 2^32. */
  function Wrap32(x: int): (r: int32)
    ensures -0x8000_0000 <= x < 0x8000_0000 ==> r == x
    ensures Congruent32(r, x)
  {
    if -0x8000_0000 <= x < 0x8000_0000 then x
    else (x + 0x8000_0000) % 0x1_0000_0000 - 0x8000_0000
  }

  /** The number of vertices in each axis segment: the vertex count divided by 3, rounded down. */
  function SegmentSize(n: count): (s: nat)
    ensures 3 * s <= n < 3 * s + 3
  {
    n / 3
  }

  /** `x` and `y` differ by a multiple of 2^32. */
  predicate Congruent32(x: int, y: int) {
    (x - y) % 0x1_0000_0000 == 0
  }

  /** Scaling both sides keeps a congruence modulo 2^32. */
  lemma CongruentScaled(s: nat, x: int, y: int)
    requires Congruent32(x, y)
    ensures Congruent32(s * x, s * y)
  {
    var k := (x - y) / 0x1_0000_0000;
    assert x - y == 0x1_0000_0000 * k;
    assert s * x - s * y == 0x1_0000_0000 * (s * k);
  }

  /** Congruences modulo 2^32 chain. */
  lemma CongruentTrans(x: int, y: int, z: int)
    requires Congruent32(x, y) && Congruent32(y, z)
    ensures Congruent32(x, z)
  {
    var k, l := (x - y) / 0x1_0000_0000, (y - z) / 0x1_0000_0000;
    assert x - z == 0x1_0000_0000 * (k + l);
  }

  /**
   * The first vertex of segment `which`: the 32-bit product (n/3)*which,
   * which is the exact product whenever that product fits.
   */
  function SegmentStart(n: count, which: int32): (r: int32)
    ensures Congruent32(r, SegmentSize(n) * which)
    ensures -0x8000_0000 <= SegmentSize(n) * which < 0x8000_0000 ==> r == SegmentSize(n) * which
  {
    Wrap32(SegmentSize(n) * which)
  }

  /**
   * One past the last vertex of segment `which`: (n/3)*(which+1) with both
   * the sum and the product wrapped to 32 bits, so congruent to the exact
   * value modulo 2^32 and equal to it when nothing wraps.
   */
  function SegmentEnd(n: count, which: int32): (r: int32)
    ensures Congruent32(r, SegmentSize(n) * (which + 1))
    ensures Unwrapped(n, which) ==> r == SegmentSize(n) * (which + 1)
  {
    var s, next := SegmentSize(n), Wrap32(which + 1);
    CongruentScaled(s, next, which + 1);
    CongruentTrans(Wrap32(s * next), s * next, s * (which + 1));
    Wrap32(s * next)
  }

  /** Vertex `i` is painted for index `which`; without wrap-around the range is [(n/3)*which, (n/3)*(which+1)). */
  predicate InSegment(n: count, which: int32, i: int)
    ensures Unwrapped(n, which) ==>
              (InSegment(n, which, i) <==> SegmentSize(n) * which <= i < SegmentSize(n) * (which + 1))
  {
    SegmentStart(n, which) <= i < SegmentEnd(n, which)
  }

  /** Neither `which + 1` nor the two products leave the 32-bit range. */
  predicate Unwrapped(n: count, which: int32) {
    var s := SegmentSize(n);
    -0x8000_0000 <= which + 1 < 0x8000_0000 &&
    -0x8000_0000 <= s * which < 0x8000_0000 &&
    -0x8000_0000 <= s * (which + 1) < 0x8000_0000
  }

  /**
   * For an axis index nothing wraps: the segment is [(n/3)*which, (n/3)*(which+1)),
   * n/3 long and inside [0, n), whatever `n % 3` is.
   */
  lemma SegmentWithin(n: count, which: int32)
    requires 0 <= which < 3
    ensures Unwrapped(n, which)
    ensures SegmentStart(n, which) == SegmentSize(n) * which
    ensures SegmentEnd(n, which) == SegmentSize(n) * (which + 1)
    ensures 0 <= SegmentStart(n, which) <= SegmentEnd(n, which) <= n
    ensures SegmentEnd(n, which) - SegmentStart(n, which) == n / 3
  {
    if which == 0 {
    } else if which == 1 {
    } else {
    }
  }

  lemma MulMonotone(s: nat, x: int, y: int)
    requires x <= y
    ensures s * x <= s * y
  {
    assert s * y - s * x == s * (y - x);
  }

  /** Segments of two different indices share no vertex, as long as neither index's bounds wrap. */
  lemma SegmentsDisjoint(n: count, w1: int32, w2: int32, i: int)
    requires w1 != w2
    requires Unwrapped(n, w1) && Unwrapped(n, w2)
    ensures !(InSegment(n, w1, i) && InSegment(n, w2, i))
  {
    var s := SegmentSize(n);
    assert SegmentStart(n, w1) == s * w1 && SegmentEnd(n, w1) == s * (w1 + 1);
    assert SegmentStart(n, w2) == s * w2 && SegmentEnd(n, w2) == s * (w2 + 1);
    if w1 < w2 {
      MulMonotone(s, w1 + 1, w2);
    } else {
      MulMonotone(s, w2 + 1, w1);
    }
  }

  /**
   * When the bounds wrap, segments can overlap: on a mesh of six vertices,
   * index -2^31 names [0, 2) because 2 * -2^31 and 2 * (-2^31 + 1) wrap to
   * 0 and 2, so it shares vertices 0 and 1 with axis 0.
   */
  lemma WrappedSegmentsOverlap()
    ensures InSegment(6, 0, 0) && InSegment(6, -0x8000_0000, 0)
    ensures InSegment(6, 0, 1) && InSegment(6, -0x8000_0000, 1)
  {
    assert SegmentStart(6, -0x8000_0000) == 0;
    assert SegmentEnd(6, -0x8000_0000) == 2;
  }

  /**
   * The three axis segments cover the first 3*(n/3) vertices without a gap
   * or an overlap; the trailing n % 3 vertices belong to no axis.
   */
  lemma Partition(n: count, i: int)
    requires 0 <= i < n
    ensures i < 3 * SegmentSize(n) <==> (InSegment(n, 0, i) || InSegment(n, 1, i) || InSegment(n, 2, i))
    ensures InSegment(n, 0, i) ==> !InSegment(n, 1, i) && !InSegment(n, 2, i)
    ensures InSegment(n, 1, i) ==> !InSegment(n, 2, i)
  {
    SegmentWithin(n, 0);
    SegmentWithin(n, 1);
    SegmentWithin(n, 2);
  }

  /** `k` copies of colour `c`. */
  function Fill(c: Color, k: nat): (r: seq<Color>)
    ensures |r| == k
    ensures forall i :: 0 <= i < k ==> r[i] == c
  {
    if k == 0 then [] else [c] + Fill(c, k - 1)
  }

  /** `s` with the index range [lo, hi) set to `c`, built from slices. */
  function Overwrite(s: seq<Color>, lo: nat, hi: nat, c: Color): (r: seq<Color>)
    requires lo <= hi <= |s|
    ensures |r| == |s|
    ensures forall k :: 0 <= k < |s| ==> r[k] == if lo <= k < hi then c else s[k]
  {
    s[..lo] + Fill(c, hi - lo) + s[hi..]
  }

  /** The buffer the painter starts from: a copy of the current one, or `n` black vertices. */
  function Baseline(prev: Option<seq<Color>>, n: count): (r: seq<Color>)
    ensures prev.None? ==> |r| == n && forall i :: 0 <= i < n ==> r[i] == Black
    ensures prev.Some? ==> r == prev.value
  {
    match prev
    case None => Fill(Black, n)
    case Some(s) => s
  }

  /** What one call of the painter does to the colour buffer. */
  datatype Outcome = Failed | Installed(buffer: seq<Color>)

  /**
   * Setting indices lo, lo+1, ..., hi-1 of a copy of `base` to `c`, in that
   * order: `Failed` when one of them lies outside the copy.
   */
  function OverwriteRange(base: seq<Color>, lo: int, hi: int, c: Color): (r: Outcome)
    ensures r.Failed? <==> lo < hi && (lo < 0 || |base| < hi)
    ensures r.Installed? ==> |r.buffer| == |base|
    ensures r.Installed? ==> forall i :: 0 <= i < |base| ==> r.buffer[i] == if lo <= i < hi then c else base[i]
  {
    if hi <= lo then Installed(base)
    else if 0 <= lo && hi <= |base| then Installed(Overwrite(base, lo, hi, c))
    else Failed
  }

  /**
   * The result of painting axis `which` of a mesh with `n` vertices and
   * current buffer `prev`: the buffer that is installed, or `Failed` when
   * the loop reaches an index outside the copied buffer.
   */
  function Painted(prev: Option<seq<Color>>, n: count, which: int32, c: Color): (r: Outcome)
    ensures r.Installed? ==> |r.buffer| == |Baseline(prev, n)|
    ensures r.Installed? ==>
              forall i :: 0 <= i < |r.buffer| ==>
                r.buffer[i] == if InSegment(n, which, i) then c else Baseline(prev, n)[i]
  {
    OverwriteRange(Baseline(prev, n), SegmentStart(n, which), SegmentEnd(n, which), c)
  }

  /** The painter fails exactly when its segment holds an index outside the copied buffer. */
  lemma PaintedFails(prev: Option<seq<Color>>, n: count, which: int32, c: Color)
    ensures Painted(prev, n, which, c).Failed? <==>
              exists i :: InSegment(n, which, i) && !(0 <= i < |Baseline(prev, n)|)
  {
    var base := Baseline(prev, n);
    var lo, hi := SegmentStart(n, which), SegmentEnd(n, which);
    if Painted(prev, n, which, c).Failed? {
      var i := if lo < 0 then lo else if lo < |base| then |base| else lo;
      assert InSegment(n, which, i) && !(0 <= i < |base|);
    }
  }

  /** The mesh's colour buffer after one call of the painter: unchanged when the call fails. */
  function AfterPaint(prev: Option<seq<Color>>, n: count, which: int32, c: Color): (r: Option<seq<Color>>)
    ensures prev.Some? ==> r.Some?
    ensures r.Some? ==> |r.value| == |Baseline(prev, n)|
  {
    match Painted(prev, n, which, c)
    case Failed => prev
    case Installed(b) => Some(b)
  }

  /**
   * Painting an axis of a well-formed mesh always succeeds; the new buffer has
   * one colour per vertex, the segment holds `c`, every other vertex keeps its
   * colour, and a vertex that had no colour before is black.
   */
  lemma PaintedAt(prev: Option<seq<Color>>, n: count, which: int32, c: Color)
    requires 0 <= which < 3
    requires prev.Some? ==> |prev.value| == n
    ensures Painted(prev, n, which, c).Installed?
    ensures AfterPaint(prev, n, which, c) == Some(Painted(prev, n, which, c).buffer)
    ensures |Painted(prev, n, which, c).buffer| == n
    ensures forall i :: 0 <= i < n ==>
              Painted(prev, n, which, c).buffer[i] == if InSegment(n, which, i) then c else Baseline(prev, n)[i]
    ensures prev.None? ==>
              forall i :: 0 <= i < n && !InSegment(n, which, i) ==> Painted(prev, n, which, c).buffer[i] == Black
  {
    SegmentWithin(n, which);
  }

  /** Painting the same axis twice with the same colour is the same as painting it once. */
  lemma PaintedIdempotent(prev: Option<seq<Color>>, n: count, which: int32, c: Color)
    requires 0 <= which < 3
    requires prev.Some? ==> |prev.value| == n
    ensures AfterPaint(AfterPaint(prev, n, which, c), n, which, c) == AfterPaint(prev, n, which, c)
  {
    PaintedAt(prev, n, which, c);
    var once := AfterPaint(prev, n, which, c);
    PaintedAt(once, n, which, c);
    assert Painted(once, n, which, c).buffer == once.value;
  }

  /** Repainting an axis discards the colour it was painted with before. */
  lemma PaintedLastWins(prev: Option<seq<Color>>, n: count, which: int32, c1: Color, c2: Color)
    requires 0 <= which < 3
    requires prev.Some? ==> |prev.value| == n
    ensures AfterPaint(AfterPaint(prev, n, which, c1), n, which, c2) == AfterPaint(prev, n, which, c2)
  {
    PaintedAt(prev, n, which, c1);
    var first := AfterPaint(prev, n, which, c1);
    PaintedAt(first, n, which, c2);
    PaintedAt(prev, n, which, c2);
    assert Painted(first, n, which, c2).buffer == Painted(prev, n, which, c2).buffer;
  }

  /** Paints of two different axes commute, because their segments are disjoint. */
  lemma PaintedCommute(prev: Option<seq<Color>>, n: count, w1: int32, c1: Color, w2: int32, c2: Color)
    requires 0 <= w1 < 3 && 0 <= w2 < 3 && w1 != w2
    requires prev.Some? ==> |prev.value| == n
    ensures AfterPaint(AfterPaint(prev, n, w1, c1), n, w2, c2) == AfterPaint(AfterPaint(prev, n, w2, c2), n, w1, c1)
  {
    PaintedAt(prev, n, w1, c1);
    PaintedAt(prev, n, w2, c2);
    var a, b := AfterPaint(prev, n, w1, c1), AfterPaint(prev, n, w2, c2);
    PaintedAt(a, n, w2, c2);
    PaintedAt(b, n, w1, c1);
    SegmentWithin(n, w1);
    SegmentWithin(n, w2);
    forall i | 0 <= i < n
      ensures Painted(a, n, w2, c2).buffer[i] == Painted(b, n, w1, c1).buffer[i]
    {
      SegmentsDisjoint(n, w1, w2, i);
    }
    assert Painted(a, n, w2, c2).buffer == Painted(b, n, w1, c1).buffer;
  }

  /**
   * An index that is not an axis: on a mesh of fewer than three vertices the
   * segment is empty, and the baseline (a copy of the current buffer, or n
   * black colours) is installed unchanged; on a mesh whose vertex count is a
   * positive multiple of 3, an index whose bounds do not wrap names a segment
   * that reaches outside the buffer, and the call fails.
   */
  lemma PaintedOutOfRange(prev: Option<seq<Color>>, n: count, which: int32, c: Color)
    requires which < 0 || 3 <= which
    requires prev.Some? ==> |prev.value| == n
    ensures n < 3 ==> Painted(prev, n, which, c) == Installed(Baseline(prev, n))
    ensures 3 <= n && n % 3 == 0 && Unwrapped(n, which) ==> Painted(prev, n, which, c).Failed?
  {
    var s := SegmentSize(n);
    if 3 <= n && Unwrapped(n, which) {
      assert SegmentStart(n, which) == s * which && SegmentEnd(n, which) == s * (which + 1);
      if which < 0 {
        MulMonotone(s, which + 1, 0);
        MulMonotone(s, which, which + 1);
        assert s * which < s * (which + 1);
      } else {
        MulMonotone(s, 4, which + 1);
      }
    }
  }

  /**
   * When the bounds wrap, an index that is not an axis can succeed on a mesh
   * whose vertex count is a multiple of 3: on six vertices, index -2^31
   * paints vertices 0 and 1.
   */
  lemma WrappedIndexPaints(c: Color)
    ensures Painted(None, 6, -0x8000_0000, c) == Installed([c, c, Black, Black, Black, Black])
  {
    assert SegmentStart(6, -0x8000_0000) == 0;
    assert SegmentEnd(6, -0x8000_0000) == 2;
    assert Fill(Black, 6) == [Black, Black, Black, Black, Black, Black];
  }

  /**
   * On three vertices, index 2^31 - 1 makes `which + 1` wrap to -2^31, so the
   * segment is empty and the black baseline is installed.
   */
  lemma WrappedIndexSkipsLoop(c: Color)
    ensures Painted(None, 3, 0x7fff_ffff, c) == Installed([Black, Black, Black])
  {
    assert SegmentStart(3, 0x7fff_ffff) == 0x7fff_ffff;
    assert SegmentEnd(3, 0x7fff_ffff) == -0x8000_0000;
    assert Fill(Black, 3) == [Black, Black, Black];
  }

  /**
   * An index that is not an axis does not always fail: on a mesh of four
   * vertices, index 3 names the range [3, 4), which lies inside the buffer,
   * so the trailing vertex is painted.
   */
  lemma StrayAxisPaintsTrailingVertex(c: Color)
    ensures Painted(None, 4, 3, c) == Installed([Black, Black, Black, c])
  {
    var base := [Black, Black, Black, Black];
    assert Baseline(None, 4) == base;
    assert SegmentStart(4, 3) == 3 && SegmentEnd(4, 3) == 4;
    assert Fill(c, 1) == [c];
    assert Overwrite(base, 3, 4, c) == base[..3] + [c] + base[4..] == [Black, Black, Black, c];
  }

  /**
   * The copy keeps the current buffer's own length, so a buffer longer than
   * the vertex count lets an index that is not an axis succeed: with three
   * vertices and ten colours, index 3 names [3, 4) and paints colour 3.
   */
  lemma LongBufferLetsStrayAxisPaint(c: Color)
    ensures Painted(Some(Fill(Black, 10)), 3, 3, c).Installed?
    ensures Painted(Some(Fill(Black, 10)), 3, 3, c).buffer[3] == c
  {
    assert SegmentStart(3, 3) == 3 && SegmentEnd(3, 3) == 4;
  }

  /** The colouring in which segment w holds axis[w] and the n % 3 trailing vertices are black. */
  function Coloring(n: count, axis: seq<Color>): (r: seq<Color>)
    requires |axis| == 3
    ensures |r| == n
  {
    var s := SegmentSize(n);
    Fill(axis[0], s) + Fill(axis[1], s) + Fill(axis[2], s) + Fill(Black, n - 3 * s)
  }

  lemma ColoringAt(n: count, axis: seq<Color>, i: int)
    requires |axis| == 3 && 0 <= i < n
    ensures forall w: int32 :: 0 <= w < 3 && InSegment(n, w, i) ==> Coloring(n, axis)[i] == axis[w]
    ensures 3 * SegmentSize(n) <= i ==> Coloring(n, axis)[i] == Black
  {
    SegmentWithin(n, 0);
    SegmentWithin(n, 1);
    SegmentWithin(n, 2);
  }

  /** Painting one axis of a three-colour colouring replaces that axis's colour and nothing else. */
  lemma RepaintColoring(n: count, axis: seq<Color>, which: int32, c: Color)
    requires |axis| == 3 && 0 <= which < 3
    ensures AfterPaint(Some(Coloring(n, axis)), n, which, c) == Some(Coloring(n, axis[which := c]))
  {
    var prev := Some(Coloring(n, axis));
    PaintedAt(prev, n, which, c);
    forall i | 0 <= i < n
      ensures Painted(prev, n, which, c).buffer[i] == Coloring(n, axis[which := c])[i]
    {
      ColoringAt(n, axis, i);
      ColoringAt(n, axis[which := c], i);
      Partition(n, i);
      forall w: int32 | 0 <= w < 3 && w != which ensures !(InSegment(n, w, i) && InSegment(n, which, i)) {
        SegmentWithin(n, w);
        SegmentWithin(n, which);
        SegmentsDisjoint(n, w, which, i);
      }
    }
    assert Painted(prev, n, which, c).buffer == Coloring(n, axis[which := c]);
  }

  /**
   * A mesh with no buffer is painted like one whose buffer holds n black
   * vertices (the mesh states differ only if the call fails).
   */
  lemma NoBufferIsBlack(n: count, which: int32, c: Color)
    ensures Painted(None, n, which, c) == Painted(Some(Fill(Black, n)), n, which, c)
  {
    assert Baseline(None, n) == Baseline(Some(Fill(Black, n)), n);
  }

  /**
   * Painting axes 0, 1 and 2 with red, green and blue, starting from no buffer,
   * leaves segment 0 red, segment 1 green, segment 2 blue and the trailing
   * n % 3 vertices black.
   */
  lemma InitialColoring(n: count)
    ensures AfterPaint(AfterPaint(AfterPaint(None, n, 0, Red), n, 1, Green), n, 2, Blue)
            == Some(Coloring(n, [Red, Green, Blue]))
  {
    PaintAllAxes(n, Red, Green, Blue);
  }

  /** Painting axes 0, 1 and 2 with x, y and z from no buffer gives the colouring [x, y, z]. */
  lemma PaintAllAxes(n: count, x: Color, y: Color, z: Color)
    ensures AfterPaint(AfterPaint(AfterPaint(None, n, 0, x), n, 1, y), n, 2, z) == Some(Coloring(n, [x, y, z]))
  {
    PaintFirstTwoAxes(n, x, y);
    RepaintColoring(n, [x, y, Black], 2, z);
    assert [x, y, Black][2 := z] == [x, y, z];
  }

  /** Painting axes 0 and 1 with x and y from no buffer gives the colouring [x, y, black]. */
  lemma PaintFirstTwoAxes(n: count, x: Color, y: Color)
    ensures AfterPaint(AfterPaint(None, n, 0, x), n, 1, y) == Some(Coloring(n, [x, y, Black]))
  {
    FirstPaintFromNothing(n, x);
    RepaintColoring(n, [x, Black, Black], 1, y);
    assert [x, Black, Black][1 := y] == [x, y, Black];
  }

  /** Painting axis 0 with `c` when there is no buffer yet gives segment 0 in `c` and every other vertex black. */
  lemma FirstPaintFromNothing(n: count, c: Color)
    ensures AfterPaint(None, n, 0, c) == Some(Coloring(n, [c, Black, Black]))
  {
    var axis := [c, Black, Black];
    PaintedAt(None, n, 0, c);
    forall i | 0 <= i < n ensures Painted(None, n, 0, c).buffer[i] == Coloring(n, axis)[i] {
      ColoringAt(n, axis, i);
      Partition(n, i);
    }
    assert Painted(None, n, 0, c).buffer == Coloring(n, axis);
  }
}
