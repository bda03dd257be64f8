/**
 * `draw_player_pov` of raycaster.py: one ray per screen column, marched
 * until it meets a wall, and for each hit one vertical slice handed to the
 * drawing call.  The drawing call itself stays outside the model: the
 * method returns the slices in the order they are drawn.
 *
 * `cos` and `sin` are abstract functions on reals.
 */
module Pov {
  import opened Numeric
  import opened Wrappers
  import opened Colours
  import opened Grid
  import opened RayMarch
  import opened Viewer

  /** The rectangle (left, top, width, height) of a slice, and its colour. */
  datatype Slice = Slice(left: int, top: real, width: int, height: real, colour: Rgb)

  /**
   * Column i lies on a cell boundary when i modulo the (real-valued) cell
   * width is zero; boundary slices are white, the others black.
   */
  function SliceColour(i: int, cellWidth: real): (c: Rgb)
    requires cellWidth != 0.0
    ensures c == White || c == Black
    ensures c == White <==> IsIntegral(i as real / cellWidth)
  {
    if FloatMod(i as real, cellWidth) == 0.0 then White else Black
  }

  /** With whole cells, the test is the integer remainder of the column. */
  lemma SliceColourWholeCells(i: int, n: int)
    requires 0 < n
    ensures SliceColour(i, n as real) == White <==> i % n == 0
  {
    FloatModOfInts(i, n);
  }

  /**
   * The slice for a hit in column i at corrected distance `perp`: one pixel
   * wide, as tall as the image height divided by the distance, centred
   * vertically.
   */
  function SliceFor(i: int, perp: real, imageHeight: int, cellWidth: real): (r: Slice)
    requires perp != 0.0 && cellWidth != 0.0
    ensures r.left == i && r.width == 1
    ensures r.height * perp == imageHeight as real
    ensures r.top + r.height / 2.0 == imageHeight as real / 2.0
    ensures r.top + r.height == imageHeight as real - r.top
    ensures r.colour == SliceColour(i, cellWidth)
  {
    var columnHeight := imageHeight as real / perp;
    Slice(i, imageHeight as real / 2.0 - columnHeight / 2.0, 1, columnHeight, SliceColour(i, cellWidth))
  }

  /** Nearer walls give taller slices. */
  lemma NearerIsTaller(i: int, near: real, far: real, imageHeight: int, cellWidth: real)
    requires 0.0 < near < far && 0 < imageHeight && cellWidth != 0.0
    ensures SliceFor(i, near, imageHeight, cellWidth).height > SliceFor(i, far, imageHeight, cellWidth).height
    ensures SliceFor(i, near, imageHeight, cellWidth).top < SliceFor(i, far, imageHeight, cellWidth).top
  {
    var h := imageHeight as real;
    var a, b := h / near, h / far;
    assert a * near == h && b * far == h;
    assert b * near < h by {
      assert b * far - b * near == b * (far - near);
      assert 0.0 < b;
      assert 0.0 < b * (far - near);
    }
  }

  /** The ray angle of column i for viewer pose p. */
  function ColumnAngle(p: Pose, imageWidth: int, i: int): real
    requires 0 < imageWidth
  {
    RayAngle(p.viewAngle, p.fieldOfVision, i, imageWidth)
  }

  /** How the march of column i ends. */
  function ColumnCast(p: Pose, m: GameMap, cos: real -> real, sin: real -> real, imageWidth: int, i: int): Cast
    requires 0 < imageWidth
  {
    var a := ColumnAngle(p, imageWidth, i);
    March(m.layout, m.width, p.x, p.y, cos(a), sin(a), 0)
  }

  /**
   * The distance a hit at step k of column i is drawn at: the range along
   * the ray times the cosine of the ray's angle off the view direction,
   * which removes the fish-eye distortion.
   */
  function HitDistance(p: Pose, cos: real -> real, imageWidth: int, i: int, k: nat): real
    requires 0 < imageWidth
  {
    Corrected(cos, Range(k), ColumnAngle(p, imageWidth, i), p.viewAngle)
  }

  /**
   * Column i can be rendered as the source renders it: its march stays
   * inside the layout, and a hit leaves no zero divisor in the height or
   * in the boundary test.
   */
  predicate ColumnDrawable(p: Pose, m: GameMap, cos: real -> real, sin: real -> real, imageWidth: int, i: int)
    requires 0 < imageWidth
  {
    var cast := ColumnCast(p, m, cos, sin, imageWidth, i);
    !cast.OffLayout?
    && (cast.Hit? ==> HitDistance(p, cos, imageWidth, i, cast.step) != 0.0 && m.cellWidth != 0.0)
  }

  predicate Drawable(p: Pose, m: GameMap, cos: real -> real, sin: real -> real, imageWidth: int) {
    forall i :: 0 <= i < imageWidth ==> ColumnDrawable(p, m, cos, sin, imageWidth, i)
  }

  /** For a viewer in an open cell, only a zero cosine can leave a zero divisor. */
  lemma DrawableWhenStanding(p: Pose, m: GameMap, cos: real -> real, sin: real -> real, imageWidth: int, i: int)
    requires 0 <= i < imageWidth && Standing(m, p.x, p.y) && m.cellWidth != 0.0
    requires !ColumnCast(p, m, cos, sin, imageWidth, i).OffLayout?
    requires cos(ColumnAngle(p, imageWidth, i) - p.viewAngle) != 0.0
    ensures ColumnDrawable(p, m, cos, sin, imageWidth, i)
  {
    var a := ColumnAngle(p, imageWidth, i);
    var cast := ColumnCast(p, m, cos, sin, imageWidth, i);
    if cast.Hit? {
      HitIsAhead(m.layout, m.width, p.x, p.y, cos(a), sin(a), cast.step);
      assert 0.0 < Range(cast.step);
      NonZeroProduct(Range(cast.step), cos(a - p.viewAngle));
    }
  }

  /** What column i draws: a slice exactly when its ray hits a wall. */
  function Column(p: Pose, m: GameMap, cos: real -> real, sin: real -> real, imageWidth: int, imageHeight: int, i: int)
    : (r: Option<Slice>)
    requires 0 <= i < imageWidth && ColumnDrawable(p, m, cos, sin, imageWidth, i)
    ensures r.Some? <==> ColumnCast(p, m, cos, sin, imageWidth, i).Hit?
    ensures r.Some? ==>
      r.value == SliceFor(i, HitDistance(p, cos, imageWidth, i, ColumnCast(p, m, cos, sin, imageWidth, i).step),
                          imageHeight, m.cellWidth)
  {
    var cast := ColumnCast(p, m, cos, sin, imageWidth, i);
    if cast.Hit? then
      Some(SliceFor(i, HitDistance(p, cos, imageWidth, i, cast.step), imageHeight, m.cellWidth))
    else
      None
  }

  /**
   * A ray cast straight along the view angle needs no correction: with
   * cos(0) = 1 its slice height is the image height over the range.
   */
  lemma StraightAhead(p: Pose, m: GameMap, cos: real -> real, sin: real -> real, imageWidth: int, imageHeight: int, i: int)
    requires 0 <= i < imageWidth && ColumnDrawable(p, m, cos, sin, imageWidth, i)
    requires ColumnAngle(p, imageWidth, i) == p.viewAngle && cos(0.0) == 1.0
    requires ColumnCast(p, m, cos, sin, imageWidth, i).Hit?
    ensures var k := ColumnCast(p, m, cos, sin, imageWidth, i).step;
      Column(p, m, cos, sin, imageWidth, imageHeight, i).value.height == imageHeight as real / Range(k)
  {
    var k := ColumnCast(p, m, cos, sin, imageWidth, i).step;
    var perp := HitDistance(p, cos, imageWidth, i, k);
    CorrectedStraight(cos, Range(k), ColumnAngle(p, imageWidth, i), p.viewAngle);
    assert perp == Range(k);
    assert Column(p, m, cos, sin, imageWidth, imageHeight, i).value == SliceFor(i, perp, imageHeight, m.cellWidth);
    assert SliceFor(i, perp, imageHeight, m.cellWidth).height == imageHeight as real / perp;
  }

  /** The slices of a run of columns, in column order, skipping the columns that draw nothing. */
  function Collect(cols: seq<Option<Slice>>): seq<Slice> {
    if cols == [] then []
    else
      var prev := Collect(cols[..|cols| - 1]);
      match cols[|cols| - 1]
      case Some(s) => prev + [s]
      case None => prev
  }

  /** Each present slice sits in its own column. */
  predicate Labelled(cols: seq<Option<Slice>>) {
    forall i :: 0 <= i < |cols| && cols[i].Some? ==> cols[i].value.left == i
  }

  /** Some slice of r sits in column i. */
  predicate HasSliceAt(r: seq<Slice>, i: int) {
    exists j :: 0 <= j < |r| && r[j].left == i
  }

  lemma CollectAppend(cols: seq<Option<Slice>>, c: Option<Slice>)
    ensures Collect(cols + [c]) == if c.Some? then Collect(cols) + [c.value] else Collect(cols)
  {
    assert (cols + [c])[..|cols|] == cols;
  }

  /**
   * Every collected slice comes from the column it names, so the slices are
   * in strictly increasing column order.
   */
  lemma {:induction false} CollectFrom(cols: seq<Option<Slice>>, j: int)
    requires Labelled(cols) && 0 <= j < |Collect(cols)|
    ensures 0 <= Collect(cols)[j].left < |cols|
    ensures cols[Collect(cols)[j].left] == Some(Collect(cols)[j])
    decreases |cols|
  {
    var init := cols[..|cols| - 1];
    assert Labelled(init);
    CollectAppend(init, cols[|cols| - 1]);
    assert init + [cols[|cols| - 1]] == cols;
    if j < |Collect(init)| {
      CollectFrom(init, j);
    }
  }

  lemma {:induction false} CollectOrdered(cols: seq<Option<Slice>>, j: int, j': int)
    requires Labelled(cols) && 0 <= j < j' < |Collect(cols)|
    ensures Collect(cols)[j].left < Collect(cols)[j'].left
    decreases |cols|
  {
    var init := cols[..|cols| - 1];
    assert Labelled(init);
    CollectAppend(init, cols[|cols| - 1]);
    assert init + [cols[|cols| - 1]] == cols;
    if j' < |Collect(init)| {
      CollectOrdered(init, j, j');
    } else {
      CollectFrom(init, j);
    }
  }

  /** Column i has a collected slice exactly when it draws one. */
  lemma {:induction false} CollectCover(cols: seq<Option<Slice>>, i: int)
    requires Labelled(cols) && 0 <= i < |cols|
    ensures HasSliceAt(Collect(cols), i) <==> cols[i].Some?
    decreases |cols|
  {
    var init := cols[..|cols| - 1];
    var last := cols[|cols| - 1];
    assert Labelled(init);
    CollectAppend(init, last);
    assert init + [last] == cols;
    var r := Collect(cols);
    if i < |init| {
      CollectCover(init, i);
      if last.Some? {
        assert r[|Collect(init)|].left == |init|;
      }
      assert forall j :: 0 <= j < |Collect(init)| ==> r[j] == Collect(init)[j];
      if HasSliceAt(r, i) {
        var j :| 0 <= j < |r| && r[j].left == i;
        assert j < |Collect(init)|;
      }
    } else {
      if last.Some? {
        assert r[|Collect(init)|].left == i;
      } else if HasSliceAt(r, i) {
        var j :| 0 <= j < |r| && r[j].left == i;
        CollectFrom(init, j);
      }
    }
  }

  /** What each of the columns 0 .. n-1 draws. */
  function PovColumns(p: Pose, m: GameMap, cos: real -> real, sin: real -> real, imageWidth: int, imageHeight: int, n: nat)
    : (r: seq<Option<Slice>>)
    requires n <= Columns(imageWidth)
    requires forall i :: 0 <= i < n ==> ColumnDrawable(p, m, cos, sin, imageWidth, i)
    ensures |r| == n
    decreases n
  {
    if n == 0 then []
    else PovColumns(p, m, cos, sin, imageWidth, imageHeight, n - 1) + [Column(p, m, cos, sin, imageWidth, imageHeight, n - 1)]
  }

  lemma {:induction false} PovColumnsIndex(p: Pose, m: GameMap, cos: real -> real, sin: real -> real,
                                           imageWidth: int, imageHeight: int, n: nat, i: int)
    requires n <= Columns(imageWidth)
    requires forall i :: 0 <= i < n ==> ColumnDrawable(p, m, cos, sin, imageWidth, i)
    requires 0 <= i < n
    ensures PovColumns(p, m, cos, sin, imageWidth, imageHeight, n)[i] == Column(p, m, cos, sin, imageWidth, imageHeight, i)
    decreases n
  {
    if i < n - 1 {
      PovColumnsIndex(p, m, cos, sin, imageWidth, imageHeight, n - 1, i);
    }
  }

  lemma PovColumnsLabelled(p: Pose, m: GameMap, cos: real -> real, sin: real -> real,
                           imageWidth: int, imageHeight: int, n: nat)
    requires n <= Columns(imageWidth)
    requires forall i :: 0 <= i < n ==> ColumnDrawable(p, m, cos, sin, imageWidth, i)
    ensures Labelled(PovColumns(p, m, cos, sin, imageWidth, imageHeight, n))
  {
    var cols := PovColumns(p, m, cos, sin, imageWidth, imageHeight, n);
    forall i | 0 <= i < n && cols[i].Some?
      ensures cols[i].value.left == i
    {
      PovColumnsIndex(p, m, cos, sin, imageWidth, imageHeight, n, i);
    }
  }

  /** The slices drawn for columns 0 .. n-1, in column order. */
  function PovSlices(p: Pose, m: GameMap, cos: real -> real, sin: real -> real, imageWidth: int, imageHeight: int, n: nat)
    : seq<Slice>
    requires n <= Columns(imageWidth)
    requires forall i :: 0 <= i < n ==> ColumnDrawable(p, m, cos, sin, imageWidth, i)
  {
    Collect(PovColumns(p, m, cos, sin, imageWidth, imageHeight, n))
  }

  /** Every slice drawn is the slice of its own column, one of 0 .. n-1. */
  lemma PovSlicesAreColumns(p: Pose, m: GameMap, cos: real -> real, sin: real -> real,
                            imageWidth: int, imageHeight: int, n: nat, j: int)
    requires n <= Columns(imageWidth)
    requires forall i :: 0 <= i < n ==> ColumnDrawable(p, m, cos, sin, imageWidth, i)
    requires 0 <= j < |PovSlices(p, m, cos, sin, imageWidth, imageHeight, n)|
    ensures var s := PovSlices(p, m, cos, sin, imageWidth, imageHeight, n)[j];
      0 <= s.left < n && Column(p, m, cos, sin, imageWidth, imageHeight, s.left) == Some(s)
  {
    var cols := PovColumns(p, m, cos, sin, imageWidth, imageHeight, n);
    PovColumnsLabelled(p, m, cos, sin, imageWidth, imageHeight, n);
    CollectFrom(cols, j);
    PovColumnsIndex(p, m, cos, sin, imageWidth, imageHeight, n, Collect(cols)[j].left);
  }

  /** The slices are drawn left to right, at most one per column. */
  lemma PovSlicesOrdered(p: Pose, m: GameMap, cos: real -> real, sin: real -> real,
                         imageWidth: int, imageHeight: int, n: nat, j: int, j': int)
    requires n <= Columns(imageWidth)
    requires forall i :: 0 <= i < n ==> ColumnDrawable(p, m, cos, sin, imageWidth, i)
    requires 0 <= j < j' < |PovSlices(p, m, cos, sin, imageWidth, imageHeight, n)|
    ensures PovSlices(p, m, cos, sin, imageWidth, imageHeight, n)[j].left
            < PovSlices(p, m, cos, sin, imageWidth, imageHeight, n)[j'].left
  {
    PovColumnsLabelled(p, m, cos, sin, imageWidth, imageHeight, n);
    CollectOrdered(PovColumns(p, m, cos, sin, imageWidth, imageHeight, n), j, j');
  }

  /** Column i < n has a slice exactly when its ray hits a wall. */
  lemma PovSlicesCover(p: Pose, m: GameMap, cos: real -> real, sin: real -> real,
                       imageWidth: int, imageHeight: int, n: nat, i: int)
    requires n <= Columns(imageWidth)
    requires forall i :: 0 <= i < n ==> ColumnDrawable(p, m, cos, sin, imageWidth, i)
    requires 0 <= i < n
    ensures ColumnCast(p, m, cos, sin, imageWidth, i).Hit?
            <==> HasSliceAt(PovSlices(p, m, cos, sin, imageWidth, imageHeight, n), i)
  {
    PovColumnsLabelled(p, m, cos, sin, imageWidth, imageHeight, n);
    CollectCover(PovColumns(p, m, cos, sin, imageWidth, imageHeight, n), i);
    PovColumnsIndex(p, m, cos, sin, imageWidth, imageHeight, n, i);
  }

  /**
   * `draw_player_pov`: for every column, march the ray from range 0.0 in
   * steps of 0.05 while the range is below 20.0; at the first sample that is
   * not accessible, emit the slice and stop that column.
   */
  method DrawPlayerPov(player: Player, m: GameMap, cos: real -> real, sin: real -> real,
                       imageWidth: int, imageHeight: int)
    returns (slices: seq<Slice>)
    requires Drawable(player.State(), m, cos, sin, imageWidth)
    ensures slices == PovSlices(player.State(), m, cos, sin, imageWidth, imageHeight, Columns(imageWidth))
  {
    ghost var p := player.State();
    ghost var cols: seq<Option<Slice>> := [];
    slices := [];
    var i := 0;
    while i < imageWidth
      invariant 0 <= i <= Columns(imageWidth)
      invariant cols == PovColumns(p, m, cos, sin, imageWidth, imageHeight, i)
      invariant slices == Collect(cols)
    {
      var rayAngle := RayAngle(player.viewAngle, player.fieldOfVision, i, imageWidth);
      assert rayAngle == ColumnAngle(p, imageWidth, i);
      assert ColumnDrawable(p, m, cos, sin, imageWidth, i);
      var slice := MarchColumn(player, m, cos, sin, imageWidth, imageHeight, i, rayAngle);
      if slice.Some? {
        slices := slices + [slice.value];
      }
      CollectAppend(cols, slice);
      cols := cols + [slice];
      i := i + 1;
    }
  }

  /** The divisors met when column i hits at step k are the nonzero distance and cell width. */
  lemma HitAt(p: Pose, m: GameMap, cos: real -> real, sin: real -> real, imageWidth: int, i: int, k: nat,
              rayRange: real, rayAngle: real)
    requires 0 <= i < imageWidth && ColumnDrawable(p, m, cos, sin, imageWidth, i)
    requires ColumnCast(p, m, cos, sin, imageWidth, i) == Hit(k)
    requires rayRange == Range(k) && rayAngle == ColumnAngle(p, imageWidth, i)
    ensures HitDistance(p, cos, imageWidth, i, k) == Corrected(cos, rayRange, rayAngle, p.viewAngle) != 0.0
    ensures m.cellWidth != 0.0
  {
  }

  /**
   * The inner loop of `draw_player_pov` for column i, whose ray leaves at
   * `rayAngle`: the slice it draws, if its ray hits a wall.
   */
  method MarchColumn(player: Player, m: GameMap, cos: real -> real, sin: real -> real,
                     imageWidth: int, imageHeight: int, i: int, rayAngle: real)
    returns (slice: Option<Slice>)
    requires 0 <= i < imageWidth && ColumnDrawable(player.State(), m, cos, sin, imageWidth, i)
    requires rayAngle == ColumnAngle(player.State(), imageWidth, i)
    ensures slice == Column(player.State(), m, cos, sin, imageWidth, imageHeight, i)
  {
    ghost var p := player.State();
    ghost var cast := ColumnCast(p, m, cos, sin, imageWidth, i);
    ghost var k: nat := 0;
    slice := None;
    var rayRange := 0.0;
    while rayRange < 20.0
      invariant rayRange == Range(k) && k <= MaxSteps
      invariant March(m.layout, m.width, p.x, p.y, cos(rayAngle), sin(rayAngle), k) == cast
      invariant slice == None
      decreases MaxSteps - k
    {
      var rayMap := OffsetPosition(player.x, player.y, rayRange, cos(rayAngle), sin(rayAngle));
      var rayFrameX := rayMap.0 as real * m.cellWidth;
      var rayFrameY := rayMap.1 as real * m.cellHeight;
      if !m.IsAccessible(rayMap.0, rayMap.1) {
        assert cast == Hit(k);
        HitAt(p, m, cos, sin, imageWidth, i, k, rayRange, rayAngle);
        assert player.viewAngle == p.viewAngle;
        var distance := Corrected(cos, rayRange, rayAngle, player.viewAngle);
        slice := Some(SliceFor(i, distance, imageHeight, m.cellWidth));
        return;
      }
      rayRange := rayRange + 0.05;
      k := k + 1;
    }
    assert cast == Miss;
  }
}
