/**
 * The ray marcher shared by both renderers (raycaster.py `draw_player_pov`
 * and `offset_position_along_angle`, raycast_png.py `raycast`): a column's
 * ray angle, and the bounded walk along the ray that stops at the first
 * sample whose truncated cell is a wall.
 *
 * The range advances by 0.05 from 0.0 while it is below 20.0.  It is kept
 * as a step counter k with range k * 0.05, so at most 400 samples are taken
 * in exact arithmetic.  The direction of a ray enters as the values
 * c = cos(angle) and s = sin(angle).
 */
module RayMarch {
  import opened Numeric
  import opened Grid

  const Step: real := 0.05
  const MaxRange: real := 20.0
  const MaxSteps: nat := 400

  /** The range reached after k increments. */
  function Range(k: nat): (t: real)
    ensures 0.0 <= t
    ensures t < MaxRange <==> k < MaxSteps
  {
    k as real * Step
  }

  /**
   * The angle of the ray for column i: the left edge of the field of vision
   * plus column i's share of it.
   */
  function RayAngle(viewAngle: real, fov: real, i: int, imageWidth: int): (a: real)
    requires 0 < imageWidth
    ensures 0 <= i < imageWidth && 0.0 < fov ==> viewAngle - fov / 2.0 <= a < viewAngle + fov / 2.0
  {
    var share := i as real / imageWidth as real;
    assert 0 <= i < imageWidth ==> 0.0 <= share < 1.0;
    assert 0 <= i < imageWidth && 0.0 < fov ==> 0.0 <= fov * share < fov by {
      if 0 <= i < imageWidth && 0.0 < fov { ShareBounds(fov, share); }
    }
    (viewAngle - fov / 2.0) + fov * share
  }

  lemma ShareBounds(fov: real, share: real)
    requires 0.0 < fov && 0.0 <= share < 1.0
    ensures 0.0 <= fov * share < fov
  {
    assert fov - fov * share == fov * (1.0 - share);
    assert 0.0 < fov * (1.0 - share);
  }

  /** Ray angles strictly increase from the left column to the right one. */
  lemma RayAngleIncreasing(viewAngle: real, fov: real, i: int, j: int, imageWidth: int)
    requires 0 < imageWidth && 0.0 < fov && i < j
    ensures RayAngle(viewAngle, fov, i, imageWidth) < RayAngle(viewAngle, fov, j, imageWidth)
  {
    var w := imageWidth as real;
    var d := j as real / w - i as real / w;
    assert d == (j - i) as real / w;
    assert 0.0 < d;
    assert fov * (j as real / w) - fov * (i as real / w) == fov * d;
    assert 0.0 < fov * d;
  }

  /**
   * `offset_position_along_angle`: the cell, by truncation, of the point
   * `offset` units from (x, y) along direction (c, s).
   */
  function OffsetPosition(x: real, y: real, offset: real, c: real, s: real): (cell: (int, int))
    ensures offset == 0.0 ==> cell == (Trunc(x), Trunc(y))
    ensures 0.0 <= x + offset * c ==> cell.0 as real <= x + offset * c < cell.0 as real + 1.0
    ensures 0.0 <= y + offset * s ==> cell.1 as real <= y + offset * s < cell.1 as real + 1.0
    ensures x + offset * c < 0.0 ==> cell.0 as real - 1.0 < x + offset * c <= cell.0 as real
    ensures y + offset * s < 0.0 ==> cell.1 as real - 1.0 < y + offset * s <= cell.1 as real
  {
    var px, py := Along(x, offset, c), Along(y, offset, s);
    assert offset == 0.0 ==> px == x && py == y;
    (Trunc(px), Trunc(py))
  }

  /** One coordinate of the point `offset` units along a direction with component d. */
  function Along(v: real, offset: real, d: real): real {
    v + offset * d
  }

  /** The cell sampled at step k of the ray from (px, py) along (c, s). */
  function Sample(px: real, py: real, c: real, s: real, k: nat): (int, int) {
    OffsetPosition(px, py, Range(k), c, s)
  }

  /** Sample k lies in the layout and is open: the march goes on past it. */
  predicate SampleOpen(layout: seq<char>, w: int, px: real, py: real, c: real, s: real, k: nat) {
    var cell := Sample(px, py, c, s, k);
    InLayout(layout, w, cell.0, cell.1) && CellIsOpen(layout, w, cell.0, cell.1)
  }

  /** Sample k lies in the layout and is a wall: the march stops there. */
  predicate SampleWall(layout: seq<char>, w: int, px: real, py: real, c: real, s: real, k: nat) {
    var cell := Sample(px, py, c, s, k);
    InLayout(layout, w, cell.0, cell.1) && !CellIsOpen(layout, w, cell.0, cell.1)
  }

  /**
   * How a march ends: a wall at some step, the range running out, or a
   * sample whose flat index falls outside the layout (where the source's
   * lookup would wrap around or raise; the model never follows it there).
   */
  datatype Cast = Hit(step: nat) | Miss | OffLayout(step: nat)

  /** The march loop from step k on. */
  function March(layout: seq<char>, w: int, px: real, py: real, c: real, s: real, k: nat): (r: Cast)
    ensures r.Hit? || r.OffLayout? ==> k <= r.step < MaxSteps
    decreases MaxSteps - k
  {
    if Range(k) >= MaxRange then
      Miss
    else
      var cell := Sample(px, py, c, s, k);
      if !InLayout(layout, w, cell.0, cell.1) then OffLayout(k)
      else if !CellIsOpen(layout, w, cell.0, cell.1) then Hit(k)
      else March(layout, w, px, py, c, s, k + 1)
  }

  /**
   * The march hits at step k exactly when sample k is a wall within range
   * and every earlier sample from k0 on is open: the first wall, and only it.
   */
  lemma {:induction false} MarchHitIff(layout: seq<char>, w: int, px: real, py: real, c: real, s: real, k0: nat, k: nat)
    ensures March(layout, w, px, py, c, s, k0) == Hit(k) <==>
      k0 <= k < MaxSteps && SampleWall(layout, w, px, py, c, s, k)
      && forall j :: k0 <= j < k ==> SampleOpen(layout, w, px, py, c, s, j)
    decreases MaxSteps - k0
  {
    if k0 < MaxSteps && SampleOpen(layout, w, px, py, c, s, k0) {
      MarchHitIff(layout, w, px, py, c, s, k0 + 1, k);
      if k0 == k {
        assert !SampleWall(layout, w, px, py, c, s, k);
      }
    }
  }

  /**
   * The march runs out of range exactly when every sample from k0 up to
   * the 400th is open.
   */
  lemma {:induction false} MarchMissIff(layout: seq<char>, w: int, px: real, py: real, c: real, s: real, k0: nat)
    ensures March(layout, w, px, py, c, s, k0) == Miss <==>
      forall j :: k0 <= j < MaxSteps ==> SampleOpen(layout, w, px, py, c, s, j)
    decreases MaxSteps - k0
  {
    if k0 < MaxSteps {
      MarchMissIff(layout, w, px, py, c, s, k0 + 1);
      if !SampleOpen(layout, w, px, py, c, s, k0) {
        assert March(layout, w, px, py, c, s, k0) != Miss;
      }
    }
  }

  /** An `OffLayout` ending lies within range past open samples only. */
  lemma {:induction false} MarchOffLayout(layout: seq<char>, w: int, px: real, py: real, c: real, s: real, k0: nat, k: nat)
    requires March(layout, w, px, py, c, s, k0) == OffLayout(k)
    ensures k0 <= k < MaxSteps
    ensures !InLayout(layout, w, Sample(px, py, c, s, k).0, Sample(px, py, c, s, k).1)
    ensures forall j :: k0 <= j < k ==> SampleOpen(layout, w, px, py, c, s, j)
    decreases MaxSteps - k0
  {
    assert Range(k0) < MaxRange;
    var cell := Sample(px, py, c, s, k0);
    if InLayout(layout, w, cell.0, cell.1) {
      MarchOffLayout(layout, w, px, py, c, s, k0 + 1, k);
    }
  }

  /**
   * Step 0 samples the viewer's own cell, so a viewer standing in an open
   * cell never hits at step 0: every hit is at range 0.05 or more, and the
   * range a wall height is divided by is positive.
   */
  lemma HitIsAhead(layout: seq<char>, w: int, px: real, py: real, c: real, s: real, k: nat)
    requires InLayout(layout, w, Trunc(px), Trunc(py)) && CellIsOpen(layout, w, Trunc(px), Trunc(py))
    requires March(layout, w, px, py, c, s, 0) == Hit(k)
    ensures 1 <= k && Step <= Range(k)
  {
    MarchHitIff(layout, w, px, py, c, s, 0, k);
    assert Sample(px, py, c, s, 0) == (Trunc(px), Trunc(py));
  }

  /** A range along a ray at `rayAngle`, projected onto the view direction. */
  function Corrected(cos: real -> real, range: real, rayAngle: real, viewAngle: real): real {
    range * cos(rayAngle - viewAngle)
  }

  lemma CorrectedStraight(cos: real -> real, range: real, rayAngle: real, viewAngle: real)
    requires rayAngle == viewAngle && cos(0.0) == 1.0
    ensures Corrected(cos, range, rayAngle, viewAngle) == range
  {
    assert rayAngle - viewAngle == 0.0;
  }

  /** The number of columns `range(0, image_width)` visits. */
  function Columns(imageWidth: int): nat {
    if imageWidth < 0 then 0 else imageWidth
  }

  lemma NonZeroProduct(a: real, b: real)
    requires a != 0.0 && b != 0.0
    ensures a * b != 0.0
  {
  }
}
