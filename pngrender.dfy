/**
 * `raycast` of raycast_png.py: for every image column, march a ray from the
 * player until it meets a wall, and paint one rectangle for the hit into a
 * white frame buffer.  The module-level settings the function reads become
 * a `Scene` value; `cos` and `sin` are abstract functions on reals.
 *
 * The rectangle of column i is placed at x = int(IMAGE_WIDTH/2 + i), half an
 * image to the right of the column, and the buffer index cx + cy*IMAGE_WIDTH
 * is used as written, so the right half of the view lands in the next pixel
 * row (RightHalfWraps).
 */
module PngRender {
  import opened Numeric
  import opened Wrappers
  import opened Colours
  import opened Grid
  import opened RayMarch
  import opened FrameBuffer

  /** The settings `raycast` reads: map, image and cell sizes, and the player. */
  datatype Scene = Scene(layout: seq<char>, mapWidth: int, imageWidth: int, imageHeight: int,
                         cellWidth: real, cellHeight: real,
                         playerX: real, playerY: real, playerA: real, fov: real)

  /** A rectangle to paint: corner (x, y), size and colour. */
  datatype Rect = Rect(x: int, y: int, width: int, height: int, colour: Rgb)

  /** The layout shipped with raycast_png.py (lines 9-27), one string per row. */
  const PngRows: seq<seq<char>> := [
    "XXXXXXXXXXXXXXXX",
    "X              X",
    "X      X       X",
    "X   XXXXX      X",
    "X   XX         X",
    "X              X",
    "X              X",
    "X              X",
    "X              X",
    "X              X",
    "X              X",
    "X              X",
    "X              X",
    "X              X",
    "X              X",
    "XXXXXXXXXXXXXXXX"
  ]

  /**
   * The shipped settings: a 1024x1024 image of a 16x16 map, cells of
   * 1024/16 pixels, the player at (2, 2) facing 1.57 radians with a field
   * of vision of pi/2 (`pi` enters as a parameter).
   */
  function ShippedScene(pi: real): Scene {
    Scene(Join(PngRows), 16, 1024, 1024, 1024.0 / 16.0, 1024.0 / 16.0, 2.0, 2.0, 1.57, pi / 2.0)
  }

  /**
   * The shipped layout has one character per cell, and its cells are 64
   * pixels on a side, so the boundary test never divides by zero.
   */
  lemma ShippedSceneShape(pi: real)
    ensures |ShippedScene(pi).layout| == 16 * 16
    ensures Trunc(ShippedScene(pi).cellWidth) == 64 && Trunc(ShippedScene(pi).cellHeight) == 64
    ensures forall pixX :: ColourDefined(pixX, ShippedScene(pi).cellWidth, ShippedScene(pi).cellHeight)
  {
    assert forall j :: 0 <= j < |PngRows| ==> |PngRows[j]| == 16;
    JoinLength(PngRows, 16);
    TruncOfInt(64);
    assert 1024.0 / 16.0 == 64 as real;
  }

  /** The angle of column i's ray. */
  function Angle(sc: Scene, i: int): real
    requires 0 < sc.imageWidth
  {
    RayAngle(sc.playerA, sc.fov, i, sc.imageWidth)
  }

  /** How the march of column i ends. */
  function CastOf(sc: Scene, cos: real -> real, sin: real -> real, i: int): Cast
    requires 0 < sc.imageWidth
  {
    var a := Angle(sc, i);
    March(sc.layout, sc.mapWidth, sc.playerX, sc.playerY, cos(a), sin(a), 0)
  }

  /** `cx` and `cy`: the point at range t along the ray at angle a. */
  function PointX(sc: Scene, cos: real -> real, a: real, t: real): real {
    Along(sc.playerX, t, cos(a))
  }

  function PointY(sc: Scene, sin: real -> real, a: real, t: real): real {
    Along(sc.playerY, t, sin(a))
  }

  /** `pix_x = cx * CELL_WIDTH`: a map coordinate in pixels. */
  function ToPixels(v: real, cellSize: real): real {
    v * cellSize
  }

  /**
   * The boundary test can be evaluated: the cell width truncates to a
   * non-zero divisor, and so does the cell height whenever the `or` reaches it.
   */
  predicate ColourDefined(pixX: real, cellWidth: real, cellHeight: real) {
    Trunc(cellWidth) != 0 && (Trunc(pixX) % Trunc(cellWidth) != 0 ==> Trunc(cellHeight) != 0)
  }

  /**
   * The colour of a hit: white when either truncated pixel coordinate of the
   * hit point is a multiple of the truncated cell size, black otherwise.
   */
  function BoundaryColour(pixX: real, pixY: real, cellWidth: real, cellHeight: real): (c: Rgb)
    requires ColourDefined(pixX, cellWidth, cellHeight)
    ensures c == White || c == Black
    ensures c == White <==>
      DividedBy(Trunc(pixX), Trunc(cellWidth)) || DividedBy(Trunc(pixY), Trunc(cellHeight))
  {
    ModZeroIffDivides(Trunc(pixX), Trunc(cellWidth));
    assert Trunc(cellHeight) != 0 ==> (Trunc(pixY) % Trunc(cellHeight) == 0 <==> DividedBy(Trunc(pixY), Trunc(cellHeight))) by {
      if Trunc(cellHeight) != 0 { ModZeroIffDivides(Trunc(pixY), Trunc(cellHeight)); }
    }
    if Trunc(pixX) % Trunc(cellWidth) == 0 || Trunc(pixY) % Trunc(cellHeight) == 0 then White else Black
  }

  /** A hit whose x pixel is a whole number of cells in is on a boundary. */
  lemma BoundaryAtCellEdge(pixX: real, pixY: real, cells: int, size: int, cellHeight: real)
    requires 0 < size && pixX == (cells * size) as real
    ensures ColourDefined(pixX, size as real, cellHeight)
    ensures BoundaryColour(pixX, pixY, size as real, cellHeight) == White
  {
    var n := cells * size;
    TruncOfInt(size);
    TruncOfInt(n);
    ModZeroIffDivides(n, size);
    assert DividedBy(n, size) by { assert cells * size == n; }
  }

  /** `column_height`: the image height over the corrected distance. */
  function ColumnHeight(imageHeight: int, distance: real): (h: real)
    requires distance != 0.0
    ensures h * distance == imageHeight as real
  {
    imageHeight as real / distance
  }

  /**
   * The rectangle for column i at column height ch: one pixel wide, its
   * height truncated, its top the truncated centre line minus half the
   * height, and its x the column shifted right by half the image width.
   */
  function RectFor(imageWidth: int, imageHeight: int, i: int, ch: real, colour: Rgb): (r: Rect)
    ensures r.width == 1 && r.height == Trunc(ch) && r.colour == colour
    ensures 0 <= imageWidth && 0 <= i ==> r.x == imageWidth / 2 + i
    ensures r.y == Trunc(imageHeight as real / 2.0 - ch / 2.0)
  {
    var x := imageWidth as real / 2.0 + i as real;
    assert 0 <= imageWidth && 0 <= i ==> Trunc(x) == imageWidth / 2 + i by {
      if 0 <= imageWidth && 0 <= i {
        var h := imageWidth / 2;
        assert imageWidth == 2 * h || imageWidth == 2 * h + 1;
        assert (h + i) as real <= x < (h + i) as real + 1.0;
      }
    }
    Rect(Trunc(x), Trunc(imageHeight as real / 2.0 - ch / 2.0), 1, Trunc(ch), colour)
  }

  /**
   * Only the left half of the columns, i < W - W/2, are drawn inside their
   * own pixel row; every later column's x is past the row's end, and its
   * pixels land at the start of the next row.
   */
  lemma RightHalfWraps(imageWidth: int, imageHeight: int, i: int, ch: real, colour: Rgb, cy: int)
    requires 0 <= i < imageWidth
    ensures var r := RectFor(imageWidth, imageHeight, i, ch, colour);
      (r.x < imageWidth <==> i < imageWidth - imageWidth / 2)
      && (imageWidth <= r.x ==>
            (r.x - imageWidth < imageWidth
             && FlatIndex(r.x, cy, imageWidth) == FlatIndex(r.x - imageWidth, cy + 1, imageWidth)))
  {
    var r := RectFor(imageWidth, imageHeight, i, ch, colour);
    assert (cy + 1) * imageWidth == cy * imageWidth + imageWidth;
  }

  /** The corrected distance of a hit at step k of column i. */
  function HitDistance(sc: Scene, cos: real -> real, i: int, k: nat): real
    requires 0 < sc.imageWidth
  {
    Corrected(cos, Range(k), Angle(sc, i), sc.playerA)
  }

  /** `pix_x` and `pix_y` of a hit at step k of column i. */
  function HitPixelX(sc: Scene, cos: real -> real, i: int, k: nat): real
    requires 0 < sc.imageWidth
  {
    ToPixels(PointX(sc, cos, Angle(sc, i), Range(k)), sc.cellWidth)
  }

  function HitPixelY(sc: Scene, sin: real -> real, i: int, k: nat): real
    requires 0 < sc.imageWidth
  {
    ToPixels(PointY(sc, sin, Angle(sc, i), Range(k)), sc.cellHeight)
  }

  /** A hit at step k leaves no zero divisor in the height or the colour. */
  predicate HitDefined(sc: Scene, cos: real -> real, i: int, k: nat)
    requires 0 < sc.imageWidth
  {
    HitDistance(sc, cos, i, k) != 0.0 && ColourDefined(HitPixelX(sc, cos, i, k), sc.cellWidth, sc.cellHeight)
  }

  /** The rectangle `raycast` draws for a hit at step k of column i. */
  function HitRect(sc: Scene, cos: real -> real, sin: real -> real, i: int, k: nat): Rect
    requires 0 < sc.imageWidth && HitDefined(sc, cos, i, k)
  {
    RectFor(sc.imageWidth, sc.imageHeight, i,
            ColumnHeight(sc.imageHeight, HitDistance(sc, cos, i, k)),
            BoundaryColour(HitPixelX(sc, cos, i, k), HitPixelY(sc, sin, i, k), sc.cellWidth, sc.cellHeight))
  }

  /**
   * A player standing in an open cell never hits at range 0.0, so the
   * height division has a non-zero divisor unless the cosine itself is zero.
   */
  lemma HitDistanceNonZero(sc: Scene, cos: real -> real, sin: real -> real, i: int)
    requires 0 <= i < sc.imageWidth
    requires InLayout(sc.layout, sc.mapWidth, Trunc(sc.playerX), Trunc(sc.playerY))
    requires CellIsOpen(sc.layout, sc.mapWidth, Trunc(sc.playerX), Trunc(sc.playerY))
    requires CastOf(sc, cos, sin, i).Hit? && cos(Angle(sc, i) - sc.playerA) != 0.0
    ensures Step <= Range(CastOf(sc, cos, sin, i).step)
    ensures HitDistance(sc, cos, i, CastOf(sc, cos, sin, i).step) != 0.0
  {
    var a := Angle(sc, i);
    var k := CastOf(sc, cos, sin, i).step;
    HitIsAhead(sc.layout, sc.mapWidth, sc.playerX, sc.playerY, cos(a), sin(a), k);
    NonZeroProduct(Range(k), cos(a - sc.playerA));
  }

  /** A rectangle, if any, lies inside a buffer of `len` entries. */
  predicate RectFits(len: int, imageWidth: int, c: Option<Rect>) {
    c.Some? ==> RectInBuffer(len, imageWidth, c.value.x, c.value.y, c.value.width, c.value.height)
  }

  /**
   * Column i can be rendered as `raycast` renders it: its march stays in the
   * layout, and a hit has defined height and colour and a rectangle whose
   * every pixel indexes the buffer (no negative index, no IndexError).
   */
  predicate ColumnReady(sc: Scene, cos: real -> real, sin: real -> real, i: int)
    requires 0 < sc.imageWidth
  {
    var cast := CastOf(sc, cos, sin, i);
    !cast.OffLayout?
    && (cast.Hit? ==>
          HitDefined(sc, cos, i, cast.step)
          && RectFits(BufferSize(sc.imageWidth, sc.imageHeight), sc.imageWidth, Some(HitRect(sc, cos, sin, i, cast.step))))
  }

  predicate Ready(sc: Scene, cos: real -> real, sin: real -> real) {
    forall i :: 0 <= i < sc.imageWidth ==> ColumnReady(sc, cos, sin, i)
  }

  /** What column i paints: one rectangle exactly when its ray hits a wall. */
  function Column(sc: Scene, cos: real -> real, sin: real -> real, i: int): (r: Option<Rect>)
    requires 0 <= i < sc.imageWidth && ColumnReady(sc, cos, sin, i)
    ensures r.Some? <==> CastOf(sc, cos, sin, i).Hit?
    ensures r.Some? ==> r.value == HitRect(sc, cos, sin, i, CastOf(sc, cos, sin, i).step)
    ensures RectFits(BufferSize(sc.imageWidth, sc.imageHeight), sc.imageWidth, r)
  {
    var cast := CastOf(sc, cos, sin, i);
    if cast.Hit? then Some(HitRect(sc, cos, sin, i, cast.step)) else None
  }

  /** The columns 0 .. n-1, in the order `raycast` visits them. */
  function PngColumns(sc: Scene, cos: real -> real, sin: real -> real, n: nat): (r: seq<Option<Rect>>)
    requires n <= Columns(sc.imageWidth) && forall i :: 0 <= i < n ==> ColumnReady(sc, cos, sin, i)
    ensures |r| == n
  {
    if n == 0 then [] else PngColumns(sc, cos, sin, n - 1) + [Column(sc, cos, sin, n - 1)]
  }

  lemma {:induction false} PngColumnsIndex(sc: Scene, cos: real -> real, sin: real -> real, n: nat, i: int)
    requires n <= Columns(sc.imageWidth) && forall i :: 0 <= i < n ==> ColumnReady(sc, cos, sin, i)
    requires 0 <= i < n
    ensures PngColumns(sc, cos, sin, n)[i] == Column(sc, cos, sin, i)
  {
    if i < n - 1 {
      PngColumnsIndex(sc, cos, sin, n - 1, i);
    }
  }

  /** Every rectangle of a run of columns fits the buffer. */
  predicate Fits(len: int, imageWidth: int, cols: seq<Option<Rect>>) {
    forall j :: 0 <= j < |cols| ==> RectFits(len, imageWidth, cols[j])
  }

  lemma PngColumnsFit(sc: Scene, cos: real -> real, sin: real -> real, n: nat)
    requires n <= Columns(sc.imageWidth) && forall i :: 0 <= i < n ==> ColumnReady(sc, cos, sin, i)
    ensures Fits(BufferSize(sc.imageWidth, sc.imageHeight), sc.imageWidth, PngColumns(sc, cos, sin, n))
  {
    forall j | 0 <= j < n
      ensures RectFits(BufferSize(sc.imageWidth, sc.imageHeight), sc.imageWidth, PngColumns(sc, cos, sin, n)[j])
    {
      PngColumnsIndex(sc, cos, sin, n, j);
    }
  }

  /** Paint one column's rectangle, if it has one. */
  function Draw(s: seq<Rgb>, imageWidth: int, c: Option<Rect>): (r: seq<Rgb>)
    requires RectFits(|s|, imageWidth, c)
    ensures |r| == |s|
  {
    match c
    case None => s
    case Some(rect) => Paint(s, imageWidth, rect.x, rect.y, rect.width, rect.height, rect.colour)
  }

  /** Paint a run of columns' rectangles, first to last. */
  function Compose(s: seq<Rgb>, imageWidth: int, cols: seq<Option<Rect>>): (r: seq<Rgb>)
    requires Fits(|s|, imageWidth, cols)
    ensures |r| == |s|
  {
    if cols == [] then s
    else
      var init := cols[..|cols| - 1];
      assert Fits(|s|, imageWidth, init) by {
        forall j | 0 <= j < |init| ensures RectFits(|s|, imageWidth, init[j]) {
          assert init[j] == cols[j];
        }
      }
      Draw(Compose(s, imageWidth, init), imageWidth, cols[|cols| - 1])
  }

  lemma ComposeAppend(s: seq<Rgb>, imageWidth: int, cols: seq<Option<Rect>>, c: Option<Rect>)
    requires Fits(|s|, imageWidth, cols + [c])
    ensures Fits(|s|, imageWidth, cols) && RectFits(|s|, imageWidth, c)
    ensures Compose(s, imageWidth, cols + [c]) == Draw(Compose(s, imageWidth, cols), imageWidth, c)
  {
    assert (cols + [c])[..|cols|] == cols;
    assert forall j :: 0 <= j < |cols| ==> (cols + [c])[j] == cols[j];
    assert (cols + [c])[|cols|] == c;
  }

  /** Column c's rectangle covers buffer index k. */
  ghost predicate Paints(imageWidth: int, c: Option<Rect>, k: int) {
    c.Some? && Covers(imageWidth, c.value.x, c.value.y, c.value.width, c.value.height, k)
  }

  /** An index no rectangle of the run covers keeps its value. */
  lemma {:induction false} ComposeUntouched(s: seq<Rgb>, imageWidth: int, cols: seq<Option<Rect>>, k: int)
    requires Fits(|s|, imageWidth, cols) && 0 <= k < |s|
    requires forall j :: 0 <= j < |cols| ==> !Paints(imageWidth, cols[j], k)
    ensures Compose(s, imageWidth, cols)[k] == s[k]
    decreases |cols|
  {
    if cols != [] {
      var init := cols[..|cols| - 1];
      var last := cols[|cols| - 1];
      ComposeAppend(s, imageWidth, init, last);
      assert init + [last] == cols;
      assert forall j :: 0 <= j < |init| ==> init[j] == cols[j];
      ComposeUntouched(s, imageWidth, init, k);
      assert !Paints(imageWidth, last, k);
      if last.Some? {
        var r := last.value;
        PaintEffect(Compose(s, imageWidth, init), imageWidth, r.x, r.y, r.width, r.height, r.colour);
      }
    }
  }

  /**
   * A pixel of column j's rectangle that no later rectangle covers shows
   * column j's colour: later columns paint over earlier ones, and only they.
   */
  lemma {:induction false} ComposeLastWriter(s: seq<Rgb>, imageWidth: int, cols: seq<Option<Rect>>, j: int, cx: int, cy: int)
    requires Fits(|s|, imageWidth, cols) && 0 <= j < |cols| && cols[j].Some?
    requires InRect(cx, cy, cols[j].value.x, cols[j].value.y, cols[j].value.width, cols[j].value.height)
    requires forall j' :: j < j' < |cols| ==> !Paints(imageWidth, cols[j'], FlatIndex(cx, cy, imageWidth))
    ensures PixelInBuffer(|s|, imageWidth, cx, cy)
    ensures Compose(s, imageWidth, cols)[FlatIndex(cx, cy, imageWidth)] == cols[j].value.colour
    decreases |cols|
  {
    var init := cols[..|cols| - 1];
    var last := cols[|cols| - 1];
    var k := FlatIndex(cx, cy, imageWidth);
    ComposeAppend(s, imageWidth, init, last);
    assert init + [last] == cols;
    var prev := Compose(s, imageWidth, init);
    var rj := cols[j].value;
    RectPixelInBuffer(|s|, imageWidth, rj.x, rj.y, rj.width, rj.height, cx, cy);
    if j == |cols| - 1 {
      PaintEffect(prev, imageWidth, rj.x, rj.y, rj.width, rj.height, rj.colour);
    } else {
      assert init[j] == cols[j];
      assert forall j' :: j < j' < |init| ==> init[j'] == cols[j'];
      ComposeLastWriter(s, imageWidth, init, j, cx, cy);
      assert !Paints(imageWidth, last, k);
      if last.Some? {
        var r := last.value;
        PaintEffect(prev, imageWidth, r.x, r.y, r.width, r.height, r.colour);
      }
    }
  }

  /** The buffer `raycast` starts from: `IMAGE_WIDTH * IMAGE_HEIGHT` white pixels. */
  function Blank(imageWidth: int, imageHeight: int): (s: seq<Rgb>)
    ensures |s| == BufferSize(imageWidth, imageHeight)
    ensures forall k :: 0 <= k < |s| ==> s[k] == White
  {
    seq(BufferSize(imageWidth, imageHeight), _ => White)
  }

  /** The buffer after the first n columns. */
  function Frame(sc: Scene, cos: real -> real, sin: real -> real, n: nat): (s: seq<Rgb>)
    requires n <= Columns(sc.imageWidth) && forall i :: 0 <= i < n ==> ColumnReady(sc, cos, sin, i)
    ensures |s| == BufferSize(sc.imageWidth, sc.imageHeight)
  {
    PngColumnsFit(sc, cos, sin, n);
    Compose(Blank(sc.imageWidth, sc.imageHeight), sc.imageWidth, PngColumns(sc, cos, sin, n))
  }

  /** A pixel that no column's rectangle covers stays white. */
  lemma FrameUntouched(sc: Scene, cos: real -> real, sin: real -> real, k: int)
    requires Ready(sc, cos, sin) && 0 <= k < BufferSize(sc.imageWidth, sc.imageHeight)
    requires forall i :: 0 <= i < sc.imageWidth ==> !Paints(sc.imageWidth, Column(sc, cos, sin, i), k)
    ensures Frame(sc, cos, sin, Columns(sc.imageWidth))[k] == White
  {
    var n := Columns(sc.imageWidth);
    var cols := PngColumns(sc, cos, sin, n);
    PngColumnsFit(sc, cos, sin, n);
    forall j | 0 <= j < |cols| ensures !Paints(sc.imageWidth, cols[j], k) {
      PngColumnsIndex(sc, cos, sin, n, j);
    }
    ComposeUntouched(Blank(sc.imageWidth, sc.imageHeight), sc.imageWidth, cols, k);
  }

  /**
   * A pixel of column i's rectangle that no later column's rectangle covers
   * has column i's colour in the finished frame.
   */
  lemma FrameLastWriter(sc: Scene, cos: real -> real, sin: real -> real, i: int, cx: int, cy: int)
    requires Ready(sc, cos, sin) && 0 <= i < sc.imageWidth && Column(sc, cos, sin, i).Some?
    requires var r := Column(sc, cos, sin, i).value; InRect(cx, cy, r.x, r.y, r.width, r.height)
    requires forall i' :: i < i' < sc.imageWidth ==>
      !Paints(sc.imageWidth, Column(sc, cos, sin, i'), FlatIndex(cx, cy, sc.imageWidth))
    ensures PixelInBuffer(BufferSize(sc.imageWidth, sc.imageHeight), sc.imageWidth, cx, cy)
    ensures Frame(sc, cos, sin, Columns(sc.imageWidth))[FlatIndex(cx, cy, sc.imageWidth)]
      == Column(sc, cos, sin, i).value.colour
  {
    var n := Columns(sc.imageWidth);
    var cols := PngColumns(sc, cos, sin, n);
    PngColumnsFit(sc, cos, sin, n);
    PngColumnsIndex(sc, cos, sin, n, i);
    forall j' | i < j' < |cols| ensures !Paints(sc.imageWidth, cols[j'], FlatIndex(cx, cy, sc.imageWidth)) {
      PngColumnsIndex(sc, cos, sin, n, j');
    }
    ComposeLastWriter(Blank(sc.imageWidth, sc.imageHeight), sc.imageWidth, cols, i, cx, cy);
  }

  /**
   * `raycast` without the final `dump_image`: a white buffer, then for each
   * column the march and, on a hit, one rectangle.
   */
  method Raycast(sc: Scene, cos: real -> real, sin: real -> real) returns (frameBuffer: array<Rgb>)
    requires Ready(sc, cos, sin)
    ensures fresh(frameBuffer)
    ensures frameBuffer[..] == Frame(sc, cos, sin, Columns(sc.imageWidth))
  {
    frameBuffer := NewFrameBuffer(sc.imageWidth, sc.imageHeight);
    assert frameBuffer[..] == Blank(sc.imageWidth, sc.imageHeight);
    var i := 0;
    while i < sc.imageWidth
      invariant 0 <= i <= Columns(sc.imageWidth)
      invariant frameBuffer.Length == BufferSize(sc.imageWidth, sc.imageHeight)
      invariant frameBuffer[..] == Frame(sc, cos, sin, i)
    {
      var leftBound := sc.playerA - sc.fov / 2.0;
      var rightBound := sc.fov * (i as real / sc.imageWidth as real);
      var a := leftBound + rightBound;
      assert a == Angle(sc, i);
      assert ColumnReady(sc, cos, sin, i);
      ghost var before := frameBuffer[..];
      CastColumn(frameBuffer, sc, cos, sin, i, a);
      PngColumnsFit(sc, cos, sin, i + 1);
      ComposeAppend(Blank(sc.imageWidth, sc.imageHeight), sc.imageWidth,
                    PngColumns(sc, cos, sin, i), Column(sc, cos, sin, i));
      i := i + 1;
    }
  }

  /** A hit of column i at step k, in the terms the column loop computes it. */
  lemma HitAt(sc: Scene, cos: real -> real, sin: real -> real, i: int, k: nat, t: real, a: real)
    requires 0 <= i < sc.imageWidth && ColumnReady(sc, cos, sin, i)
    requires CastOf(sc, cos, sin, i) == Hit(k) && t == Range(k) && a == Angle(sc, i)
    ensures Corrected(cos, t, a, sc.playerA) != 0.0
    ensures ColourDefined(ToPixels(PointX(sc, cos, a, t), sc.cellWidth), sc.cellWidth, sc.cellHeight)
    ensures Column(sc, cos, sin, i) == Some(RectFor(sc.imageWidth, sc.imageHeight, i,
      sc.imageHeight as real / Corrected(cos, t, a, sc.playerA),
      BoundaryColour(ToPixels(PointX(sc, cos, a, t), sc.cellWidth), ToPixels(PointY(sc, sin, a, t), sc.cellHeight),
                     sc.cellWidth, sc.cellHeight)))
  {
    assert Column(sc, cos, sin, i) == Some(HitRect(sc, cos, sin, i, k));
    assert HitDistance(sc, cos, i, k) == Corrected(cos, t, a, sc.playerA);
    assert PointX(sc, cos, a, t) == PointX(sc, cos, Angle(sc, i), Range(k));
    assert PointY(sc, sin, a, t) == PointY(sc, sin, Angle(sc, i), Range(k));
  }

  /**
   * The body of the column loop of `raycast`: march along the ray at angle
   * a by 0.05 while the range is below 20.0, and at the first wall paint
   * the column's rectangle and stop.
   */
  method CastColumn(frameBuffer: array<Rgb>, sc: Scene, cos: real -> real, sin: real -> real, i: int, a: real)
    requires 0 <= i < sc.imageWidth && ColumnReady(sc, cos, sin, i) && a == Angle(sc, i)
    requires frameBuffer.Length == BufferSize(sc.imageWidth, sc.imageHeight)
    modifies frameBuffer
    ensures frameBuffer[..] == Draw(old(frameBuffer[..]), sc.imageWidth, Column(sc, cos, sin, i))
  {
    ghost var cast := CastOf(sc, cos, sin, i);
    ghost var k: nat := 0;
    var t := 0.0;
    while t < 20.0
      invariant t == Range(k) && k <= MaxSteps
      invariant March(sc.layout, sc.mapWidth, sc.playerX, sc.playerY, cos(a), sin(a), k) == cast
      invariant frameBuffer[..] == old(frameBuffer[..])
      decreases MaxSteps - k
    {
      var cx := PointX(sc, cos, a, t);
      var cy := PointY(sc, sin, a, t);
      var pixX := ToPixels(cx, sc.cellWidth);
      var pixY := ToPixels(cy, sc.cellHeight);
      assert (Trunc(cx), Trunc(cy)) == Sample(sc.playerX, sc.playerY, cos(a), sin(a), k);
      if sc.layout[Trunc(cx) + Trunc(cy) * sc.mapWidth] != ' ' {
        assert cast == Hit(k);
        HitAt(sc, cos, sin, i, k, t, a);
        var columnHeight := sc.imageHeight as real / Corrected(cos, t, a, sc.playerA);
        var colour := if Trunc(pixX) % Trunc(sc.cellWidth) == 0 || Trunc(pixY) % Trunc(sc.cellHeight) == 0
                      then White else Black;
        DrawRectangle(frameBuffer, sc.imageWidth, sc.imageHeight,
                      Trunc(sc.imageWidth as real / 2.0 + i as real),
                      Trunc(sc.imageHeight as real / 2.0 - columnHeight / 2.0),
                      1, Trunc(columnHeight), colour);
        return;
      }
      t := t + 0.05;
      k := k + 1;
    }
    assert cast == Miss;
  }
}
