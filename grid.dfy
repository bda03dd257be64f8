/**
 * The occupancy grid of raycaster.py (class `Map`): a flat row-major layout
 * string in which a space is an open cell and anything else is a wall.  The
 * object is never changed after construction, so it is modelled as a value.
 */
module Grid {
  import opened Wrappers

  /** Why construction fails: the layout does not have `width*height` cells,
    * or a dimension is zero and the cell-size division raises. */
  datatype MapError = InvalidMap | ZeroDivision

  /** Row-major position of cell (x, y) in a grid `width` cells wide. */
  function FlatIndex(x: int, y: int, width: int): int {
    x + y * width
  }

  /** The flat index of (x, y) lies inside the layout, so the lookup neither
    * wraps around (negative index) nor raises (index too large). */
  predicate InLayout(layout: seq<char>, width: int, x: int, y: int) {
    0 <= FlatIndex(x, y, width) < |layout|
  }

  /** The character at (x, y) is a space. */
  predicate CellIsOpen(layout: seq<char>, width: int, x: int, y: int)
    requires InLayout(layout, width, x, y)
  {
    layout[FlatIndex(x, y, width)] == ' '
  }

  datatype GameMap = GameMap(layout: seq<char>, width: int, height: int, cellWidth: real, cellHeight: real)
  {
    /** What a successful construction guarantees. */
    predicate Valid() {
      |layout| == width * height && width != 0 && height != 0
    }

    predicate InRange(x: int, y: int) {
      InLayout(layout, width, x, y)
    }

    /** `is_accessible`: the cell at (x, y) is open. */
    predicate IsAccessible(x: int, y: int)
      requires InRange(x, y)
      ensures 0 <= x + y * width < |layout|
      ensures IsAccessible(x, y) <==> layout[x + y * width] == ' '
    {
      CellIsOpen(layout, width, x, y)
    }
  }

  /**
   * `Map.__init__`: the shape check comes first; then the pixels-per-cell
   * sizes are computed, which fails when a map dimension is zero.
   */
  function NewMap(layout: seq<char>, mapWidth: int, mapHeight: int, imageWidth: int, imageHeight: int)
    : (r: Result<GameMap, MapError>)
    ensures r == Err(InvalidMap) <==> |layout| != mapWidth * mapHeight
    ensures r.Err? <==> |layout| != mapWidth * mapHeight || mapWidth == 0 || mapHeight == 0
    ensures r.Ok? ==> r.value.Valid()
    ensures r.Ok? ==> r.value.layout == layout && r.value.width == mapWidth && r.value.height == mapHeight
    ensures r.Ok? ==> r.value.cellWidth * mapWidth as real == imageWidth as real
    ensures r.Ok? ==> r.value.cellHeight * mapHeight as real == imageHeight as real
  {
    if |layout| != mapWidth * mapHeight then
      Err(InvalidMap)
    else if mapWidth == 0 || mapHeight == 0 then
      Err(ZeroDivision)
    else
      Ok(GameMap(layout, mapWidth, mapHeight,
                 imageWidth as real / mapWidth as real,
                 imageHeight as real / mapHeight as real))
  }

  /**
   * Every cell of a valid, positively sized map has its own place in the
   * layout: the flat index is in range and decodes back to (x, y).
   */
  lemma {:induction false} CellIndexRoundTrip(m: GameMap, x: int, y: int)
    requires m.Valid() && 0 < m.width
    requires 0 <= x < m.width && 0 <= y < m.height
    ensures m.InRange(x, y)
    ensures FlatIndex(x, y, m.width) / m.width == y
    ensures FlatIndex(x, y, m.width) % m.width == x
  {
    var w, h := m.width, m.height;
    assert y * w <= (h - 1) * w by { MulMonotone(y, h - 1, w); }
    assert (h - 1) * w == h * w - w;
    DivModUnique(x + y * w, w, y, x);
  }

  /** Two in-range cells share a flat index only if they are the same cell. */
  lemma CellIndexInjective(m: GameMap, x: int, y: int, x': int, y': int)
    requires m.Valid() && 0 < m.width
    requires 0 <= x < m.width && 0 <= y < m.height
    requires 0 <= x' < m.width && 0 <= y' < m.height
    requires FlatIndex(x, y, m.width) == FlatIndex(x', y', m.width)
    ensures x == x' && y == y'
  {
    CellIndexRoundTrip(m, x, y);
    CellIndexRoundTrip(m, x', y');
  }

  lemma MulMonotone(a: int, b: int, w: int)
    requires a <= b && 0 <= w
    ensures a * w <= b * w
  {
    assert b * w - a * w == (b - a) * w;
  }

  lemma DivModUnique(n: int, w: int, q: int, r: int)
    requires 0 < w && 0 <= r < w && n == r + q * w
    ensures n / w == q && n % w == r
  {
    var q', r' := n / w, n % w;
    assert n == q' * w + r';
    assert (q - q') * w == r' - r;
    if q != q' {
      if q > q' {
        assert (q - q') * w >= w by { MulMonotone(1, q - q', w); }
      } else {
        assert (q' - q) * w >= w by { MulMonotone(1, q' - q, w); }
      }
    }
  }

  /** A layout written one row per line, with the line breaks removed. */
  function Join(rows: seq<seq<char>>): seq<char> {
    if rows == [] then [] else rows[0] + Join(rows[1..])
  }

  /**
   * Row-major lookup agrees with reading the map row by row: in a layout
   * joined from rows of `w` characters, flat index x + y*w holds rows[y][x].
   */
  lemma {:induction false} JoinIndex(rows: seq<seq<char>>, w: int, x: int, y: int)
    requires forall j :: 0 <= j < |rows| ==> |rows[j]| == w
    requires 0 <= x < w && 0 <= y < |rows|
    ensures |Join(rows)| == w * |rows|
    ensures 0 <= FlatIndex(x, y, w) < |Join(rows)|
    ensures Join(rows)[FlatIndex(x, y, w)] == rows[y][x]
  {
    JoinLength(rows, w);
    if y == 0 {
      assert FlatIndex(x, y, w) == x;
    } else {
      JoinIndex(rows[1..], w, x, y - 1);
      assert FlatIndex(x, y, w) == w + FlatIndex(x, y - 1, w);
      assert rows[1..][y - 1] == rows[y];
    }
    assert y * w <= (|rows| - 1) * w by { MulMonotone(y, |rows| - 1, w); }
  }

  lemma {:induction false} JoinLength(rows: seq<seq<char>>, w: int)
    requires forall j :: 0 <= j < |rows| ==> |rows[j]| == w
    ensures |Join(rows)| == w * |rows|
  {
    if rows != [] {
      JoinLength(rows[1..], w);
    }
  }

  /** An open cell in a row-by-row map is exactly a space in its row. */
  lemma AccessibleByRows(rows: seq<seq<char>>, w: int, m: GameMap, x: int, y: int)
    requires forall j :: 0 <= j < |rows| ==> |rows[j]| == w
    requires m.layout == Join(rows) && m.width == w
    requires 0 <= x < w && 0 <= y < |rows|
    ensures m.InRange(x, y)
    ensures m.IsAccessible(x, y) <==> rows[y][x] == ' '
  {
    JoinIndex(rows, w, x, y);
  }

  /** The layout shipped with raycaster.py (lines 10-27), one string per row. */
  const DefaultRows: seq<seq<char>> := [
    "XXXXXXXXXXXXXXXX",
    "X              X",
    "X              X",
    "X              X",
    "X              X",
    "X     X        X",
    "X              X",
    "X              X",
    "X              X",
    "X              X",
    "X              X",
    "X              X",
    "X              X",
    "X              X",
    "X              X",
    "XXXXXXXXXXXXXXXX"
  ]

  lemma DefaultRowsShape()
    ensures forall j :: 0 <= j < |DefaultRows| ==> |DefaultRows[j]| == 16
  {
  }

  /** The shipped 16x16 layout builds a map with 64-pixel cells for a 1024x1024 image. */
  lemma DefaultMapBuilds()
    ensures NewMap(Join(DefaultRows), 16, 16, 1024, 1024).Ok?
    ensures var m := NewMap(Join(DefaultRows), 16, 16, 1024, 1024).value;
      m.cellWidth == 64.0 && m.cellHeight == 64.0
  {
    DefaultRowsShape();
    JoinLength(DefaultRows, 16);
  }
}
