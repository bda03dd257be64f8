/**
 * The frame buffer of raycast_png.py: a flat row-major list of RGB pixels,
 * `image_width` pixels to a row, filled with white and then painted one
 * axis-aligned rectangle at a time by `draw_rectangle`.
 *
 * Pixel (cx, cy) lives at index `cx + cy * image_width`, whatever cx is: a
 * cx at or past the image width lands in a later row, exactly as the list
 * index does.  Only indices outside the buffer are excluded, by precondition.
 */
module FrameBuffer {
  import opened Colours
  import opened Grid

  /** The length of `[WHITE for i in range(0, image_width * image_height)]`. */
  function BufferSize(imageWidth: int, imageHeight: int): nat {
    if imageWidth * imageHeight < 0 then 0 else imageWidth * imageHeight
  }

  /** Pixel (cx, cy) lies in the rectangle with corner (x, y). */
  predicate InRect(cx: int, cy: int, x: int, y: int, width: int, height: int) {
    x <= cx < x + width && y <= cy < y + height
  }

  /** Pixel (cx, cy) has an index inside a buffer of `len` entries. */
  predicate PixelInBuffer(len: int, imageWidth: int, cx: int, cy: int) {
    0 <= FlatIndex(cx, cy, imageWidth) < len
  }

  /**
   * Every pixel of the rectangle has its index inside a buffer of `len`
   * entries.  The index is linear in (cx, cy), so checking the four corners
   * suffices (RectPixelInBuffer).
   */
  predicate RectInBuffer(len: int, imageWidth: int, x: int, y: int, width: int, height: int) {
    width <= 0 || height <= 0 ||
    (PixelInBuffer(len, imageWidth, x, y) && PixelInBuffer(len, imageWidth, x + width - 1, y)
     && PixelInBuffer(len, imageWidth, x, y + height - 1)
     && PixelInBuffer(len, imageWidth, x + width - 1, y + height - 1))
  }

  /** Each pixel of a rectangle whose corners are in the buffer is in the buffer. */
  lemma RectPixelInBuffer(len: int, imageWidth: int, x: int, y: int, width: int, height: int, cx: int, cy: int)
    requires RectInBuffer(len, imageWidth, x, y, width, height) && InRect(cx, cy, x, y, width, height)
    ensures PixelInBuffer(len, imageWidth, cx, cy)
  {
    var w, top, bottom := imageWidth, y, y + height - 1;
    if 0 <= w {
      MulMonotone(top, cy, w);
      MulMonotone(cy, bottom, w);
      assert FlatIndex(x, top, w) <= FlatIndex(cx, cy, w) <= FlatIndex(x + width - 1, bottom, w);
    } else {
      MulMonotone(top, cy, -w);
      MulMonotone(cy, bottom, -w);
      assert FlatIndex(x, bottom, w) <= FlatIndex(cx, cy, w) <= FlatIndex(x + width - 1, top, w);
    }
  }

  /** The buffer condition, stated for every pixel of the rectangle. */
  lemma RectPixelsInBuffer(len: int, imageWidth: int, x: int, y: int, width: int, height: int)
    requires RectInBuffer(len, imageWidth, x, y, width, height)
    ensures forall cx, cy :: InRect(cx, cy, x, y, width, height) ==> PixelInBuffer(len, imageWidth, cx, cy)
  {
    forall cx, cy | InRect(cx, cy, x, y, width, height) ensures PixelInBuffer(len, imageWidth, cx, cy) {
      RectPixelInBuffer(len, imageWidth, x, y, width, height, cx, cy);
    }
  }

  /** Buffer index k is the index of some pixel of the rectangle. */
  ghost predicate Covers(imageWidth: int, x: int, y: int, width: int, height: int, k: int) {
    exists cx, cy :: InRect(cx, cy, x, y, width, height) && FlatIndex(cx, cy, imageWidth) == k
  }

  /** The first rectangle lies within the second, whenever it is non-empty. */
  predicate Within(x: int, y: int, width: int, height: int, x': int, y': int, width': int, height': int) {
    x' <= x && x + width <= x' + width' && y' <= y && y + height <= y' + height'
  }

  lemma RectInBufferWithin(len: int, imageWidth: int, x: int, y: int, width: int, height: int,
                           x': int, y': int, width': int, height': int)
    requires RectInBuffer(len, imageWidth, x', y', width', height')
    requires Within(x, y, width, height, x', y', width', height')
    ensures RectInBuffer(len, imageWidth, x, y, width, height)
  {
    if 0 < width && 0 < height {
      RectPixelInBuffer(len, imageWidth, x', y', width', height', x, y);
      RectPixelInBuffer(len, imageWidth, x', y', width', height', x + width - 1, y);
      RectPixelInBuffer(len, imageWidth, x', y', width', height', x, y + height - 1);
      RectPixelInBuffer(len, imageWidth, x', y', width', height', x + width - 1, y + height - 1);
    }
  }

  lemma CoversWithin(imageWidth: int, x: int, y: int, width: int, height: int,
                     x': int, y': int, width': int, height': int, k: int)
    requires Within(x, y, width, height, x', y', width', height')
    ensures Covers(imageWidth, x, y, width, height, k) ==> Covers(imageWidth, x', y', width', height', k)
  {
    if Covers(imageWidth, x, y, width, height, k) {
      var cx, cy :| InRect(cx, cy, x, y, width, height) && FlatIndex(cx, cy, imageWidth) == k;
      assert InRect(cx, cy, x', y', width', height');
    }
  }

  /**
   * The inner loop of `draw_rectangle` for pixel column cx: pixels y .. y+j-1
   * of that column set to colour c, top to bottom.
   */
  function PaintColumn(s: seq<Rgb>, imageWidth: int, cx: int, y: int, j: int, c: Rgb): (r: seq<Rgb>)
    requires RectInBuffer(|s|, imageWidth, cx, y, 1, j)
    ensures |r| == |s|
    decreases j
  {
    if j <= 0 then s
    else
      RectInBufferWithin(|s|, imageWidth, cx, y, 1, j - 1, cx, y, 1, j);
      RectPixelInBuffer(|s|, imageWidth, cx, y, 1, j, cx, y + j - 1);
      PaintColumn(s, imageWidth, cx, y, j - 1, c)[FlatIndex(cx, y + j - 1, imageWidth) := c]
  }

  /**
   * `draw_rectangle` after its first i pixel columns: columns x .. x+i-1 of
   * the rectangle painted, left to right.
   */
  function Paint(s: seq<Rgb>, imageWidth: int, x: int, y: int, i: int, height: int, c: Rgb): (r: seq<Rgb>)
    requires RectInBuffer(|s|, imageWidth, x, y, i, height)
    ensures |r| == |s|
    decreases i
  {
    if i <= 0 then s
    else
      RectInBufferWithin(|s|, imageWidth, x, y, i - 1, height, x, y, i, height);
      RectInBufferWithin(|s|, imageWidth, x + i - 1, y, 1, height, x, y, i, height);
      PaintColumn(Paint(s, imageWidth, x, y, i - 1, height, c), imageWidth, x + i - 1, y, height, c)
  }

  /**
   * Painting a column sets each of its pixels to the colour and leaves
   * every index outside the column as it was.
   */
  lemma {:induction false} PaintColumnEffect(s: seq<Rgb>, imageWidth: int, cx: int, y: int, j: int, c: Rgb)
    requires RectInBuffer(|s|, imageWidth, cx, y, 1, j)
    ensures forall cy :: y <= cy < y + j ==>
      PixelInBuffer(|s|, imageWidth, cx, cy) && PaintColumn(s, imageWidth, cx, y, j, c)[FlatIndex(cx, cy, imageWidth)] == c
    ensures forall k :: 0 <= k < |s| && !Covers(imageWidth, cx, y, 1, j, k) ==> PaintColumn(s, imageWidth, cx, y, j, c)[k] == s[k]
    decreases j
  {
    if 0 < j {
      PaintColumnStep(s, imageWidth, cx, y, j, c);
      PaintColumnEffect(s, imageWidth, cx, y, j - 1, c);
      forall k | 0 <= k < |s| && !Covers(imageWidth, cx, y, 1, j, k)
        ensures PaintColumn(s, imageWidth, cx, y, j, c)[k] == s[k]
      {
        assert InRect(cx, y + j - 1, cx, y, 1, j);
        CoversWithin(imageWidth, cx, y, 1, j - 1, cx, y, 1, j, k);
      }
    }
  }

  /**
   * `draw_rectangle` colours every pixel of the rectangle and leaves every
   * other index of the buffer as it was.
   */
  lemma {:induction false} PaintEffect(s: seq<Rgb>, imageWidth: int, x: int, y: int, width: int, height: int, c: Rgb)
    requires RectInBuffer(|s|, imageWidth, x, y, width, height)
    ensures forall cx, cy :: InRect(cx, cy, x, y, width, height) ==>
      PixelInBuffer(|s|, imageWidth, cx, cy) && Paint(s, imageWidth, x, y, width, height, c)[FlatIndex(cx, cy, imageWidth)] == c
    ensures forall k :: 0 <= k < |s| && !Covers(imageWidth, x, y, width, height, k) ==> Paint(s, imageWidth, x, y, width, height, c)[k] == s[k]
    decreases width
  {
    if 0 < width {
      PaintStep(s, imageWidth, x, y, width, height, c);
      var prev := Paint(s, imageWidth, x, y, width - 1, height, c);
      var r := Paint(s, imageWidth, x, y, width, height, c);
      PaintEffect(s, imageWidth, x, y, width - 1, height, c);
      PaintColumnEffect(prev, imageWidth, x + width - 1, y, height, c);
      forall cx, cy | InRect(cx, cy, x, y, width, height)
        ensures PixelInBuffer(|s|, imageWidth, cx, cy) && r[FlatIndex(cx, cy, imageWidth)] == c
      {
        RectPixelInBuffer(|s|, imageWidth, x, y, width, height, cx, cy);
        if cx < x + width - 1 {
          assert InRect(cx, cy, x, y, width - 1, height);
          var k := FlatIndex(cx, cy, imageWidth);
          if Covers(imageWidth, x + width - 1, y, 1, height, k) {
            var cx', cy' :| InRect(cx', cy', x + width - 1, y, 1, height) && FlatIndex(cx', cy', imageWidth) == k;
            assert r[FlatIndex(cx', cy', imageWidth)] == c;
          }
        }
      }
      forall k | 0 <= k < |s| && !Covers(imageWidth, x, y, width, height, k) ensures r[k] == s[k] {
        CoversWithin(imageWidth, x, y, width - 1, height, x, y, width, height, k);
        CoversWithin(imageWidth, x + width - 1, y, 1, height, x, y, width, height, k);
      }
    }
  }

  /** One more pixel of a column is the previous column with that pixel set. */
  lemma PaintColumnStep(s: seq<Rgb>, imageWidth: int, cx: int, y: int, j: int, c: Rgb)
    requires 0 < j && RectInBuffer(|s|, imageWidth, cx, y, 1, j)
    ensures RectInBuffer(|s|, imageWidth, cx, y, 1, j - 1)
    ensures 0 <= FlatIndex(cx, y + j - 1, imageWidth) < |s|
    ensures PaintColumn(s, imageWidth, cx, y, j, c)
      == PaintColumn(s, imageWidth, cx, y, j - 1, c)[FlatIndex(cx, y + j - 1, imageWidth) := c]
  {
    RectInBufferWithin(|s|, imageWidth, cx, y, 1, j - 1, cx, y, 1, j);
    RectPixelInBuffer(|s|, imageWidth, cx, y, 1, j, cx, y + j - 1);
  }

  /** One more pixel column is the previous columns with that column painted. */
  lemma PaintStep(s: seq<Rgb>, imageWidth: int, x: int, y: int, i: int, height: int, c: Rgb)
    requires 0 < i && RectInBuffer(|s|, imageWidth, x, y, i, height)
    ensures RectInBuffer(|s|, imageWidth, x, y, i - 1, height)
    ensures RectInBuffer(|s|, imageWidth, x + i - 1, y, 1, height)
    ensures Paint(s, imageWidth, x, y, i, height, c)
      == PaintColumn(Paint(s, imageWidth, x, y, i - 1, height, c), imageWidth, x + i - 1, y, height, c)
  {
    RectInBufferWithin(|s|, imageWidth, x, y, i - 1, height, x, y, i, height);
    RectInBufferWithin(|s|, imageWidth, x + i - 1, y, 1, height, x, y, i, height);
  }

  /** A rectangle with no width or no height paints nothing. */
  lemma {:induction false} EmptyRectPaintsNothing(s: seq<Rgb>, imageWidth: int, x: int, y: int, width: int, height: int, c: Rgb)
    requires width <= 0 || height <= 0
    ensures RectInBuffer(|s|, imageWidth, x, y, width, height)
    ensures Paint(s, imageWidth, x, y, width, height, c) == s
    decreases width
  {
    if 0 < width {
      EmptyRectPaintsNothing(s, imageWidth, x, y, width - 1, height, c);
      PaintStep(s, imageWidth, x, y, width, height, c);
    }
  }

  /** The initial buffer: every pixel white. */
  method NewFrameBuffer(imageWidth: int, imageHeight: int) returns (frameBuffer: array<Rgb>)
    ensures fresh(frameBuffer)
    ensures frameBuffer.Length == BufferSize(imageWidth, imageHeight)
    ensures forall k :: 0 <= k < frameBuffer.Length ==> frameBuffer[k] == White
  {
    frameBuffer := new Rgb[BufferSize(imageWidth, imageHeight)](_ => White);
  }

  /**
   * `draw_rectangle`: for each pixel column i of the rectangle, left to
   * right, and each pixel row j within it, top to bottom, store the colour.
   */
  method DrawRectangle(frameBuffer: array<Rgb>, imageWidth: int, imageHeight: int,
                       x: int, y: int, width: int, height: int, colour: Rgb)
    requires RectInBuffer(frameBuffer.Length, imageWidth, x, y, width, height)
    modifies frameBuffer
    ensures frameBuffer[..] == Paint(old(frameBuffer[..]), imageWidth, x, y, width, height, colour)
  {
    ghost var s := frameBuffer[..];
    var i := 0;
    while i < width
      invariant 0 <= i <= if width < 0 then 0 else width
      invariant RectInBuffer(|s|, imageWidth, x, y, i, height)
      invariant frameBuffer[..] == Paint(s, imageWidth, x, y, i, height, colour)
    {
      ghost var before := frameBuffer[..];
      RectInBufferWithin(|before|, imageWidth, x + i, y, 1, height, x, y, width, height);
      var j := 0;
      while j < height
        invariant 0 <= j <= if height < 0 then 0 else height
        invariant RectInBuffer(|before|, imageWidth, x + i, y, 1, j)
        invariant frameBuffer[..] == PaintColumn(before, imageWidth, x + i, y, j, colour)
      {
        var cx := x + i;
        var cy := y + j;
        RectInBufferWithin(|before|, imageWidth, cx, y, 1, j + 1, cx, y, 1, height);
        PaintColumnStep(before, imageWidth, cx, y, j + 1, colour);
        RectPixelInBuffer(|s|, imageWidth, x, y, width, height, cx, cy);
        ghost var painted := frameBuffer[..];
        frameBuffer[FlatIndex(cx, cy, imageWidth)] := colour;
        assert frameBuffer[..] == painted[FlatIndex(cx, cy, imageWidth) := colour];
        j := j + 1;
      }
      assert j == height || (height <= 0 && j == 0);
      assert frameBuffer[..] == PaintColumn(before, imageWidth, x + i, y, height, colour);
      RectInBufferWithin(|s|, imageWidth, x, y, i + 1, height, x, y, width, height);
      PaintStep(s, imageWidth, x, y, i + 1, height, colour);
      i := i + 1;
    }
    assert i == width || (width <= 0 && i == 0);
  }
}
