# Raycaster, modelled in Dafny

A model of the two renderers in the raycaster repository.

The first, `raycaster.py`, is an interactive pygame view. It has:
- a grid map (`Map`): a flat row-major layout string in which a space is an open cell;
- a player (`Player`): a position, a view angle and a field of vision, with commit-or-nothing moves and a "normalized turns" counter that wraps at 100.0;
- the column renderer `draw_player_pov`. It marches one ray per screen column in steps of 0.05 up to a range of 20.0, and draws one vertical slice for the first wall it meets.

The second, `raycast_png.py`, renders the same kind of view into a flat RGB frame buffer:
- `raycast` marches the rays;
- `draw_rectangle` paints each hit column into the buffer with nested loops.

Module by module:
- `Numeric`: Python's `int()` on a float (truncation toward zero) and float `%` (floored modulo), written out over exact reals.
- `Grid`: the map as a value. Construction returns a `Result`, and look-ups are row-major.
- `Viewer`: the player.
  - `Pose` and the functions `MoveBy`, `RightTurn` and `LeftTurn` specify it.
  - The class `Player` updates its fields in place.
  - `Command`/`Run` model sequences of key presses.
- `RayMarch`: the march shared by both scripts.
  - The range is a step counter k with range k·0.05, so at most 400 samples are taken.
  - `March` returns the first wall hit (`Hit(k)`), a `Miss`, or `OffLayout`: a sample whose flat index leaves the layout, which every renderer excludes by precondition.
- `Pov`: `draw_player_pov`.
  - `DrawPlayerPov` loops over the columns of a `Player`. `MarchColumn` is its inner `while` loop.
  - The method returns the slices it hands to the drawing call, in drawing order.
  - `PovSlices` specifies that sequence.
- `FrameBuffer`: the white buffer and `draw_rectangle` as an in-place array method. `Paint` specifies it.
- `PngRender`: `raycast`.
  - `Raycast` loops over the columns. `CastColumn` is its inner `while t < 20.0` loop with the `break`.
  - The result is proved equal to `Frame`, which folds `Paint` over the columns' rectangles.
  - `Frame` is characterised by the lemmas `FrameUntouched` and `FrameLastWriter`.

`cos` and `sin` are parameters of type `real -> real`. `2*pi` is a positive parameter `twoPi`, and `pi` a parameter of the shipped PNG settings. All arithmetic is exact.

The PNG renderer places column i's rectangle at x = int(IMAGE_WIDTH/2 + i) and indexes the buffer with `cx + cy*IMAGE_WIDTH` as written. The model keeps both behaviours. `RightHalfWraps` states the consequence: every column from W - W/2 on lies past the end of its pixel row, so it is painted at the start of the next row.

Two behaviours of the code to note:
- Map construction also fails (`ZeroDivision`) when a map dimension is zero. The shape check runs first, so a wrong shape is always reported as `InvalidMap`.
- The hit colour in `raycaster.py` uses the floored float modulo of the column by the real-valued cell width.

## Model

| member | source | states |
|---|---|---|
| Numeric.Trunc | raycaster.py:93 | `int()` of a float truncates toward zero: the result is within 1 of the value, on the value's side of zero |
| Numeric.FloatMod | raycaster.py:60 | Python float modulo takes the divisor's sign, lies strictly inside the divisor, and is zero exactly when the quotient is a whole number |
| Numeric.FloatModOfInts | raycaster.py:60 | for whole numbers and a positive whole divisor, the float modulo is the integer remainder |
| Numeric.ModZeroIffDivides | raycast_png.py:87-88 | an integer `a % d == 0` test holds exactly when d divides a, so Dafny's and Python's remainders agree on it |
| Grid.NewMap | raycaster.py:121-132 | construction fails with InvalidMap exactly when the layout length is not width·height, and fails otherwise only on a zero dimension; on success it keeps the layout and sizes and its cell sizes times the map dimensions give the image size |
| Grid.CellIndexRoundTrip | raycaster.py:134-135 | every in-range cell's flat index x + y·width lies in the layout and decodes back to (x, y) |
| Grid.CellIndexInjective | raycaster.py:134-135 | distinct in-range cells never share a layout character |
| Grid.GameMap.IsAccessible | raycaster.py:134-135 | `is_accessible(x, y)` reads the layout at flat index x + y·width, which lies inside the layout, and holds exactly when that character is a space |
| Grid.JoinIndex | raycaster.py:28 | in a layout joined from rows of equal width, flat index x + y·w holds rows[y][x] |
| Grid.AccessibleByRows | raycaster.py:134-135 | `is_accessible(x, y)` holds exactly when the character at row y, column x of the row-by-row layout is a space |
| Grid.DefaultMapBuilds | raycaster.py:10-28 | the shipped 16x16 layout builds a map, with 64-pixel cells for the 1024x1024 image |
| Viewer.MoveBy | raycaster.py:90-102 | a move keeps both new coordinates when the truncated target cell is accessible and otherwise changes nothing; the angles never change; a changed pose stands in an accessible cell |
| Viewer.MoveKeepsStanding | raycaster.py:90-102 | a player in an accessible cell is still in one after either move |
| Viewer.TurnedRight | raycaster.py:105-108 | the normalized angle steps up by 0.01 and wraps past 100.0 back above 0.0, staying in [0, 100] |
| Viewer.TurnedLeft | raycaster.py:112-115 | the normalized angle steps down by 0.01 and wraps below 0.0 back under 100.0, staying in [0, 100] |
| Viewer.RightThenLeft | raycaster.py:104-116 | a right turn followed by a left turn restores any normalized angle in [0, 100), wrap included |
| Viewer.LeftThenRight | raycaster.py:104-116 | a left turn followed by a right turn restores any normalized angle in (0, 100] |
| Viewer.WrapEnds | raycaster.py:104-116 | at the ends of the range the round trips fail: 100.0 comes back as 0.0 and 0.0 as 100.0 |
| Viewer.RightTurn | raycaster.py:104-109 | `turn_right` leaves the position and field of vision alone and sets the normalized view angle to the right-turned counter |
| Viewer.LeftTurn | raycaster.py:111-116 | `turn_left` leaves the position and field of vision alone and sets the normalized view angle to the left-turned counter |
| Viewer.TurnRoundTrip | raycaster.py:104-116 | turning right then left restores the whole pose whenever the normalized angle lies in [0, 100) |
| Viewer.Perform | raycaster.py:138-146 | one key press never changes the field of vision; a turn leaves the position alone and a move leaves the view angle alone |
| Viewer.Run | raycaster.py:183-190 | key presses applied one per frame in order; a run of turns only leaves the position where it was |
| Viewer.RunKeepsStanding | raycaster.py:138-146 | after any sequence of key commands a player who started in an accessible cell is in one, with the same field of vision |
| Viewer.Player.constructor | raycaster.py:78-88 | the new player holds the given position, view angle and field of vision |
| Viewer.Player.MoveForward | raycaster.py:90-95 | the new state is the old one moved by (cos, sin) of the view angle, committed only onto an accessible cell |
| Viewer.Player.MoveBackward | raycaster.py:97-102 | the new state is the old one moved by minus (cos, sin), committed only onto an accessible cell |
| Viewer.Player.TurnRight | raycaster.py:104-109 | the new state is the right turn of the old one |
| Viewer.Player.TurnLeft | raycaster.py:111-116 | the new state is the left turn of the old one |
| RayMarch.Range | raycaster.py:51-52 | the range after k steps is non-negative and below 20.0 exactly for the first 400 steps |
| RayMarch.RayAngle | raycaster.py:48-50 | column i's ray angle lies in [view − fov/2, view + fov/2) for every column of the image |
| RayMarch.RayAngleIncreasing | raycaster.py:48-50 | ray angles strictly increase from left column to right |
| RayMarch.OffsetPosition | raycaster.py:41-43 | the returned cell is the truncation toward zero of the point offset along the direction, on both sides of zero; at offset 0 it is the start's own cell |
| RayMarch.March | raycaster.py:51-57 | the `while` march from step k on; a hit or off-layout ending is at a step from k up to 399 (`MarchHitIff` and `MarchMissIff` characterise it fully) |
| RayMarch.MarchHitIff | raycaster.py:51-57 | the march hits at step k exactly when sample k is a wall within range and every earlier sample is open |
| RayMarch.MarchMissIff | raycaster.py:51-52 | the march ends without a hit exactly when all 400 samples are open |
| RayMarch.MarchOffLayout | raycaster.py:57 | an off-layout ending lies within range, past open samples only, at a sample whose flat index leaves the layout |
| RayMarch.HitIsAhead | raycaster.py:58 | for a viewer in an open cell every hit is at step 1 or later, so its range is at least 0.05 |
| RayMarch.CorrectedStraight | raycaster.py:58 | a ray along the view angle (with cos 0 = 1) needs no distance correction |
| Pov.SliceColour | raycaster.py:60-64 | a slice is white exactly when the column divided by the cell width is a whole number, black otherwise |
| Pov.SliceColourWholeCells | raycaster.py:60 | with a whole cell width the colour test is the integer remainder of the column |
| Pov.SliceFor | raycaster.py:58-70 | the slice is at left = i, one wide, with height times corrected distance equal to the image height, centred vertically, coloured by the boundary test |
| Pov.NearerIsTaller | raycaster.py:58 | a nearer wall gives a taller slice that starts higher |
| Pov.DrawableWhenStanding | raycaster.py:58 | for a viewer in an open cell, a column that stays in the layout can only have a zero height divisor through a zero cosine |
| Pov.Column | raycaster.py:57-72 | a column draws a slice exactly when its ray hits, and the slice is the one for the hit's corrected distance |
| Pov.StraightAhead | raycaster.py:58 | a column looking straight ahead has height image height over the range |
| Pov.CollectFrom | raycaster.py:51-72 | every emitted slice comes from the column it names |
| Pov.CollectOrdered | raycaster.py:47 | emitted slices appear in strictly increasing column order |
| Pov.CollectCover | raycaster.py:57-72 | a column has an emitted slice exactly when it produced one |
| Pov.PovColumnsIndex | raycaster.py:47-74 | entry i of the column run is column i's outcome |
| Pov.PovSlicesAreColumns | raycaster.py:47-74 | each drawn slice is the slice its column draws, for a column of the image |
| Pov.PovSlicesOrdered | raycaster.py:47 | the drawn slices go strictly left to right, so at most one per column |
| Pov.PovSlicesCover | raycaster.py:51-72 | a column has a drawn slice exactly when its ray hits a wall |
| Pov.DrawPlayerPov | raycaster.py:46-74 | the slices handed to the drawing call, in order, are those of the specification over all image columns |
| Pov.MarchColumn | raycaster.py:51-74 | one column's march returns exactly that column's slice, or nothing on a miss |
| FrameBuffer.NewFrameBuffer | raycast_png.py:68-70 | the fresh buffer has image_width·image_height entries (none for a negative product), all white |
| FrameBuffer.RectPixelInBuffer | raycast_png.py:58 | a rectangle whose corners index the buffer has every pixel indexing it |
| FrameBuffer.PaintColumnEffect | raycast_png.py:55-58 | one pixel column of the rectangle gets the colour, and every index outside it is unchanged |
| FrameBuffer.PaintEffect | raycast_png.py:54-58 | every pixel of the rectangle gets the colour, at index cx + cy·image_width, and every other index is unchanged |
| FrameBuffer.EmptyRectPaintsNothing | raycast_png.py:54-55 | a rectangle of width or height at most 0 changes nothing |
| FrameBuffer.DrawRectangle | raycast_png.py:44-58 | the buffer after the nested loops is the rectangle painted into the old buffer, and its length is unchanged |
| PngRender.ShippedSceneShape | raycast_png.py:4-36 | the shipped layout has 16·16 characters and its cells are 64 pixels wide and high, so the boundary test never divides by zero |
| PngRender.BoundaryColour | raycast_png.py:87-92 | a hit is white exactly when its truncated pixel x is a multiple of the truncated cell width or its pixel y a multiple of the cell height, black otherwise |
| PngRender.BoundaryAtCellEdge | raycast_png.py:87-92 | a hit whose pixel x is a whole number of whole cells is white |
| PngRender.ColumnHeight | raycast_png.py:86 | the column height times the corrected distance is the image height |
| PngRender.RectFor | raycast_png.py:93-102 | the rectangle is one wide, at x = W/2 + i, with top the truncated centre minus half height and height the truncated column height |
| PngRender.RightHalfWraps | raycast_png.py:97 | exactly the columns i < W − W/2 get an x inside the row; a later column's pixels have the index of pixels at the start of the next row |
| PngRender.HitDistanceNonZero | raycast_png.py:86 | for a player in an open cell every hit is at range 0.05 or more, so the divisor is non-zero unless the cosine is |
| PngRender.Column | raycast_png.py:78-103 | a column paints a rectangle exactly when its ray hits a wall, the rectangle of that hit, and it fits the buffer |
| PngRender.PngColumnsIndex | raycast_png.py:71 | entry i of the column run is column i's outcome |
| PngRender.ComposeUntouched | raycast_png.py:93-102 | an index no column's rectangle covers keeps its value through all the painting |
| PngRender.ComposeLastWriter | raycast_png.py:71-102 | a pixel of column j's rectangle that no later rectangle covers ends with column j's colour |
| PngRender.Blank | raycast_png.py:68-70 | the starting buffer has image_width·image_height white entries |
| PngRender.FrameUntouched | raycast_png.py:68-102 | a pixel no column's rectangle covers is white in the finished frame |
| PngRender.FrameLastWriter | raycast_png.py:71-102 | a pixel of column i's rectangle that no later column covers shows column i's colour in the finished frame |
| PngRender.Raycast | raycast_png.py:67-105 | the buffer `raycast` builds is the specified frame over all image columns |
| PngRender.CastColumn | raycast_png.py:77-105 | one column's march paints exactly that column's rectangle, or nothing on a miss |

## Left out

- The pygame event loop, key polling, quit detection, window blit and caption (raycaster.py:138-202) are I/O. `handle_key_press` is modelled only as a `Command` applied through `Perform`.
- `pygame.draw.rect` (raycaster.py:71) is a library call whose clipping is not visible. `DrawPlayerPov` returns the slices it would draw instead.
- `dump_image` (raycast_png.py:61-64) is file output. `Raycast` returns the buffer.
- `cos`, `sin` and `pi` are parameters, and arithmetic is exact. IEEE-754 rounding is not modelled, including the drift from adding 0.05 repeatedly.
- Python's negative-index wrap-around and `IndexError` are excluded by precondition, not modelled:
  - the map look-ups at raycaster.py:135 and raycast_png.py:85 (`Cast.OffLayout`);
  - the buffer writes of `draw_rectangle` (`RectInBuffer`).
- `ZeroDivisionError` in the height division or the boundary test is excluded by precondition (`ColumnDrawable`, `ColumnReady`).
- `cast_ray_frame_x`/`cast_ray_frame_y` (raycaster.py:54-55) are computed but never used. `MarchColumn` computes them as the source does and never uses them.
- The literal layouts (raycaster.py:10-28, raycast_png.py:9-27) serve only as concrete instances (`DefaultMapBuilds`, `ShippedSceneShape`). The model does not prove which of their cells are open.
- Pov.MarchColumn and PngRender.CastColumn: the inner `while` loop of each renderer is a method of its own, and `break` becomes a return from it. The distance product `range * cos(angle − view)` is computed through the function `Corrected`, `cx * CELL_WIDTH` through `ToPixels` and `x + t * cos(a)` through `Along`.
- Grid.NewMap: `InvalidMapError` is never defined in the source. The model reports it as the error value `InvalidMap` and does not model the `NameError` that raising it would cause.
