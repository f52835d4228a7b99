# XnaRaycaster core, modelled in Dafny

This project models the core of XnaRaycaster, a Wolfenstein-style textured ray caster written in C# for XNA. It covers three parts:

- **The renderer** (`RayCaster`). Its constructor builds three lookup tables: the floor distance of each screen row, and the buffer index of each floor and ceiling pixel. `Render` clears the frame and then casts one ray per screen column. Each ray walks the map grid cell by cell (a DDA walk) until it reaches a wall. From that hit the column gets the perpendicular wall distance, the wall slice's on-screen extent, the texture column and rows, and a shading level. It is then drawn: the wall slice, the floor below it, and the ceiling mirrored above it.
- **The darkness cache** of a texture (`RayCasterTexture.LoadTexture`). Each texture is turned into 48 copies. Every colour channel of copy `d` is divided by a divisor that grows with `d`.
- **The camera's motion state machine** (`RayCasterCamera`). The camera is either at rest or running one animated move (a forward or backward step of one direction length) or one quarter-turn rotation. Each frame's `Update` advances that motion by the elapsed milliseconds.

The modules follow that structure:

- `Numerics` holds C# integer division, remainder and the `(int)` cast.
- `Pixels` holds the 4-byte pixel and its `Int32` packing.
- `Geometry` holds 2-D vectors and the math library as a record of functions.
- `Shading` holds the darkness cache.
- `CameraMotion` holds the camera.
- `Dda` holds the grid walk.
- `Column` holds the per-column integer and real geometry.
- `Render` holds the engine, `CastRay`, the column drawing and `Render` itself.

Doubles and floats are modelled as reals. `Math.Sqrt`, `Cos`, `Sin`, `Atan2` and `PI` are fields of a `MathLib` value the caller supplies. Any fact about them that a property needs is a precondition of that property. An axis-parallel ray's IEEE infinity is the `Infinite` case of `Dist`. A failure inside `Render` is an `Err` case of `RenderError`. Four cases are exceptions the source throws; one is added by the model:

- `DegenerateRay` (added by the model): a zero ray direction. The source does not throw here: it computes NaN distances, and what the walk then does depends on how NaN compares. With the plane perpendicular to a non-zero direction this case cannot arise (`Render.RayDirNonZero`).
- `OutsideMap`: the walk reads outside `WorldMap`, where the source's array access throws.
- `ZeroDistance`: the wall is at distance 0. The source casts the infinite height to `int` and `Math.Abs` then overflows.
- `MissingTexture`: the library index is out of range, where `List` indexing throws.
- `TextureRowOutOfRange`: the 32-bit product in the wall loop's `texY` wrapped around, so the texture read is out of range and throws. This happens for walls very close to the camera: on a 480-row screen, a wall at distance 0.001 gives a slice 480000 rows high, and its first row reads texture row -2 (`Column.NearWallRowWraps`).

The source's `while (hit == 0)` loop has no bound. The model gives it the step budget of the map's bounding box and proves that this budget is never exhausted (`Dda.TraverseEnds`).

Each rotation tick is evidently meant to be clamped to the angle still to turn, but the code does this only for left turns, and the model follows the code: `Math.Min(length, rotation)` never caps the negative step of a right turn (`CameraMotion.TurnStep`). A right turn's last tick therefore turns past the target, but the overshoot never shows: a right tick's `length` drops to 0 or below on exactly the tick where a clamped left tick would, and the snap to the target then overwrites direction and plane inside that same tick (`CameraMotion.RightTurnFinishesLikeLeft`).

## Model

| member | source | states |
|---|---|---|
| Numerics.Quot | XnaRaycaster/XnaRaycaster/RayCaster.cs:154-157 | C# integer division truncates toward zero: the remainder left over has the sign of the dividend and is smaller than the divisor |
| Numerics.Rem | XnaRaycaster/XnaRaycaster/RayCaster.cs:245-246 | C# `%` pairs with truncating division (`a == q*b + r`) and takes the dividend's sign |
| Numerics.Trunc | XnaRaycaster/XnaRaycaster/RayCaster.cs:81-82 | the `(int)` cast rounds toward zero: the greatest integer not above a non-negative value, the least not below a negative one |
| Numerics.NegatedHalf | XnaRaycaster/XnaRaycaster/RayCaster.cs:154 | `-lineHeight / 2` in C# is `-(lineHeight / 2)`, and for odd heights it differs by one from Euclidean division of the negated value |
| Pixels.Pack | XnaRaycaster/XnaRaycaster/RayCasterTexture.cs:51-52 | four bytes packed into one unsigned 32-bit word |
| Pixels.ToInt32 | XnaRaycaster/XnaRaycaster/RayCasterTexture.cs:51-54 | the stored `Int32` is in range and is negative exactly when the top (alpha) byte has its high bit set |
| Pixels.FromInt32 | XnaRaycaster/XnaRaycaster/RayCasterTexture.cs:48-49 | every `Int32` texel is the stored form of some pixel: decoding it and storing again gives back the same `Int32` |
| Pixels.UnpackPack | XnaRaycaster/XnaRaycaster/RayCasterTexture.cs:49-52 | unpacking a packed pixel gives back its four bytes |
| Pixels.PackUnpack | XnaRaycaster/XnaRaycaster/RayCasterTexture.cs:49-52 | packing the bytes of a 32-bit word gives back the word |
| Pixels.Int32RoundTrip | XnaRaycaster/XnaRaycaster/RayCasterTexture.cs:48-54 | `BitConverter.GetBytes` and the shift-or repacking are mutually inverse on every pixel and every `Int32` |
| Shading.Darkness | XnaRaycaster/XnaRaycaster/RayCasterTexture.cs:39 | every level's divisor is at least 1, so no level is brighter than the source |
| Shading.DarknessStep | XnaRaycaster/XnaRaycaster/RayCasterTexture.cs:59 | after level `d` the divisor grows by `0.0125 d + 0.00025 d²` |
| Shading.DarknessClosedForm | XnaRaycaster/XnaRaycaster/RayCasterTexture.cs:39-60 | the divisor of level `d` is `1 + 0.0125·d(d-1)/2 + 0.00025·(d-1)d(2d-1)/6` |
| Shading.ClosedFormStep | XnaRaycaster/XnaRaycaster/RayCasterTexture.cs:59 | the closed form satisfies the loop's recurrence |
| Shading.DarkestLevel | XnaRaycaster/XnaRaycaster/RayCasterTexture.cs:9-60 | levels 0 and 1 divide by 1, and the 48th level divides by 22.89025 |
| Shading.DarknessMonotone | XnaRaycaster/XnaRaycaster/RayCasterTexture.cs:59 | a later level never divides by less than an earlier one |
| Shading.DarknessStrictFromOne | XnaRaycaster/XnaRaycaster/RayCasterTexture.cs:59 | from level 1 on, each later level divides by strictly more |
| Shading.ShadeChannel | XnaRaycaster/XnaRaycaster/RayCasterTexture.cs:51-52 | `(Byte)(c / k)` is the whole number of times `k` fits in `c`, and never exceeds `c` |
| Shading.ShadeChannelAntitone | XnaRaycaster/XnaRaycaster/RayCasterTexture.cs:51-59 | a larger divisor never yields a brighter channel |
| Shading.QuotientAntitone | XnaRaycaster/XnaRaycaster/RayCasterTexture.cs:51-52 | truncated quotients of one value fall as the divisor rises |
| Shading.ShadePixel | XnaRaycaster/XnaRaycaster/RayCasterTexture.cs:49-52 | shading forces alpha to 255 and dims each colour channel; divisor 1 keeps the colour |
| Shading.RowMajorInRange | XnaRaycaster/XnaRaycaster/RayCasterTexture.cs:47-48 | `x + width*y` addresses the `GetData` array for every in-range texel |
| Shading.ShadeVariant | XnaRaycaster/XnaRaycaster/RayCasterTexture.cs:42-56 | a shaded copy has the texture's shape, and `[x][y]` is the shaded source texel `x + width*y` |
| Shading.VariantsDarken | XnaRaycaster/XnaRaycaster/RayCasterTexture.cs:51-59 | a copy shaded with a larger divisor is nowhere brighter |
| Shading.CacheProperties | XnaRaycaster/XnaRaycaster/RayCasterTexture.cs:37-60 | a darkness cache has 48 copies of the texture's shape with fully opaque texels; level 1 equals level 0; each level is nowhere brighter than the one before |
| Shading.DimmerAcrossLevels | XnaRaycaster/XnaRaycaster/RayCasterTexture.cs:37-60 | level-by-level dimming accumulates: any later level is nowhere brighter than any earlier one |
| Shading.LoadTexture | XnaRaycaster/XnaRaycaster/RayCasterTexture.cs:31-61 | the 48 shaded copies: copy `d` is the source divided by the level-`d` divisor, every texel opaque, level 1 equal to level 0, and darkness never decreasing with the level |
| Shading.BuildLevels | XnaRaycaster/XnaRaycaster/RayCasterTexture.cs:39-60 | the level loop, run with the divisor starting at 1 and growing after each level, yields a darkness cache of the texture |
| Shading.LevelsUpToShaded | XnaRaycaster/XnaRaycaster/RayCasterTexture.cs:40-59 | after `d` iterations there are `d` copies, and copy `e` is the source shaded with the level-`e` divisor |
| Geometry.RotationKeepsDot | XnaRaycaster/XnaRaycaster/RayCasterCamera.cs:23-32 | rotating direction and plane by the same angle keeps their dot products, hence lengths and the right angle between them |
| Geometry.RotatedComponents | XnaRaycaster/XnaRaycaster/RayCasterCamera.cs:95-101 | `CreateRotationZ` turns a vector by the angle: its component along the old vector is `cos t` and its quarter-turned component is `sin t`, in units of the squared length; a zero turn keeps it |
| CameraMotion.NewCamera | XnaRaycaster/XnaRaycaster/RayCasterCamera.cs:12-21 | the camera starts at rest at (21.5, 13.5), facing +x, with the plane of length 0.66 pointing to -y |
| CameraMotion.Turn | XnaRaycaster/XnaRaycaster/RayCasterCamera.cs:23-32 | the public `Rotate` turns direction and plane by the same angle `rads` and keeps position and motion, so their lengths and the angle between them are kept; a turn by 0 changes nothing |
| CameraMotion.MoveForward | XnaRaycaster/XnaRaycaster/RayCasterCamera.cs:52-81 | accepted only at rest: it starts a translation to one direction length ahead; otherwise the camera is unchanged |
| CameraMotion.MoveBackwards | XnaRaycaster/XnaRaycaster/RayCasterCamera.cs:41-50 | accepted only at rest: it starts a translation one direction length behind along the reversed direction; otherwise unchanged |
| CameraMotion.Move | XnaRaycaster/XnaRaycaster/RayCasterCamera.cs:61-66 | a move keeps the pose and records the target, the travel heading and, as the distance still to go, the distance from the current position to the target |
| CameraMotion.RotateLeft | XnaRaycaster/XnaRaycaster/RayCasterCamera.cs:120-132 | accepted only at rest: it starts a counter-clockwise rotation to the current heading plus pi/2 |
| CameraMotion.RotateRight | XnaRaycaster/XnaRaycaster/RayCasterCamera.cs:134-146 | accepted only at rest: it starts a clockwise rotation to the current heading minus pi/2 |
| CameraMotion.StartRotation | XnaRaycaster/XnaRaycaster/RayCasterCamera.cs:83-88 | a rotation keeps the pose and records the target angle, the turn sign and a quarter turn, `pi/2` (positive), still to turn |
| CameraMotion.TurnStep | XnaRaycaster/XnaRaycaster/RayCasterCamera.cs:90-92 | a left tick turns `0.004·ms`, or exactly the angle still to turn when that is smaller; a right tick always turns `-0.004·ms` |
| CameraMotion.RightTurnFinishesLikeLeft | XnaRaycaster/XnaRaycaster/RayCasterCamera.cs:90-116 | a right tick stops the rotation exactly when a left tick with the same angle left would, and then both snap to the same camera, so the unclamped right step never shows |
| CameraMotion.SnapPlane | XnaRaycaster/XnaRaycaster/RayCasterCamera.cs:109-113 | the snapped plane is the unit heading turned a quarter clockwise and scaled: perpendicular to the heading and of length 0.66 |
| CameraMotion.FinishRotation | XnaRaycaster/XnaRaycaster/RayCasterCamera.cs:103-116 | a finished rotation comes to rest facing the target angle, with the plane the direction turned clockwise and scaled to 0.66 |
| CameraMotion.Update | XnaRaycaster/XnaRaycaster/RayCasterCamera.cs:34-118 | one tick: at rest nothing changes; a translation moves by `heading/350 · ms`, keeps going exactly while the distance left after subtracting that step's length is positive, and otherwise stops exactly at its target; a rotation turns direction and plane by `TurnStep`, keeps going exactly while the angle left after subtracting the step's magnitude is positive, and otherwise snaps to the target; a 0 ms tick changes nothing |
| CameraMotion.Run | XnaRaycaster/XnaRaycaster/RayCasterCamera.cs:36-39 | a sequence of ticks keeps the camera in a state `Update` accepts |
| CameraMotion.TranslationArrives | XnaRaycaster/XnaRaycaster/RayCasterCamera.cs:61-81 | however the ticks fall, a translation keeps direction and plane, and once it stops the camera is exactly at the target |
| CameraMotion.IdleStaysPut | XnaRaycaster/XnaRaycaster/RayCasterCamera.cs:36-39 | at rest, any number of ticks leaves the camera unchanged |
| CameraMotion.MoveForwardArrives | XnaRaycaster/XnaRaycaster/RayCasterCamera.cs:52-81 | a forward move driven until it stops ends exactly one direction length ahead, facing the same way |
| CameraMotion.MoveBackwardsArrives | XnaRaycaster/XnaRaycaster/RayCasterCamera.cs:41-81 | a backward move driven until it stops ends exactly one direction length behind, facing the same way |
| CameraMotion.RotationArrives | XnaRaycaster/XnaRaycaster/RayCasterCamera.cs:83-118 | however the ticks fall, a rotation keeps the position, and once it stops the camera faces the target angle exactly |
| CameraMotion.LeftThenRightRestores | XnaRaycaster/XnaRaycaster/RayCasterCamera.cs:120-146 | from a snapped pose, a completed left quarter turn followed by a completed right one restores the camera exactly |
| CameraMotion.NewCameraIsSnapped | XnaRaycaster/XnaRaycaster/RayCasterCamera.cs:14-21 | the starting pose is the pose a rotation to angle 0 finishes in |
| Dda.Step | XnaRaycaster/XnaRaycaster/RayCaster.cs:126-138 | one iteration crosses the strictly nearer x boundary, or else the y boundary, and moves exactly one cell |
| Dda.Traverse | XnaRaycaster/XnaRaycaster/RayCaster.cs:123-142 | the walk passes only open cells and stops at the first wall or the first cell outside the map |
| Dda.TraverseFindsFirstWall | XnaRaycaster/XnaRaycaster/RayCaster.cs:123-142 | if the walk reaches a wall within the budget without leaving the map, the traversal reports a wall, no later than that one |
| Dda.InfiniteAxisNeverCrossed | XnaRaycaster/XnaRaycaster/RayCaster.cs:89-138 | a ray with infinite `sideDistX` never crosses an x boundary |
| Dda.InfiniteYAxisNeverCrossed | XnaRaycaster/XnaRaycaster/RayCaster.cs:90-138 | a ray with infinite `sideDistY` and finite x distances never crosses a y boundary |
| Dda.MaxRow | XnaRaycaster/XnaRaycaster/RayCaster.cs:141 | no column of the map is longer than the bound |
| Dda.Budget | XnaRaycaster/XnaRaycaster/RayCaster.cs:124 | the budget covers the walk's distance to the edge of the map's bounding box |
| Dda.TraverseEnds | XnaRaycaster/XnaRaycaster/RayCaster.cs:123-142 | the unbounded loop ends: within the bounding-box budget the walk reaches a wall or leaves the map |
| Dda.Start | XnaRaycaster/XnaRaycaster/RayCaster.cs:81-120 | the walk starts in the cell holding the position and steps against each negative direction component; an axis is at infinite distance exactly when the direction has no component along it |
| Dda.CrossedAxisMoves | XnaRaycaster/XnaRaycaster/RayCaster.cs:89-148 | for a non-zero direction, the boundary crossed last is along an axis the ray actually moves on, so the distance formula never divides by zero |
| Column.StepOffset | XnaRaycaster/XnaRaycaster/RayCaster.cs:146-148 | `(1 - step) / 2` is 1 for a negative step and 0 for a positive one |
| Column.HitParameter | XnaRaycaster/XnaRaycaster/RayCaster.cs:145-148 | the ray parameter at which the ray reaches the crossed face: the point `pos + t·dir` has the face's coordinate along the crossed axis |
| Column.PerpWallDist | XnaRaycaster/XnaRaycaster/RayCaster.cs:145-148 | the perpendicular wall distance is never negative |
| Column.RawWallX | XnaRaycaster/XnaRaycaster/RayCaster.cs:164-173 | the unfolded `wallX` is the other coordinate of a point on the ray's line whose crossed-axis coordinate is the face's |
| Column.HitPointOnWallFace | XnaRaycaster/XnaRaycaster/RayCaster.cs:145-174 | the hit point lies on the crossed face's line, its other coordinate is the unfolded `wallX`, and `perpWallDist` is the ray parameter's magnitude |
| Column.WallFraction | XnaRaycaster/XnaRaycaster/RayCaster.cs:174 | `wallX - Floor(wallX)` lies in `[0, 1)` and differs from `wallX` by a whole number |
| Column.LineHeight | XnaRaycaster/XnaRaycaster/RayCaster.cs:151 | the wall slice height is the screen height over the distance, rounded down |
| Column.DrawStart | XnaRaycaster/XnaRaycaster/RayCaster.cs:154-156 | the slice starts `lineHeight/2` above the middle row, never above row 0 |
| Column.DrawEnd | XnaRaycaster/XnaRaycaster/RayCaster.cs:157-159 | the slice ends between the middle and the last row, is negative only for an empty screen, and does not pass `drawStart` for slices of height 0 or 1 |
| Column.FloorStart | XnaRaycaster/XnaRaycaster/RayCaster.cs:229-233 | the floor loop starts just below the slice, and for a negative `drawEnd` it starts past the last row, so it draws nothing |
| Column.WallSpan | XnaRaycaster/XnaRaycaster/RayCaster.cs:151-159 | on an even screen, a slice shorter than the screen spans its height rounded down to even, centred on the middle row |
| Column.TexRowInRange | XnaRaycaster/XnaRaycaster/RayCaster.cs:184-187 | on an even screen the wall loop runs only for a positive slice height; below 2^17 rows its `d * TextureHeight` fits in `Int32`, and whenever it fits the row read is in `[0, 64)` |
| Column.TexRowWrapsOnce | XnaRaycaster/XnaRaycaster/RayCaster.cs:186-187 | the 32-bit wrap-around of the three products and two sums in `d` cancels out: `texY` is the truncated quotient of the wrapped exact product, and equals the exact quotient when that product fits in `Int32` |
| Column.ShortSlicesReadable | XnaRaycaster/XnaRaycaster/RayCaster.cs:184-192 | on an even screen every wall row of a slice below 2^17 rows reads inside the texture |
| Column.NearWallRowWraps | XnaRaycaster/XnaRaycaster/RayCaster.cs:184-187 | a 480-row screen and a wall at distance 0.001 give a 480000-row slice whose first row wraps to texture row -2, so not every wall row is readable |
| Column.OddHeightReadsNegativeRow | XnaRaycaster/XnaRaycaster/RayCaster.cs:184-187 | on a screen of odd height 3, a slice of height 2 makes the wall loop read texture row -16 |
| Column.TexColumn | XnaRaycaster/XnaRaycaster/RayCaster.cs:177-179 | `texX` is in `[0, 64)`, mirrored for x faces hit towards +x and y faces hit towards -y |
| Column.MirrorInvolution | XnaRaycaster/XnaRaycaster/RayCaster.cs:178-179 | mirroring a texture column is its own inverse and stays in range |
| Column.TexColumnOrientation | XnaRaycaster/XnaRaycaster/RayCaster.cs:174-179 | along one face, texture columns follow the hit position, reversed on mirrored faces |
| Column.ShadeLevel | XnaRaycaster/XnaRaycaster/RayCaster.cs:190-191 | `dval` is twice the distance rounded down, capped at level 47 |
| Column.ShadeLevelMonotone | XnaRaycaster/XnaRaycaster/RayCaster.cs:248-249 | a farther point never gets a lighter level |
| Column.FloorDistance | XnaRaycaster/XnaRaycaster/RayCaster.cs:38-40 | a row's floor distance is infinite exactly on the middle row of an even screen; otherwise it times `2y - h` is `h` |
| Column.FloorDistanceBelowMiddle | XnaRaycaster/XnaRaycaster/RayCaster.cs:38-40 | rows below the middle have a finite positive floor distance that shrinks towards the bottom |
| Column.FloorRowNearerThanWall | XnaRaycaster/XnaRaycaster/RayCaster.cs:233-237 | on an even screen every floor row below the slice is strictly nearer than the wall, so its interpolation weight lies in `(0, 1)` |
| Column.WallBase | XnaRaycaster/XnaRaycaster/RayCaster.cs:199-221 | per face: an x face hit towards +x has its foot at `x = mapX`, towards -x at `mapX + 1`, with `y = mapY + wallX`; y faces alike with the roles swapped; with `wallX` in `[0, 1)` the foot lies on the hit cell's square, and it is non-negative inside the map |
| Column.WallBaseAtHit | XnaRaycaster/XnaRaycaster/RayCaster.cs:199-221 | the foot lies on the hit point's face line and differs from the hit point by a whole number of cells along the face; when the hit point lies within the hit cell's span it is the hit point itself |
| Column.FloorPoint | XnaRaycaster/XnaRaycaster/RayCaster.cs:237-240 | the interpolated floor point is the camera position at distance 0 and the wall's foot at the wall distance, and non-negative in between |
| Column.FloorTexel | XnaRaycaster/XnaRaycaster/RayCaster.cs:245-246 | a non-negative floor coordinate maps to a texture coordinate in `[0, 64)` |
| Column.BufferIndexRange | XnaRaycaster/XnaRaycaster/RayCaster.cs:42-50 | a row-major index of column `x` is inside the frame exactly when its row is |
| Column.FloorIndex | XnaRaycaster/XnaRaycaster/RayCaster.cs:42-45 | a floor-table entry for an on-screen column decodes back to its column (`i % w`) and its row (`i / w`) |
| Column.CeilingIndex | XnaRaycaster/XnaRaycaster/RayCaster.cs:47-50 | a ceiling-table entry decodes back to its column and to the mirrored row `h - y` |
| Column.FloorIndexInRange | XnaRaycaster/XnaRaycaster/RayCaster.cs:42-45 | every floor-table index is inside the frame |
| Column.CeilingIndexInRange | XnaRaycaster/XnaRaycaster/RayCaster.cs:47-50 | a ceiling-table index is inside the frame exactly for rows 1 to h; the row-0 entry points past the end |
| Column.BufferIndexInjective | XnaRaycaster/XnaRaycaster/RayCaster.cs:42-50 | distinct (column, row) cells have distinct frame indices |
| Render.Table | XnaRaycaster/XnaRaycaster/RayCaster.cs:42-50 | the nested loops fill a `width × height` table with its formula |
| Render.NewEngine | XnaRaycaster/XnaRaycaster/RayCaster.cs:30-51 | the constructor's tables hold their formulas and the library is empty; floor indices are in the frame, and ceiling indices are in it exactly off row 0 |
| Render.AddTexture | XnaRaycaster/XnaRaycaster/RayCaster.cs:53-56 | appending a texture changes only the library, and a well-formed texture keeps the engine valid |
| Render.CameraX | XnaRaycaster/XnaRaycaster/RayCaster.cs:74 | `cameraX` runs over `[-1, 1)`: -1 at the left edge and 0 in the middle column |
| Render.RayDirNonZero | XnaRaycaster/XnaRaycaster/RayCaster.cs:74-78 | with the plane perpendicular to a non-zero direction, every column's ray keeps the direction's component and is never zero |
| Render.CastRay | XnaRaycaster/XnaRaycaster/RayCaster.cs:74-151 | a ray succeeds exactly at the first wall of its walk with a positive distance; its only errors are a zero direction, leaving the map, or a wall at distance 0, the last two naming the step |
| Render.TexNum | XnaRaycaster/XnaRaycaster/RayCaster.cs:162 | a wall's texture index is never negative |
| Render.FirstBadRow | XnaRaycaster/XnaRaycaster/RayCaster.cs:184-192 | scanning the wall rows finds none exactly when every row reads inside the texture, and otherwise the first row that does not |
| Render.ColumnError | XnaRaycaster/XnaRaycaster/RayCaster.cs:181-227 | a column draws exactly when the wall's texture and texture 4 exist and every wall row reads inside its texture; a missing texture is named by an index past the library's end, the wall's or 4; once the wall's texture exists, an unreadable wall row is reported before a missing texture 4, as the wall loop throws before that lookup |
| Render.Fraction | XnaRaycaster/XnaRaycaster/RayCaster.cs:164-174 | the hit's `wallX` lies in `[0, 1)` |
| Render.WallPixelShaded | XnaRaycaster/XnaRaycaster/RayCaster.cs:184-195 | a wall pixel is the texel at the row's `texY`, which is in range, taken from the level its distance selects; with a darkness cache it is nowhere brighter than the unshaded texel |
| Render.FloorPixelShaded | XnaRaycaster/XnaRaycaster/RayCaster.cs:233-256 | a floor row has a finite distance whose shade level is no darker than the wall's; its pixel is the floor texel at that level, nowhere brighter than the unshaded one with a darkness cache |
| Render.FloorSpot | XnaRaycaster/XnaRaycaster/RayCaster.cs:237-240 | every floor row's floor point is non-negative, so its texel coordinates are in range |
| Render.ColumnLayout | XnaRaycaster/XnaRaycaster/RayCaster.cs:183-257 | a drawn column on an even screen: rows 0 and `drawStart` are unwritten, the wall fills `(drawStart, drawEnd]`, the floor fills the rows below, and the ceiling mirrors the floor |
| Render.FartherIsDimmer | XnaRaycaster/XnaRaycaster/RayCaster.cs:190-192 | with a darkness cache, the same texel seen farther away is nowhere brighter |
| Render.Cell | XnaRaycaster/XnaRaycaster/RayCaster.cs:183-194 | a (column, row) cell's row-major index lies inside the frame |
| Render.WallStep | XnaRaycaster/XnaRaycaster/RayCaster.cs:184-196 | one more wall iteration paints the next row and leaves every other row as it was |
| Render.WallWrite | XnaRaycaster/XnaRaycaster/RayCaster.cs:194-195 | the wall loop's write of one iteration lands on the next row's cell and keeps the column drawn up to that row |
| Render.FloorStep | XnaRaycaster/XnaRaycaster/RayCaster.cs:233-257 | one more floor iteration paints its floor row and the mirrored ceiling row and leaves every other row as it was |
| Render.FloorBegins | XnaRaycaster/XnaRaycaster/RayCaster.cs:226-233 | the finished wall loop is the floor loop's starting state |
| Render.FloorWrite | XnaRaycaster/XnaRaycaster/RayCaster.cs:255-256 | the floor and ceiling writes of one iteration keep the column's drawn state for the next row |
| Render.DrawWall | XnaRaycaster/XnaRaycaster/RayCaster.cs:183-196 | the wall loop paints rows `(drawStart, drawEnd]` of the column and touches nothing else |
| Render.DrawFloor | XnaRaycaster/XnaRaycaster/RayCaster.cs:229-257 | the floor loop paints the floor rows and their mirrored ceiling rows over the walled column and touches no other column |
| Render.DrawColumn | XnaRaycaster/XnaRaycaster/RayCaster.cs:161-257 | a column fails exactly when `ColumnError` names an error, with that error; otherwise its pixels are the column layout over the previous contents and other columns are unchanged |
| Render.ColumnFailure | XnaRaycaster/XnaRaycaster/RayCaster.cs:72-227 | a column's missing-texture failure names an index past the library's end |
| Render.DrawFrameColumn | XnaRaycaster/XnaRaycaster/RayCaster.cs:72-257 | one iteration of the column loop over a cleared column: it fails exactly when the column does, with that column's error, and otherwise fills the column with the frame's pixels and keeps the others |
| Render.Clear | XnaRaycaster/XnaRaycaster/RayCaster.cs:66-68 | clearing keeps the buffer's size and sets every pixel to 0 |
| Render.Render | XnaRaycaster/XnaRaycaster/RayCaster.cs:60-265 | a frame renders exactly when no column fails, and otherwise reports the leftmost failing column's error; a rendered frame is fully determined by the camera, map and library, whatever the previous frame held |
| Render.DrawColumns | XnaRaycaster/XnaRaycaster/RayCaster.cs:71-258 | the column loop over a cleared frame stops at the leftmost failing column with its error, and otherwise leaves every column holding its finished pixels |
| Render.UnpaintedRows | XnaRaycaster/XnaRaycaster/RayCaster.cs:66-196 | row 0 and row `drawStart` of every column keep the cleared value 0 |
| Render.EnoughTextures | XnaRaycaster/XnaRaycaster/RayCaster.cs:162-226 | a library of more than four textures that covers every map value never fails a column for a missing texture |

## Left out

- `Texture2D`, `GetData`/`SetData` and the graphics device are left out: the frame is a sequence of pixels, and a texture's input is the `Int32` array `GetData` fills.
- `Stopwatch`, `Debug.WriteLine`, `Game1`, keyboard input and the unused `EnableRenderDarkness` property are left out.
- `RayCasterMap` is not part of this model. Its `WorldMap[x, y]` is a sequence of columns, possibly ragged, read as `grid[x][y]`.
- Floating point is modelled as reals: `float` and `double` rounding is not modelled, including the `float` accumulation of the darkness divisor and the `float` rotation step.
- Math library: square root, cosine, sine, arctangent and pi are supplied values (`Geometry.MathLib`), not computed.
- IEEE NaN is not modelled. With a non-negative position, a zero direction component takes the `else` branch of the step set-up, where `mapX + 1 - rayPosX` lies in `(0, 1]`, so that axis's side distance is `+∞` and never `0 · ∞`; so NaN arises in the source only from a zero direction. The source does not throw for a zero direction; the model reports it as `DegenerateRay` instead of following NaN comparisons.
- Geometry.Normalize: a zero vector is left as it is, where the source produces NaNs.
- Column.LineHeight: the model's slice height is unbounded. The source's `(int)` cast of heights of 2^31 or more is unspecified in C#, and `Math.Abs(Int32.MinValue)` throws. Only the zero-distance case is modelled, as `ZeroDistance`.
- Render.Render: requires an even screen height, a non-negative camera position and textures of 48 × 64 × 64 texels. On an odd screen the wall loop can read texture row -16 (`Column.OddHeightReadsNegativeRow`). A negative position makes the floor texel coordinates negative, and the source then throws on a negative array index.
- Render.DrawColumn: when texture 4 is missing, or a wall row's `texY` wraps out of the texture, the source throws after the wall loop has written some rows of the column. The model reports the error without those writes. The partial frame is never handed out, and the next `Render` clears it.
- Render.Render: when a column fails, the buffer writes the source made before the exception are not modelled. The error is modelled; the frame is not.
- Render.Render: the frame's index arithmetic (`x + width * y`) and the constructor's tables are taken to fit in `Int32`; only the wall loop's `texY` products are modelled with 32-bit wrap-around.
- CameraMotion.Update: a translation's arrival is proved for every tick sequence after which it has stopped. That it does stop is not proved, because ticks of 0 ms never advance it.
- CameraMotion.Update: `ElapsedGameTime.Milliseconds` is a natural-number parameter, the per-tick milliseconds component.
