/** The `RayCaster` engine: the lookup tables built once per screen size, the
    texture library, and `Render`, which clears the frame and draws every screen
    column from the camera's point of view. The frame is the `width * height`
    row-major buffer of the render target; a pixel is kept as its four bytes. */
module Render {
  import opened Numerics
  import opened Pixels
  import opened Geometry
  import opened Shading
  import opened Dda
  import opened Column
  import opened CameraMotion

  datatype Option<T> = None | Some(value: T)

  /** Why a frame could not be drawn. Each case but `DegenerateRay` is an exception the
      source throws; see `RenderError`'s cases. */
  datatype RenderError =
      /** A ray with direction zero, for which the source computes only NaNs. */
    | DegenerateRay
      /** The walk read `WorldMap` outside its bounds after `steps` steps. */
    | OutsideMap(steps: nat)
      /** The wall was hit at distance 0, so `Math.Abs((int)(h / 0.0))` overflows. */
    | ZeroDistance(steps: nat)
      /** `m_TextureLibrary[index]` does not exist. */
    | MissingTexture(index: int)
      /** The wall loop's `texY` on loop row `row` wrapped around in 32 bits and fell
         outside the texture's 64 rows. */
    | TextureRowOutOfRange(row: int)

  datatype Result<T> = Ok(value: T) | Err(error: RenderError)

  /** A `RayCasterTexture`: its shaded copies, indexed by level, column and row. */
  type Texture = seq<Variant>

  /** 48 levels of 64 x 64 texels. */
  predicate WellFormed(t: Texture) {
    |t| == Levels &&
    forall d :: 0 <= d < Levels ==>
      |t[d]| == TextureSize && forall x :: 0 <= x < TextureSize ==> |t[d][x]| == TextureSize
  }

  /** The engine's state: screen size, lookup tables and texture library. */
  datatype Engine = Engine(
    width: nat,
    height: nat,
    floorDist: seq<Dist>,
    floorIndex: seq<seq<int>>,
    ceilingIndex: seq<seq<int>>,
    library: seq<Texture>)

  /** The lookup tables are caches of their formulas, and every texture is well formed. */
  predicate Valid(e: Engine) {
    |e.floorDist| == e.height &&
    (forall y :: 0 <= y < e.height ==> e.floorDist[y] == FloorDistance(e.height, y)) &&
    |e.floorIndex| == e.width && |e.ceilingIndex| == e.width &&
    (forall x :: 0 <= x < e.width ==> |e.floorIndex[x]| == e.height && |e.ceilingIndex[x]| == e.height) &&
    (forall x, y :: 0 <= x < e.width && 0 <= y < e.height ==>
      e.floorIndex[x][y] == FloorIndex(e.width, x, y) &&
      e.ceilingIndex[x][y] == CeilingIndex(e.width, e.height, x, y)) &&
    forall i :: 0 <= i < |e.library| ==> WellFormed(e.library[i])
  }

  /** A `width * height` table filled column by column from `f`. */
  method Table(width: nat, height: nat, f: (int, int) -> int) returns (t: seq<seq<int>>)
    ensures |t| == width
    ensures forall x :: 0 <= x < width ==> |t[x]| == height
    ensures forall x, y :: 0 <= x < width && 0 <= y < height ==> t[x][y] == f(x, y)
  {
    t := [];
    var x := 0;
    while x < width
      invariant 0 <= x <= width && |t| == x
      invariant forall i :: 0 <= i < x ==> |t[i]| == height
      invariant forall i, y :: 0 <= i < x && 0 <= y < height ==> t[i][y] == f(i, y)
    {
      var column: seq<int> := [];
      var y := 0;
      while y < height
        invariant 0 <= y <= height && |column| == y
        invariant forall j :: 0 <= j < y ==> column[j] == f(x, j)
      {
        column := column + [f(x, y)];
        y := y + 1;
      }
      t := t + [column];
      x := x + 1;
    }
  }

  /** The constructor: the floor-distance table and the two index tables, and an
      empty texture library. Every floor index, and every ceiling index except row 0's,
      addresses a cell of the frame. */
  method NewEngine(width: nat, height: nat) returns (e: Engine)
    ensures Valid(e) && e.width == width && e.height == height && e.library == []
    ensures forall x, y :: 0 <= x < width && 0 <= y < height ==>
      0 <= e.floorIndex[x][y] < width * height &&
      (0 <= e.ceilingIndex[x][y] < width * height <==> y != 0)
  {
    var dist: seq<Dist> := [];
    var y := 0;
    while y < height
      invariant 0 <= y <= height && |dist| == y
      invariant forall j :: 0 <= j < y ==> dist[j] == FloorDistance(height, j)
    {
      dist := dist + [FloorDistance(height, y)];
      y := y + 1;
    }
    var floor := Table(width, height, (x, y) => x + width * y);
    var ceiling := Table(width, height, (x, y) => x + width * (height - y));
    e := Engine(width, height, dist, floor, ceiling, []);
    forall x, y | 0 <= x < width && 0 <= y < height
      ensures 0 <= e.floorIndex[x][y] < width * height
      ensures 0 <= e.ceilingIndex[x][y] < width * height <==> y != 0
    {
      FloorIndexInRange(width, height, x, y);
      CeilingIndexInRange(width, height, x, y);
    }
  }

  /** `AddRayCasterTexture`: append to the library; the tables are untouched. */
  function AddTexture(e: Engine, t: Texture): (r: Engine)
    ensures r.library == e.library + [t]
    ensures r.width == e.width && r.height == e.height
    ensures Valid(e) && WellFormed(t) ==> Valid(r)
  {
    e.(library := e.library + [t])
  }

  /** `cameraX`: the column's position across the camera plane. */
  function CameraX(x: int, width: nat): (cx: real)
    requires width > 0
    ensures 0 <= x < width ==> -1.0 <= cx < 1.0
    ensures x == 0 ==> cx == -1.0
    ensures 2 * x == width ==> cx == 0.0
  {
    (2 * x) as real / width as real - 1.0
  }

  /** The direction of the ray for screen column `x`: the camera direction plus
      the plane vector scaled by `cameraX`. */
  function RayDir(c: Camera, x: int, width: nat): Vec2
    requires width > 0
  {
    Add(c.direction, Scale(c.plane, CameraX(x, width)))
  }

  /** A camera whose plane is perpendicular to a direction of non-zero length casts
      no zero ray: every ray has the direction's own squared length along it. */
  lemma RayDirNonZero(c: Camera, x: int, width: nat)
    requires width > 0
    requires Dot(c.direction, c.plane) == 0.0 && Dot(c.direction, c.direction) > 0.0
    ensures Dot(RayDir(c, x, width), c.direction) == Dot(c.direction, c.direction)
    ensures RayDir(c, x, width) != Vec2(0.0, 0.0)
  {
    var d, p, k := c.direction, c.plane, CameraX(x, width);
    var r := RayDir(c, x, width);
    assert Dot(r, d) == Dot(d, d) + k * Dot(d, p);
  }

  /** What the walk found: the wall cell and how it was reached. */
  datatype Hit = Hit(ray: Ray, stepping: Stepping, steps: nat, perp: real)

  /** The walk from `pos` reaches `ray` in `steps` steps through open cells only. */
  predicate Reached(g: Grid, pos: Vec2, dir: Vec2, m: MathLib, ray: Ray, steps: nat) {
    var st := Start(pos, dir, m);
    steps >= 1 && ray == Walk(st.0, st.1, steps) &&
    forall k :: 1 <= k < steps ==> Open(g, Walk(st.0, st.1, k))
  }

  /** A hit the rest of the column can be drawn from. */
  predicate Hits(g: Grid, pos: Vec2, dir: Vec2, hit: Hit) {
    Wall(g, hit.ray) && UnitSteps(hit.stepping) &&
    (hit.ray.side == XSide ==> dir.x != 0.0) && (hit.ray.side == YSide ==> dir.y != 0.0) &&
    hit.perp == PerpWallDist(pos, dir, hit.ray, hit.stepping) && hit.perp > 0.0
  }

  /** The ray of one column: the DDA from `pos`, then the perpendicular distance.
      It succeeds exactly at the first wall along the ray; otherwise the error
      carries the step at which the walk left the map or hit a wall at distance 0. */
  function CastRay(g: Grid, pos: Vec2, dir: Vec2, m: MathLib): (r: Result<Hit>)
    ensures r == Err(DegenerateRay) <==> dir == Vec2(0.0, 0.0)
    ensures r.Ok? ==> (Hits(g, pos, dir, r.value) && r.value.stepping == Start(pos, dir, m).1 &&
      Reached(g, pos, dir, m, r.value.ray, r.value.steps))
    ensures r.Err? && r.error.OutsideMap? ==>
      var w := Walk(Start(pos, dir, m).0, Start(pos, dir, m).1, r.error.steps);
      Reached(g, pos, dir, m, w, r.error.steps) && !InGrid(g, w.mapX, w.mapY)
    ensures r.Err? && r.error.ZeroDistance? ==>
      var w := Walk(Start(pos, dir, m).0, Start(pos, dir, m).1, r.error.steps);
      Reached(g, pos, dir, m, w, r.error.steps) && Wall(g, w) &&
      (w.side == XSide ==> dir.x != 0.0) && (w.side == YSide ==> dir.y != 0.0) &&
      PerpWallDist(pos, dir, w, Start(pos, dir, m).1) == 0.0
    ensures r.Err? ==> !r.error.MissingTexture? && !r.error.TextureRowOutOfRange?
  {
    if dir == Vec2(0.0, 0.0) then Err(DegenerateRay)
    else
      var st := Start(pos, dir, m);
      var budget := Budget(g, st.0, st.1);
      var t := Traverse(g, st.0, st.1, budget);
      TraverseEnds(g, st.0, st.1, budget);
      if t.outcome == LeftMap then Err(OutsideMap(t.steps))
      else
        CrossedAxisMoves(pos, dir, m, t.steps);
        var perp := PerpWallDist(pos, dir, t.ray, st.1);
        if perp == 0.0 then Err(ZeroDistance(t.steps))
        else Ok(Hit(t.ray, st.1, t.steps, perp))
  }

  /** `texNum`: the map value less one. */
  function TexNum(g: Grid, hit: Hit): (n: int)
    requires Wall(g, hit.ray)
    ensures n >= 0
  {
    g[hit.ray.mapX][hit.ray.mapY] - 1
  }

  /** The first row in `[y, end)` of the wall loop whose texture row lies outside `[0, 64)`. */
  function FirstBadRow(h: nat, l: nat, y: int, end: int): (b: Option<int>)
    decreases end - y
    ensures b.None? <==> forall z :: y <= z < end ==> RowReadable(z, h, l)
    ensures b.Some? ==> (y <= b.value < end && !RowReadable(b.value, h, l) &&
      forall z :: y <= z < b.value ==> RowReadable(z, h, l))
  {
    if y >= end then None
    else if !RowReadable(y, h, l) then Some(y)
    else FirstBadRow(h, l, y + 1, end)
  }

  /** How drawing a column fails, in the source's order: the lookup of the wall texture,
      then the first wall-loop row whose wrapped `texY` leaves the texture, then the lookup
      of texture 4 for floor and ceiling. */
  function ColumnError(e: Engine, g: Grid, hit: Hit): (r: Option<RenderError>)
    requires Wall(g, hit.ray) && hit.perp > 0.0
    ensures r.None? <==> TexNum(g, hit) < |e.library| && 4 < |e.library| && RowsReadable(e.height, Height(e, hit))
    ensures r.Some? && r.value.MissingTexture? ==>
      r.value.index >= |e.library| && (r.value.index == TexNum(g, hit) || r.value.index == 4)
    ensures r.Some? ==> r.value.MissingTexture? || r.value.TextureRowOutOfRange?
    ensures TexNum(g, hit) < |e.library| && !RowsReadable(e.height, Height(e, hit)) ==>
      r.Some? && r.value.TextureRowOutOfRange?
  {
    var l := Height(e, hit);
    var start, end := DrawStart(e.height, l), DrawEnd(e.height, l);
    if TexNum(g, hit) >= |e.library| then Some(MissingTexture(TexNum(g, hit)))
    else if start < end && FirstBadRow(e.height, l, start, end).Some? then
      var y := FirstBadRow(e.height, l, start, end).value;
      Some(TextureRowOutOfRange(y))
    else if |e.library| <= 4 then Some(MissingTexture(4))
    else None
  }

  /** A column that fails on a texture row names the first wall-loop row whose wrapped
      `texY` leaves the texture; the wall texture was found, and the rows before it read fine. */
  lemma RowErrorIsFirst(e: Engine, g: Grid, hit: Hit)
    requires Wall(g, hit.ray) && hit.perp > 0.0
    requires ColumnError(e, g, hit).Some? && ColumnError(e, g, hit).value.TextureRowOutOfRange?
    ensures var y, l := ColumnError(e, g, hit).value.row, Height(e, hit);
      TexNum(g, hit) < |e.library| &&
      DrawStart(e.height, l) <= y < DrawEnd(e.height, l) && !RowReadable(y, e.height, l) &&
      forall z :: DrawStart(e.height, l) <= z < y ==> RowReadable(z, e.height, l)
  {
  }

  /** Everything one column's drawing relies on. */
  predicate Drawable(e: Engine, g: Grid, pos: Vec2, dir: Vec2, hit: Hit) {
    Valid(e) && e.height % 2 == 0 && e.height > 0 &&
    pos.x >= 0.0 && pos.y >= 0.0 &&
    Hits(g, pos, dir, hit) &&
    TexNum(g, hit) < |e.library| && 4 < |e.library| && RowsReadable(e.height, Height(e, hit))
  }

  function Height(e: Engine, hit: Hit): nat
    requires hit.perp > 0.0
  {
    LineHeight(e.height, hit.perp)
  }

  /** `wallX` after `Math.Floor` is taken off. */
  function Fraction(pos: Vec2, dir: Vec2, hit: Hit): (f: real)
    requires UnitSteps(hit.stepping)
    requires (hit.ray.side == XSide ==> dir.x != 0.0) && (hit.ray.side == YSide ==> dir.y != 0.0)
    ensures 0.0 <= f < 1.0
  {
    WallFraction(RawWallX(pos, dir, hit.ray, hit.stepping))
  }

  /** The wall texel drawn on screen row `row`; the texture row is computed for
      `row - 1`, because the loop advances the buffer index before writing. */
  function WallPixel(e: Engine, g: Grid, pos: Vec2, dir: Vec2, hit: Hit, row: int): Pixel
    requires Drawable(e, g, pos, dir, hit)
    requires DrawStart(e.height, Height(e, hit)) < row <= DrawEnd(e.height, Height(e, hit))
  {
    var l := Height(e, hit);
    assert RowReadable(row - 1, e.height, l);
    var texX := TexColumn(Fraction(pos, dir, hit), hit.ray.side, dir);
    e.library[TexNum(g, hit)][ShadeLevel(hit.perp)][texX][TexRow(row - 1, e.height, l)]
  }

  /** A wall pixel is its texel at shade level `ShadeLevel(perp)`, read at a row inside the
      texture; from a darkening texture it is no brighter than the unshaded level-0 texel. */
  lemma WallPixelShaded(e: Engine, g: Grid, pos: Vec2, dir: Vec2, hit: Hit, row: int)
    requires Drawable(e, g, pos, dir, hit)
    requires DrawStart(e.height, Height(e, hit)) < row <= DrawEnd(e.height, Height(e, hit))
    ensures var t, l := e.library[TexNum(g, hit)], Height(e, hit);
      var texX := TexColumn(Fraction(pos, dir, hit), hit.ray.side, dir);
      l > 0 && 0 <= TexRow(row - 1, e.height, l) < TextureSize &&
      WallPixel(e, g, pos, dir, hit, row) == t[ShadeLevel(hit.perp)][texX][TexRow(row - 1, e.height, l)] &&
      (Darkening(t) ==> NoBrighter(WallPixel(e, g, pos, dir, hit, row), t[0][texX][TexRow(row - 1, e.height, l)]))
  {
    var t, l := e.library[TexNum(g, hit)], Height(e, hit);
    assert RowReadable(row - 1, e.height, l);
    if Darkening(t) {
      FartherIsDimmer(t, 0.0, hit.perp, TexColumn(Fraction(pos, dir, hit), hit.ray.side, dir), TexRow(row - 1, e.height, l));
    }
  }

  /** The floor point seen on screen row `y` below the wall. */
  function FloorSpot(e: Engine, g: Grid, pos: Vec2, dir: Vec2, hit: Hit, y: int): (p: Vec2)
    requires Drawable(e, g, pos, dir, hit)
    requires DrawEnd(e.height, Height(e, hit)) < y < e.height
    ensures p.x >= 0.0 && p.y >= 0.0
  {
    FloorRowNearerThanWall(e.height, hit.perp, y);
    var base := WallBase(hit.ray.side, dir, hit.ray.mapX, hit.ray.mapY, Fraction(pos, dir, hit));
    FloorPoint(pos, base, hit.perp, e.floorDist[y].value)
  }

  /** The texel of texture 4 drawn on floor row `y` and on ceiling row `height - y`. */
  function FloorPixel(e: Engine, g: Grid, pos: Vec2, dir: Vec2, hit: Hit, y: int): Pixel
    requires Drawable(e, g, pos, dir, hit)
    requires DrawEnd(e.height, Height(e, hit)) < y < e.height
  {
    FloorRowNearerThanWall(e.height, hit.perp, y);
    var dist := e.floorDist[y].value;
    var p := FloorSpot(e, g, pos, dir, hit, y);
    e.library[4][ShadeLevel(dist)][FloorTexel(p.y)][FloorTexel(p.x)]
  }

  /** A floor pixel is shaded for the row's floor distance, which is nearer than the wall,
      so it is never darker than the wall's shade level, and from a darkening texture 4 it
      is no brighter than the unshaded level-0 texel at the same spot. */
  lemma FloorPixelShaded(e: Engine, g: Grid, pos: Vec2, dir: Vec2, hit: Hit, y: int)
    requires Drawable(e, g, pos, dir, hit)
    requires DrawEnd(e.height, Height(e, hit)) < y < e.height
    ensures e.floorDist[y].Finite? && ShadeLevel(e.floorDist[y].value) <= ShadeLevel(hit.perp)
    ensures var spot := FloorSpot(e, g, pos, dir, hit, y);
      var t := e.library[4];
      FloorPixel(e, g, pos, dir, hit, y) == t[ShadeLevel(e.floorDist[y].value)][FloorTexel(spot.y)][FloorTexel(spot.x)] &&
      (Darkening(t) ==> NoBrighter(FloorPixel(e, g, pos, dir, hit, y), t[0][FloorTexel(spot.y)][FloorTexel(spot.x)]))
  {
    FloorRowNearerThanWall(e.height, hit.perp, y);
    var dist := e.floorDist[y].value;
    ShadeLevelMonotone(dist, hit.perp);
    var spot := FloorSpot(e, g, pos, dir, hit, y);
    if Darkening(e.library[4]) {
      FartherIsDimmer(e.library[4], 0.0, dist, FloorTexel(spot.y), FloorTexel(spot.x));
    }
  }

  /** What the column's two loops leave on screen row `row`, given how far each
      loop has got: the last write wins, so floor and ceiling are consulted before
      the wall. `None` means the row was not written. */
  function Painted(e: Engine, g: Grid, pos: Vec2, dir: Vec2, hit: Hit, wallTo: int, floorTo: int, row: int): Option<Pixel>
    requires Drawable(e, g, pos, dir, hit)
    requires wallTo <= DrawEnd(e.height, Height(e, hit)) && floorTo <= e.height
  {
    var l := Height(e, hit);
    var start, end := DrawStart(e.height, l), DrawEnd(e.height, l);
    if end < row < floorTo then Some(FloorPixel(e, g, pos, dir, hit, row))
    else if 0 < row && end < e.height - row < floorTo then Some(FloorPixel(e, g, pos, dir, hit, e.height - row))
    else if start < row <= wallTo then Some(WallPixel(e, g, pos, dir, hit, row))
    else None
  }

  /** Row `row` once the whole column is drawn. */
  function RowPaint(e: Engine, g: Grid, pos: Vec2, dir: Vec2, hit: Hit, row: int): Option<Pixel>
    requires Drawable(e, g, pos, dir, hit)
  {
    Painted(e, g, pos, dir, hit, DrawEnd(e.height, Height(e, hit)), e.height, row)
  }

  function Overlay(p: Pixel, o: Option<Pixel>): Pixel {
    if o.Some? then o.value else p
  }

  /** The layout of a finished column on an even screen: row 0 and row `drawStart`
      are never written; the wall fills `(drawStart, drawEnd]` and nothing overwrites
      it; the floor fills the rows below, and the ceiling mirrors the floor about the
      middle of the screen. */
  lemma ColumnLayout(e: Engine, g: Grid, pos: Vec2, dir: Vec2, hit: Hit)
    requires Drawable(e, g, pos, dir, hit)
    ensures var l := Height(e, hit);
      var start, end := DrawStart(e.height, l), DrawEnd(e.height, l);
      (forall row :: 0 <= row < e.height ==>
        (RowPaint(e, g, pos, dir, hit, row).None? <==> row == 0 || row == start)) &&
      (forall row :: start < row <= end ==>
        RowPaint(e, g, pos, dir, hit, row) == Some(WallPixel(e, g, pos, dir, hit, row))) &&
      (forall y :: end < y < e.height ==>
        RowPaint(e, g, pos, dir, hit, y) == Some(FloorPixel(e, g, pos, dir, hit, y)) &&
        RowPaint(e, g, pos, dir, hit, e.height - y) == Some(FloorPixel(e, g, pos, dir, hit, y)))
  {
    var h, l := e.height, Height(e, hit);
    var start, end := DrawStart(h, l), DrawEnd(h, l);
    if l < h {
      WallSpan(h, l);
    }
    assert start + end >= h - 1;
  }

  /** Each shade level of `t` is nowhere brighter than the one before, as in a darkness cache. */
  predicate Darkening(t: Texture) {
    forall d :: 0 <= d < |t| - 1 ==> DimmerThanPrevious(t, d)
  }

  /** A farther wall is drawn no brighter: when the wall texture is a darkness cache,
      the same texel at a greater distance is dimmer or equal in every channel. */
  lemma FartherIsDimmer(t: Texture, near: real, far: real, x: int, y: int)
    requires WellFormed(t) && 0.0 <= near <= far
    requires Darkening(t)
    requires 0 <= x < TextureSize && 0 <= y < TextureSize
    ensures NoBrighter(t[ShadeLevel(far)][x][y], t[ShadeLevel(near)][x][y])
  {
    ShadeLevelMonotone(near, far);
    DimmerAcrossLevels(t, ShadeLevel(near), ShadeLevel(far), x, y);
  }

  /** The frame index of column `c`, row `row`: row-major, `width` cells per row. */
  function Cell(width: nat, height: nat, c: int, row: int): (i: int)
    requires 0 <= c < width && 0 <= row < height
    ensures 0 <= i < width * height
  {
    BufferIndexRange(width, height, c, row);
    c + width * row
  }

  /** `b` is `buf` with the rows `Painted` names written in column `x`, and nothing else changed. */
  predicate Drawn(e: Engine, g: Grid, pos: Vec2, dir: Vec2, hit: Hit, x: nat, buf: seq<Pixel>, b: seq<Pixel>, wallTo: int, floorTo: int)
    requires Drawable(e, g, pos, dir, hit) && |buf| == e.width * e.height
    requires wallTo <= DrawEnd(e.height, Height(e, hit)) && floorTo <= e.height
  {
    |b| == |buf| &&
    forall c, row :: 0 <= c < e.width && 0 <= row < e.height ==>
      b[Cell(e.width, e.height, c, row)] ==
        if c == x then Overlay(buf[Cell(e.width, e.height, c, row)], Painted(e, g, pos, dir, hit, wallTo, floorTo, row))
        else buf[Cell(e.width, e.height, c, row)]
  }

  /** One iteration of the wall loop paints exactly row `y + 1`. */
  lemma WallStep(e: Engine, g: Grid, pos: Vec2, dir: Vec2, hit: Hit, y: int, row: int)
    requires Drawable(e, g, pos, dir, hit)
    requires DrawStart(e.height, Height(e, hit)) <= y < DrawEnd(e.height, Height(e, hit))
    ensures Painted(e, g, pos, dir, hit, y + 1, 0, row) ==
      if row == y + 1 then Some(WallPixel(e, g, pos, dir, hit, y + 1)) else Painted(e, g, pos, dir, hit, y, 0, row)
  {
  }

  /** One iteration of the floor loop paints exactly floor row `y` and ceiling row `height - y`. */
  lemma FloorStep(e: Engine, g: Grid, pos: Vec2, dir: Vec2, hit: Hit, y: int, row: int)
    requires Drawable(e, g, pos, dir, hit)
    requires DrawEnd(e.height, Height(e, hit)) < y < e.height
    ensures Painted(e, g, pos, dir, hit, DrawEnd(e.height, Height(e, hit)), y + 1, row) ==
      if row == y || row == e.height - y then Some(FloorPixel(e, g, pos, dir, hit, y))
      else Painted(e, g, pos, dir, hit, DrawEnd(e.height, Height(e, hit)), y, row)
  {
  }

  /** Before the floor loop the column is as the wall loop left it. */
  lemma FloorBegins(e: Engine, g: Grid, pos: Vec2, dir: Vec2, hit: Hit, x: nat, buf: seq<Pixel>, b: seq<Pixel>)
    requires Drawable(e, g, pos, dir, hit) && |buf| == e.width * e.height
    requires Drawn(e, g, pos, dir, hit, x, buf, b, DrawEnd(e.height, Height(e, hit)), 0)
    ensures Drawn(e, g, pos, dir, hit, x, buf, b, DrawEnd(e.height, Height(e, hit)), DrawEnd(e.height, Height(e, hit)) + 1)
  {
    var end := DrawEnd(e.height, Height(e, hit));
    forall row | 0 <= row < e.height
      ensures Painted(e, g, pos, dir, hit, end, end + 1, row) == Painted(e, g, pos, dir, hit, end, 0, row)
    {
    }
  }

  /** Writing floor row `y` and ceiling row `height - y` advances the floor loop by one row. */
  lemma FloorWrite(e: Engine, g: Grid, pos: Vec2, dir: Vec2, hit: Hit, x: nat, buf: seq<Pixel>, b: seq<Pixel>, y: int)
    requires Drawable(e, g, pos, dir, hit) && x < e.width && |buf| == e.width * e.height
    requires DrawEnd(e.height, Height(e, hit)) < y < e.height
    requires Drawn(e, g, pos, dir, hit, x, buf, b, DrawEnd(e.height, Height(e, hit)), y)
    ensures var color := FloorPixel(e, g, pos, dir, hit, y);
      var w, h := e.width, e.height;
      Drawn(e, g, pos, dir, hit, x, buf, b[Cell(w, h, x, y) := color][Cell(w, h, x, h - y) := color],
        DrawEnd(e.height, Height(e, hit)), y + 1)
  {
    var w, h, end := e.width, e.height, DrawEnd(e.height, Height(e, hit));
    var color := FloorPixel(e, g, pos, dir, hit, y);
    var fi, ci := Cell(w, h, x, y), Cell(w, h, x, h - y);
    var b' := b[fi := color][ci := color];
    forall c, row | 0 <= c < w && 0 <= row < h
      ensures b'[Cell(w, h, c, row)] ==
        if c == x then Overlay(buf[Cell(w, h, c, row)], Painted(e, g, pos, dir, hit, end, y + 1, row))
        else buf[Cell(w, h, c, row)]
    {
      FloorStep(e, g, pos, dir, hit, y, row);
      if Cell(w, h, c, row) == fi {
        BufferIndexInjective(w, c, row, x, y);
      }
      if Cell(w, h, c, row) == ci {
        BufferIndexInjective(w, c, row, x, h - y);
      }
    }
  }

  /** One iteration of the wall loop writes its row's pixel at the row's cell and keeps
      the column drawn up to that row. */
  lemma WallWrite(e: Engine, g: Grid, pos: Vec2, dir: Vec2, hit: Hit, x: nat, buf: seq<Pixel>, b: seq<Pixel>, y: int)
    requires Drawable(e, g, pos, dir, hit) && x < e.width && |buf| == e.width * e.height
    requires DrawStart(e.height, Height(e, hit)) <= y < DrawEnd(e.height, Height(e, hit))
    requires Drawn(e, g, pos, dir, hit, x, buf, b, y, 0)
    ensures var w, h := e.width, e.height;
      Drawn(e, g, pos, dir, hit, x, buf, b[Cell(w, h, x, y + 1) := WallPixel(e, g, pos, dir, hit, y + 1)], y + 1, 0)
  {
    var w, h := e.width, e.height;
    var index := Cell(w, h, x, y + 1);
    var b' := b[index := WallPixel(e, g, pos, dir, hit, y + 1)];
    forall c, row | 0 <= c < w && 0 <= row < h
      ensures b'[Cell(w, h, c, row)] ==
        if c == x then Overlay(buf[Cell(w, h, c, row)], Painted(e, g, pos, dir, hit, y + 1, 0, row))
        else buf[Cell(w, h, c, row)]
    {
      WallStep(e, g, pos, dir, hit, y, row);
      if Cell(w, h, c, row) == index {
        BufferIndexInjective(w, c, row, x, y + 1);
      }
    }
  }

  /** The wall loop: `index` starts on row `drawStart` and is advanced before each write. */
  method DrawWall(e: Engine, g: Grid, pos: Vec2, dir: Vec2, hit: Hit, x: nat, buf: seq<Pixel>)
    returns (b: seq<Pixel>)
    requires Drawable(e, g, pos, dir, hit) && x < e.width && |buf| == e.width * e.height
    ensures Drawn(e, g, pos, dir, hit, x, buf, b, DrawEnd(e.height, Height(e, hit)), 0)
  {
    var w, h := e.width, e.height;
    var l := LineHeight(h, hit.perp);
    var start, end := DrawStart(h, l), DrawEnd(h, l);
    var texNum := TexNum(g, hit);
    var texX := TexColumn(Fraction(pos, dir, hit), hit.ray.side, dir);
    var shade := ShadeLevel(hit.perp);
    b := buf;
    var index := x + w * start;
    var y := start;
    while y < end
      invariant start <= y <= end
      invariant index == x + w * y
      invariant Drawn(e, g, pos, dir, hit, x, buf, b, y, 0)
    {
      index := index + w;
      assert index == Cell(w, h, x, y + 1);
      assert RowReadable(y, h, l);
      var texY := TexRow(y, h, l);
      var color := e.library[texNum][shade][texX][texY];
      var b' := b[index := color];
      WallWrite(e, g, pos, dir, hit, x, buf, b, y);
      b := b';
      y := y + 1;
    }
  }

  /** The constructor's tables address the floor cell and its mirrored ceiling cell. */
  lemma TableCells(e: Engine, x: int, y: int)
    requires Valid(e) && 0 <= x < e.width && 0 < y < e.height
    ensures e.floorIndex[x][y] == Cell(e.width, e.height, x, y)
    ensures e.ceilingIndex[x][y] == Cell(e.width, e.height, x, e.height - y)
  {
  }

  /** The floor loop: from the row after `drawEnd` down, texture 4 on the floor row and
      on its mirror row in the ceiling. */
  method DrawFloor(e: Engine, g: Grid, pos: Vec2, dir: Vec2, hit: Hit, x: nat, buf: seq<Pixel>, walled: seq<Pixel>)
    returns (b: seq<Pixel>)
    requires Drawable(e, g, pos, dir, hit) && x < e.width && |buf| == e.width * e.height
    requires Drawn(e, g, pos, dir, hit, x, buf, walled, DrawEnd(e.height, Height(e, hit)), 0)
    ensures Drawn(e, g, pos, dir, hit, x, buf, b, DrawEnd(e.height, Height(e, hit)), e.height)
  {
    var w, h := e.width, e.height;
    var end := DrawEnd(h, Height(e, hit));
    var y := FloorStart(h, end);
    assert y == end + 1;
    b := walled;
    FloorBegins(e, g, pos, dir, hit, x, buf, b);
    while y < h
      invariant end + 1 <= y <= h
      invariant Drawn(e, g, pos, dir, hit, x, buf, b, end, y)
    {
      var color := FloorPixel(e, g, pos, dir, hit, y);
      var fi, ci := e.floorIndex[x][y], e.ceilingIndex[x][y];
      TableCells(e, x, y);
      var b' := b[fi := color][ci := color];
      FloorWrite(e, g, pos, dir, hit, x, buf, b, y);
      b := b';
      y := y + 1;
    }
  }

  /** Draws one column into `buf`, failing as `ColumnError` says: on a missing wall
      texture, on a wall row whose texture row wrapped out of range, or on a missing
      texture 4. On success only column `x` changes, and there exactly
      the rows `RowPaint` names. */
  method DrawColumn(e: Engine, g: Grid, pos: Vec2, dir: Vec2, hit: Hit, x: nat, buf: seq<Pixel>)
    returns (r: Result<seq<Pixel>>)
    requires Valid(e) && e.height % 2 == 0 && e.height > 0 && x < e.width
    requires pos.x >= 0.0 && pos.y >= 0.0 && Hits(g, pos, dir, hit)
    requires |buf| == e.width * e.height
    ensures r.Err? <==> ColumnError(e, g, hit).Some?
    ensures r.Err? ==> r.error == ColumnError(e, g, hit).value
    ensures r.Ok? ==> (|r.value| == |buf| &&
      forall c, row :: 0 <= c < e.width && 0 <= row < e.height ==>
        r.value[Cell(e.width, e.height, c, row)] ==
          if c == x then Overlay(buf[Cell(e.width, e.height, c, row)], RowPaint(e, g, pos, dir, hit, row))
          else buf[Cell(e.width, e.height, c, row)])
  {
    var texNum := TexNum(g, hit);
    if texNum >= |e.library| {
      return Err(MissingTexture(texNum));
    }
    var l := Height(e, hit);
    var start, end := DrawStart(e.height, l), DrawEnd(e.height, l);
    if start < end {
      var bad := FirstBadRow(e.height, l, start, end);
      if bad.Some? {
        return Err(TextureRowOutOfRange(bad.value));
      }
    }
    if |e.library| <= 4 {
      // The wall loop runs first, then the lookup of texture 4 throws.
      return Err(MissingTexture(4));
    }
    var walled := DrawWall(e, g, pos, dir, hit, x, buf);
    var b := DrawFloor(e, g, pos, dir, hit, x, buf, walled);
    return Ok(b);
  }

  /** Why screen column `x` cannot be drawn, if it cannot: its ray, then its textures. */
  function ColumnFailure(e: Engine, cam: Camera, g: Grid, m: MathLib, x: int): (f: Option<RenderError>)
    requires e.width > 0
    ensures f.Some? && f.value.MissingTexture? ==> f.value.index >= |e.library|
  {
    var cast := CastRay(g, cam.position, RayDir(cam, x, e.width), m);
    if cast.Err? then Some(cast.error) else ColumnError(e, g, cast.value)
  }

  /** The pixel of the finished frame at column `x`, row `row`. */
  function FramePixel(e: Engine, cam: Camera, g: Grid, m: MathLib, x: int, row: int): Pixel
    requires Valid(e) && e.height % 2 == 0 && e.height > 0 && e.width > 0
    requires cam.position.x >= 0.0 && cam.position.y >= 0.0
    requires ColumnFailure(e, cam, g, m, x).None?
  {
    var dir := RayDir(cam, x, e.width);
    var hit := CastRay(g, cam.position, dir, m).value;
    Overlay(Background, RowPaint(e, g, cam.position, dir, hit, row))
  }

  /** One pass of `Render`'s column loop: cast column `x`'s ray and draw it over a
      cleared column, failing exactly when and as `ColumnFailure` says. */
  method DrawFrameColumn(e: Engine, cam: Camera, g: Grid, m: MathLib, x: nat, buf: seq<Pixel>)
    returns (r: Result<seq<Pixel>>)
    requires Valid(e) && e.height % 2 == 0 && e.height > 0 && x < e.width
    requires cam.position.x >= 0.0 && cam.position.y >= 0.0
    requires |buf| == e.width * e.height
    requires forall row :: 0 <= row < e.height ==> buf[Cell(e.width, e.height, x, row)] == Background
    ensures r.Err? <==> ColumnFailure(e, cam, g, m, x).Some?
    ensures r.Err? ==> ColumnFailure(e, cam, g, m, x) == Some(r.error)
    ensures r.Ok? ==> (|r.value| == |buf| &&
      forall c, row :: 0 <= c < e.width && 0 <= row < e.height ==>
        r.value[Cell(e.width, e.height, c, row)] ==
          if c == x then FramePixel(e, cam, g, m, x, row) else buf[Cell(e.width, e.height, c, row)])
  {
    var dir := RayDir(cam, x, e.width);
    var cast := CastRay(g, cam.position, dir, m);
    if cast.Err? {
      return Err(cast.error);
    }
    r := DrawColumn(e, g, cam.position, dir, cast.value, x, buf);
  }

  /** `m_Data[i] = 0` for every index: the frame cleared to transparent black. */
  method Clear(prev: seq<Pixel>) returns (buf: seq<Pixel>)
    ensures |buf| == |prev| && forall j :: 0 <= j < |buf| ==> buf[j] == Background
  {
    buf := prev;
    var i := 0;
    while i < |prev|
      invariant 0 <= i <= |prev| && |buf| == |prev|
      invariant forall j :: 0 <= j < i ==> buf[j] == Background
    {
      buf := buf[i := Background];
      i := i + 1;
    }
  }

  /** `Render`: clear the frame, then draw the columns left to right. The first
      column that cannot be drawn decides the error; otherwise every pixel of the
      frame is what its column's ray and the texture library determine, whatever
      the previous frame held. */
  method Render(e: Engine, cam: Camera, g: Grid, m: MathLib, prev: seq<Pixel>) returns (r: Result<seq<Pixel>>)
    requires Valid(e) && e.height % 2 == 0 && e.height > 0
    requires cam.position.x >= 0.0 && cam.position.y >= 0.0
    requires |prev| == e.width * e.height
    ensures r.Ok? <==> forall x :: 0 <= x < e.width ==> ColumnFailure(e, cam, g, m, x).None?
    ensures r.Err? ==> exists x :: (0 <= x < e.width && ColumnFailure(e, cam, g, m, x) == Some(r.error) &&
      forall x' :: 0 <= x' < x ==> ColumnFailure(e, cam, g, m, x').None?)
    ensures r.Ok? ==> (|r.value| == e.width * e.height &&
      forall x, row :: 0 <= x < e.width && 0 <= row < e.height ==>
        r.value[Cell(e.width, e.height, x, row)] == FramePixel(e, cam, g, m, x, row))
  {
    var buf := Clear(prev);
    r := DrawColumns(e, cam, g, m, buf);
  }

  /** The column loop of `Render`, over a cleared frame. */
  method DrawColumns(e: Engine, cam: Camera, g: Grid, m: MathLib, cleared: seq<Pixel>) returns (r: Result<seq<Pixel>>)
    requires Valid(e) && e.height % 2 == 0 && e.height > 0
    requires cam.position.x >= 0.0 && cam.position.y >= 0.0
    requires |cleared| == e.width * e.height
    requires forall j :: 0 <= j < |cleared| ==> cleared[j] == Background
    ensures r.Ok? <==> forall x :: 0 <= x < e.width ==> ColumnFailure(e, cam, g, m, x).None?
    ensures r.Err? ==> exists x :: (0 <= x < e.width && ColumnFailure(e, cam, g, m, x) == Some(r.error) &&
      forall x' :: 0 <= x' < x ==> ColumnFailure(e, cam, g, m, x').None?)
    ensures r.Ok? ==> (|r.value| == e.width * e.height &&
      forall x, row :: 0 <= x < e.width && 0 <= row < e.height ==>
        r.value[Cell(e.width, e.height, x, row)] == FramePixel(e, cam, g, m, x, row))
  {
    var w, h := e.width, e.height;
    var buf := cleared;
    var x := 0;
    while x < w
      invariant 0 <= x <= w && |buf| == w * h
      invariant FrameUpTo(e, cam, g, m, buf, x)
    {
      var drawn := DrawFrameColumn(e, cam, g, m, x, buf);
      if drawn.Err? {
        return Err(drawn.error);
      }
      FrameGrows(e, cam, g, m, x, buf, drawn.value);
      buf := drawn.value;
      x := x + 1;
    }
    return Ok(buf);
  }

  /** The columns left of `x` draw without failure and hold their finished pixels; the
      other columns are still clear. */
  predicate FrameUpTo(e: Engine, cam: Camera, g: Grid, m: MathLib, buf: seq<Pixel>, x: int)
    requires Valid(e) && e.height % 2 == 0 && e.height > 0
    requires cam.position.x >= 0.0 && cam.position.y >= 0.0
    requires |buf| == e.width * e.height && x <= e.width
  {
    (forall x' :: 0 <= x' < x ==> ColumnFailure(e, cam, g, m, x').None?) &&
    forall c, row :: 0 <= c < e.width && 0 <= row < e.height ==>
      buf[Cell(e.width, e.height, c, row)] == if c < x then FramePixel(e, cam, g, m, c, row) else Background
  }

  /** Drawing column `x` over a frame whose columns left of `x` are finished and whose
      other columns are clear leaves the columns up to `x` finished and the rest clear. */
  lemma FrameGrows(e: Engine, cam: Camera, g: Grid, m: MathLib, x: nat, buf: seq<Pixel>, next: seq<Pixel>)
    requires Valid(e) && e.height % 2 == 0 && e.height > 0 && x < e.width
    requires cam.position.x >= 0.0 && cam.position.y >= 0.0
    requires |buf| == e.width * e.height && |next| == |buf|
    requires forall x' :: 0 <= x' <= x ==> ColumnFailure(e, cam, g, m, x').None?
    requires forall c, row :: 0 <= c < e.width && 0 <= row < e.height ==>
      buf[Cell(e.width, e.height, c, row)] == if c < x then FramePixel(e, cam, g, m, c, row) else Background
    requires forall c, row :: 0 <= c < e.width && 0 <= row < e.height ==>
      next[Cell(e.width, e.height, c, row)] ==
        if c == x then FramePixel(e, cam, g, m, x, row) else buf[Cell(e.width, e.height, c, row)]
    ensures forall c, row :: 0 <= c < e.width && 0 <= row < e.height ==>
      next[Cell(e.width, e.height, c, row)] == if c < x + 1 then FramePixel(e, cam, g, m, c, row) else Background
  {
  }

  /** Row 0 and row `drawStart` of every column stay the cleared value 0. */
  lemma UnpaintedRows(e: Engine, cam: Camera, g: Grid, m: MathLib, x: int)
    requires Valid(e) && e.height % 2 == 0 && e.height > 0 && e.width > 0
    requires cam.position.x >= 0.0 && cam.position.y >= 0.0
    requires ColumnFailure(e, cam, g, m, x).None?
    ensures var hit := CastRay(g, cam.position, RayDir(cam, x, e.width), m).value;
      FramePixel(e, cam, g, m, x, 0) == Background &&
      FramePixel(e, cam, g, m, x, DrawStart(e.height, Height(e, hit))) == Background
  {
    var dir := RayDir(cam, x, e.width);
    var hit := CastRay(g, cam.position, dir, m).value;
    ColumnLayout(e, g, cam.position, dir, hit);
  }

  /** A library of more than four textures, whose wall textures cover every map
      value, never fails a column for a missing texture. */
  lemma EnoughTextures(e: Engine, cam: Camera, g: Grid, m: MathLib, x: int)
    requires e.width > 0 && |e.library| > 4
    requires forall i, j :: 0 <= i < |g| && 0 <= j < |g[i]| ==> g[i][j] <= |e.library|
    ensures ColumnFailure(e, cam, g, m, x).Some? ==> !ColumnFailure(e, cam, g, m, x).value.MissingTexture?
  {
  }
}
