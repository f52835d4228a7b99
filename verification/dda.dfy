/** The grid traversal at the heart of `Render`: a ray is walked from cell to cell
    of the map, always across whichever cell boundary is nearer, until a cell
    holding a wall is reached. */
module Dda {
  import opened Numerics
  import opened Geometry

  /** A distance along the ray. A ray parallel to an axis never crosses that
      axis's boundaries; the source gets this from IEEE infinity. */
  datatype Dist = Finite(value: real) | Infinite

  /** IEEE `<` where `Infinite` is +infinity. */
  predicate Less(a: Dist, b: Dist) {
    match a
    case Infinite => false
    case Finite(x) => b.Infinite? || x < b.value
  }

  function Plus(a: Dist, b: Dist): Dist {
    if a.Infinite? || b.Infinite? then Infinite else Finite(a.value + b.value)
  }

  /** A non-negative factor times a distance. */
  function Times(f: real, a: Dist): Dist {
    if a.Infinite? then Infinite else Finite(f * a.value)
  }

  /** Which kind of cell boundary was crossed last: `side == 0` (an x boundary) or `side == 1`. */
  datatype Side = XSide | YSide

  /** The traversal state: the current cell, the distances to the next x and y
      boundaries, and the side crossed last. */
  datatype Ray = Ray(mapX: int, mapY: int, sideDistX: Dist, sideDistY: Dist, side: Side)

  /** What stays fixed during the walk: the boundary-to-boundary distances and the step signs. */
  datatype Stepping = Stepping(deltaX: Dist, deltaY: Dist, stepX: int, stepY: int)

  predicate UnitSteps(s: Stepping) {
    (s.stepX == 1 || s.stepX == -1) && (s.stepY == 1 || s.stepY == -1)
  }

  /** One loop iteration: step along x when its boundary is strictly nearer, along y otherwise. */
  function Step(r: Ray, s: Stepping): (n: Ray)
    ensures Less(r.sideDistX, r.sideDistY) ==>
      n.side == XSide && n.mapX == r.mapX + s.stepX && n.mapY == r.mapY && n.sideDistY == r.sideDistY
    ensures !Less(r.sideDistX, r.sideDistY) ==>
      n.side == YSide && n.mapY == r.mapY + s.stepY && n.mapX == r.mapX && n.sideDistX == r.sideDistX
    ensures UnitSteps(s) ==> Abs(n.mapX - r.mapX) + Abs(n.mapY - r.mapY) == 1
  {
    if Less(r.sideDistX, r.sideDistY) then
      Ray(r.mapX + s.stepX, r.mapY, Plus(r.sideDistX, s.deltaX), r.sideDistY, XSide)
    else
      Ray(r.mapX, r.mapY + s.stepY, r.sideDistX, Plus(r.sideDistY, s.deltaY), YSide)
  }

  /** The state after `k` iterations. */
  function Walk(r: Ray, s: Stepping, k: nat): Ray
    decreases k
  {
    if k == 0 then r else Walk(Step(r, s), s, k - 1)
  }

  /** `WorldMap[x, y]` is `grid[x][y]`. */
  type Grid = seq<seq<int>>

  predicate InGrid(g: Grid, x: int, y: int) {
    0 <= x < |g| && 0 <= y < |g[x]|
  }

  /** A cell the ray passes through: inside the map and not a wall (`> 0` is a wall). */
  predicate Open(g: Grid, r: Ray) {
    InGrid(g, r.mapX, r.mapY) && g[r.mapX][r.mapY] <= 0
  }

  /** A cell the ray stops at. */
  predicate Wall(g: Grid, r: Ray) {
    InGrid(g, r.mapX, r.mapY) && g[r.mapX][r.mapY] > 0
  }

  /** How a traversal ended: at a wall, by reading outside the map (an exception
      in the source), or with no wall within the step budget. */
  datatype Outcome = WallHit | LeftMap | OutOfBudget

  datatype Traversal = Traversal(ray: Ray, steps: nat, outcome: Outcome)

  /** The `while (hit == 0)` loop, at least one and at most `budget + 1` iterations. */
  function Traverse(g: Grid, r: Ray, s: Stepping, budget: nat): (t: Traversal)
    ensures 1 <= t.steps <= budget + 1
    ensures t.ray == Walk(r, s, t.steps)
    ensures forall k :: 1 <= k < t.steps ==> Open(g, Walk(r, s, k))
    ensures t.outcome == WallHit <==> Wall(g, t.ray)
    ensures t.outcome == LeftMap <==> !InGrid(g, t.ray.mapX, t.ray.mapY)
    ensures t.outcome == OutOfBudget ==> t.steps == budget + 1 && Open(g, t.ray)
    decreases budget
  {
    var n := Step(r, s);
    if !InGrid(g, n.mapX, n.mapY) then Traversal(n, 1, LeftMap)
    else if g[n.mapX][n.mapY] > 0 then Traversal(n, 1, WallHit)
    else if budget == 0 then Traversal(n, 1, OutOfBudget)
    else
      var t := Traverse(g, n, s, budget - 1);
      Traversal(t.ray, t.steps + 1, t.outcome)
  }

  /** Conversely, when the walk reaches a wall within the budget without leaving the
      map first, the traversal reports a wall, and no later than that one. */
  lemma TraverseFindsFirstWall(g: Grid, r: Ray, s: Stepping, budget: nat, k: nat)
    requires 1 <= k <= budget + 1 && Wall(g, Walk(r, s, k))
    requires forall j :: 1 <= j < k ==> InGrid(g, Walk(r, s, j).mapX, Walk(r, s, j).mapY)
    ensures Traverse(g, r, s, budget).outcome == WallHit
    ensures Traverse(g, r, s, budget).steps <= k
  {
    var t := Traverse(g, r, s, budget);
  }

  /** A boundary at infinite distance is never crossed: the walk keeps that coordinate
      and every step is recorded on the other side. */
  lemma {:induction false} InfiniteAxisNeverCrossed(r: Ray, s: Stepping, k: nat)
    requires r.sideDistX.Infinite?
    ensures Walk(r, s, k).mapX == r.mapX && Walk(r, s, k).sideDistX.Infinite?
    ensures k >= 1 ==> Walk(r, s, k).side == YSide
    decreases k
  {
    if k > 0 {
      InfiniteAxisNeverCrossed(Step(r, s), s, k - 1);
    }
  }

  /** Under the mirrored condition a ray never crosses a y boundary: with `sideDistY`
      infinite and x finite, every step is taken along x. */
  lemma {:induction false} InfiniteYAxisNeverCrossed(r: Ray, s: Stepping, k: nat)
    requires r.sideDistY.Infinite? && r.sideDistX.Finite? && s.deltaX.Finite?
    ensures Walk(r, s, k).mapY == r.mapY && Walk(r, s, k).sideDistY.Infinite?
    ensures Walk(r, s, k).sideDistX.Finite?
    ensures k >= 1 ==> Walk(r, s, k).side == XSide
    decreases k
  {
    if k > 0 {
      InfiniteYAxisNeverCrossed(Step(r, s), s, k - 1);
    }
  }

  /** The length of the longest column of the map. */
  function MaxRow(g: Grid): (m: nat)
    ensures forall x :: 0 <= x < |g| ==> |g[x]| <= m
  {
    if |g| == 0 then 0
    else
      var t := MaxRow(g[1..]);
      assert forall x :: 1 <= x < |g| ==> g[x] == g[1..][x - 1];
      if |g[0]| > t then |g[0]| else t
  }

  /** How many more steps the walk can take before it leaves the map's bounding box:
      it moves monotonically along each axis, one cell per step. */
  function Exits(g: Grid, r: Ray, s: Stepping): int {
    (if s.stepX == 1 then |g| - r.mapX else r.mapX + 1) +
    (if s.stepY == 1 then MaxRow(g) - r.mapY else r.mapY + 1)
  }

  /** A step budget large enough that the traversal always ends at a wall or outside the map. */
  function Budget(g: Grid, r: Ray, s: Stepping): (b: nat)
    ensures Exits(g, r, s) <= b + 2
  {
    if Exits(g, r, s) >= 2 then Exits(g, r, s) - 2 else 0
  }

  /** The source's unbounded loop terminates: given `Budget` steps, the traversal
      never runs out of budget. */
  lemma {:induction false} TraverseEnds(g: Grid, r: Ray, s: Stepping, budget: nat)
    requires UnitSteps(s) && Exits(g, r, s) <= budget + 2
    ensures Traverse(g, r, s, budget).outcome != OutOfBudget
    decreases budget
  {
    var n := Step(r, s);
    assert Exits(g, n, s) == Exits(g, r, s) - 1;
    if InGrid(g, n.mapX, n.mapY) && g[n.mapX][n.mapY] <= 0 && budget > 0 {
      TraverseEnds(g, n, s, budget - 1);
    }
  }

  /** The traversal's starting state for a ray from `pos` with direction `dir`:
      the cell holding `pos`, a step of -1 on an axis where the direction is
      negative and +1 otherwise, and the distance to the first boundary on each axis. */
  function Start(pos: Vec2, dir: Vec2, m: MathLib): (rs: (Ray, Stepping))
    ensures UnitSteps(rs.1)
    ensures rs.0.mapX == Trunc(pos.x) && rs.0.mapY == Trunc(pos.y)
    ensures rs.1.stepX == (if dir.x < 0.0 then -1 else 1)
    ensures rs.1.stepY == (if dir.y < 0.0 then -1 else 1)
    ensures dir.x == 0.0 <==> rs.1.deltaX.Infinite?
    ensures dir.y == 0.0 <==> rs.1.deltaY.Infinite?
    ensures rs.0.sideDistX.Infinite? <==> rs.1.deltaX.Infinite?
    ensures rs.0.sideDistY.Infinite? <==> rs.1.deltaY.Infinite?
  {
    var mapX, mapY := Trunc(pos.x), Trunc(pos.y);
    var deltaX := if dir.x == 0.0 then Infinite else Finite(m.sqrt(1.0 + (dir.y * dir.y) / (dir.x * dir.x)));
    var deltaY := if dir.y == 0.0 then Infinite else Finite(m.sqrt(1.0 + (dir.x * dir.x) / (dir.y * dir.y)));
    var stepX := if dir.x < 0.0 then -1 else 1;
    var stepY := if dir.y < 0.0 then -1 else 1;
    var sideX := if dir.x < 0.0 then Times(pos.x - mapX as real, deltaX)
                 else Times(mapX as real + 1.0 - pos.x, deltaX);
    var sideY := if dir.y < 0.0 then Times(pos.y - mapY as real, deltaY)
                 else Times(mapY as real + 1.0 - pos.y, deltaY);
    (Ray(mapX, mapY, sideX, sideY, XSide), Stepping(deltaX, deltaY, stepX, stepY))
  }

  /** After at least one step from `Start`, the boundary crossed last is one the
      direction actually moves across, so the perpendicular distance never divides by zero. */
  lemma CrossedAxisMoves(pos: Vec2, dir: Vec2, m: MathLib, k: nat)
    requires dir != Vec2(0.0, 0.0) && k >= 1
    ensures var w := Walk(Start(pos, dir, m).0, Start(pos, dir, m).1, k);
      (w.side == XSide ==> dir.x != 0.0) && (w.side == YSide ==> dir.y != 0.0)
  {
    var st := Start(pos, dir, m);
    if dir.x == 0.0 {
      InfiniteAxisNeverCrossed(st.0, st.1, k);
    } else if dir.y == 0.0 {
      InfiniteYAxisNeverCrossed(st.0, st.1, k);
    }
  }
}
