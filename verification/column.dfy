/** The integer geometry of one screen column in `RayCaster.Render`: the wall
    span, the texture coordinates, the shading level, and the pixel-buffer
    indices. All integer divisions are C# divisions (`Quot`), all `(int)` casts
    are truncations (`Trunc`). */
module Column {
  import opened Numerics
  import opened Geometry
  import opened Dda

  /** `TextureWidth` and `TextureHeight`. */
  const TextureSize: int := 64
  /** The darkest of the 48 shading levels. */
  const DarkestLevel: int := 47

  /** `(1 - step) / 2`: how far the boundary crossed lies beyond the cell's low edge. */
  function StepOffset(step: int): (o: int)
    requires step == 1 || step == -1
    ensures step == -1 ==> o == 1
    ensures step == 1 ==> o == 0
  {
    Quot(1 - step, 2)
  }

  /** The ray parameter at which the ray meets the cell boundary it last crossed. */
  function HitParameter(pos: Vec2, dir: Vec2, r: Ray, s: Stepping): (t: real)
    requires UnitSteps(s)
    requires r.side == XSide ==> dir.x != 0.0
    requires r.side == YSide ==> dir.y != 0.0
    ensures r.side == XSide ==> pos.x + t * dir.x == (r.mapX + StepOffset(s.stepX)) as real
    ensures r.side == YSide ==> pos.y + t * dir.y == (r.mapY + StepOffset(s.stepY)) as real
  {
    if r.side == XSide then (r.mapX as real - pos.x + StepOffset(s.stepX) as real) / dir.x
    else (r.mapY as real - pos.y + StepOffset(s.stepY) as real) / dir.y
  }

  /** `perpWallDist`: the distance to the wall measured along the camera direction
      rather than along the ray, which removes the fisheye distortion. */
  function PerpWallDist(pos: Vec2, dir: Vec2, r: Ray, s: Stepping): (d: real)
    requires UnitSteps(s)
    requires r.side == XSide ==> dir.x != 0.0
    requires r.side == YSide ==> dir.y != 0.0
    ensures d >= 0.0
  {
    RealAbs(HitParameter(pos, dir, r, s))
  }

  /** The unfolded `wallX`: the other coordinate of the point where the ray meets the wall,
      so that point, on the face line, lies on the ray's line through `pos`. */
  function RawWallX(pos: Vec2, dir: Vec2, r: Ray, s: Stepping): (w: real)
    requires UnitSteps(s)
    requires r.side == XSide ==> dir.x != 0.0
    requires r.side == YSide ==> dir.y != 0.0
    ensures r.side == XSide ==>
      (w - pos.y) * dir.x == ((r.mapX + StepOffset(s.stepX)) as real - pos.x) * dir.y
    ensures r.side == YSide ==>
      (w - pos.x) * dir.y == ((r.mapY + StepOffset(s.stepY)) as real - pos.y) * dir.x
  {
    if r.side == YSide then pos.x + HitParameter(pos, dir, r, s) * dir.x
    else pos.y + HitParameter(pos, dir, r, s) * dir.y
  }

  /** The hit point `pos + t * dir` lies on the boundary line of the hit cell's face, its
      other coordinate is the unfolded `wallX`, and the perpendicular distance is `|t|`. */
  lemma HitPointOnWallFace(pos: Vec2, dir: Vec2, r: Ray, s: Stepping)
    requires UnitSteps(s)
    requires r.side == XSide ==> dir.x != 0.0
    requires r.side == YSide ==> dir.y != 0.0
    ensures var t := HitParameter(pos, dir, r, s);
      var p := Add(pos, Scale(dir, t));
      (r.side == XSide ==> p.x == (r.mapX + StepOffset(s.stepX)) as real && p.y == RawWallX(pos, dir, r, s)) &&
      (r.side == YSide ==> p.y == (r.mapY + StepOffset(s.stepY)) as real && p.x == RawWallX(pos, dir, r, s)) &&
      PerpWallDist(pos, dir, r, s) == RealAbs(t)
  {
    var t := HitParameter(pos, dir, r, s);
    var p := Add(pos, Scale(dir, t));
    assert p == Vec2(pos.x + t * dir.x, pos.y + t * dir.y);
    if r.side == XSide {
      assert p.y == pos.y + t * dir.y == RawWallX(pos, dir, r, s);
    } else {
      assert p.x == pos.x + t * dir.x == RawWallX(pos, dir, r, s);
    }
  }

  /** `wallX -= Math.Floor(wallX)`: where along the face, in `[0, 1)`, the ray hit. */
  function WallFraction(raw: real): (f: real)
    ensures 0.0 <= f < 1.0
    ensures (raw - f).Floor as real == raw - f
  {
    raw - raw.Floor as real
  }

  /** `lineHeight`: the screen height divided by the distance, rounded down. */
  function LineHeight(h: nat, perp: real): (l: nat)
    requires perp > 0.0
    ensures l as real <= h as real / perp < (l + 1) as real
  {
    Abs(Trunc(h as real / perp))
  }

  /** `drawStart`: `-lineHeight / 2 + h / 2` clamped at 0. With C# division this is
      `h / 2 - lineHeight / 2` with both halves rounded down. */
  function DrawStart(h: nat, l: nat): (s: int)
    ensures 0 <= s <= h / 2
    ensures s == if l / 2 >= h / 2 then 0 else h / 2 - l / 2
  {
    NegatedHalf(l);
    var s := Quot(-(l as int), 2) + Quot(h, 2);
    if s < 0 then 0 else s
  }

  /** `drawEnd`: `lineHeight / 2 + h / 2` clamped at `h - 1`. It never lies above the
      middle row, so the source's `drawEnd < 0` repair can only fire for an empty screen. */
  function DrawEnd(h: nat, l: nat): (e: int)
    ensures e == Min(h - 1, h / 2 + l / 2)
    ensures h >= 1 ==> h / 2 <= e <= h - 1
    ensures e < 0 <==> h == 0
    ensures l <= 1 ==> e <= DrawStart(h, l)
  {
    var e := Quot(l, 2) + Quot(h, 2);
    if e >= h then h - 1 else e
  }

  /** On an even screen a wall of projected height `l` shorter than the screen is
      drawn over `l` rows, rounded down to even, centred on the middle row. */
  lemma WallSpan(h: nat, l: nat)
    requires h % 2 == 0 && l < h
    ensures DrawEnd(h, l) - DrawStart(h, l) == l - l % 2
    ensures DrawStart(h, l) + DrawEnd(h, l) == h
  {
  }

  /** The first row of the floor loop, after the source's `drawEnd < 0` repair: the row
      just below the wall, or, for a repaired end, a row at which the loop is already done. */
  function FloorStart(h: nat, drawEnd: int): (s: int)
    ensures drawEnd >= 0 ==> s == drawEnd + 1
    ensures drawEnd < 0 ==> s >= h
  {
    (if drawEnd < 0 then h else drawEnd) + 1
  }

  /** The fixed-point numerator `y * 256 - h * 128 + lineHeight * 128`, without wrap-around. */
  function RowNumerator(y: int, h: int, l: int): int {
    y * 256 - h * 128 + l * 128
  }

  /** `texY` for screen row `y`: `((y * 256 - h * 128 + l * 128) * 64 / l) / 256` in C#'s
      unchecked `int` arithmetic, every product and sum wrapping around in 32 bits. */
  function TexRow(y: int, h: int, l: int): int
    requires l != 0
  {
    var d := Wrap32(Wrap32(Wrap32(y * 256) - Wrap32(h * 128)) + Wrap32(l * 128));
    Quot(Quot(Wrap32(d * TextureSize), l), 256)
  }

  /** The wraps of the inner steps of `texY` cancel: the row is that of the full product
      wrapped once, and that of the exact product whenever it fits in an `int`. */
  lemma TexRowWrapsOnce(y: int, h: int, l: int)
    requires l != 0
    ensures TexRow(y, h, l) == Quot(Quot(Wrap32(RowNumerator(y, h, l) * TextureSize), l), 256)
    ensures IsInt32(RowNumerator(y, h, l) * TextureSize) ==>
      TexRow(y, h, l) == Quot(Quot(RowNumerator(y, h, l) * TextureSize, l), 256)
  {
    var a, b, c := Wrap32(y * 256), Wrap32(h * 128), Wrap32(l * 128);
    var s := Wrap32(a - b);
    var d := Wrap32(s + c);
    WrapsCancel(y, h, l, a, b, c, s, d);
  }

  /** Wrapping each step of the numerator and then the product wraps the exact product. */
  lemma WrapsCancel(y: int, h: int, l: int, a: int, b: int, c: int, s: int, d: int)
    requires a == Wrap32(y * 256) && b == Wrap32(h * 128) && c == Wrap32(l * 128)
    requires s == Wrap32(a - b) && d == Wrap32(s + c)
    ensures Wrap32(d * TextureSize) == Wrap32(RowNumerator(y, h, l) * TextureSize)
  {
    var n := RowNumerator(y, h, l);
    var k := WrapCount(y * 256) - WrapCount(h * 128) + WrapCount(l * 128) + WrapCount(a - b);
    assert s + c == n + Word * -k;
    WrapShift(n, -k);
    var kn := WrapCount(n);
    assert d * TextureSize == n * TextureSize + Word * -(kn * TextureSize);
    WrapShift(n * TextureSize, -(kn * TextureSize));
  }

  /** For an even screen height the wall loop is empty unless `lineHeight > 0`, so it never
      divides by zero; each of its rows reads a texture row in `[0, 64)` whenever the 32-bit
      product does not wrap, and it never wraps for slices shorter than 2^17 rows. */
  lemma TexRowInRange(y: int, h: nat, l: nat)
    requires h % 2 == 0
    requires DrawStart(h, l) <= y < DrawEnd(h, l)
    ensures l > 0
    ensures l < 0x2_0000 ==> IsInt32(RowNumerator(y, h, l) * TextureSize)
    ensures IsInt32(RowNumerator(y, h, l) * TextureSize) ==> 0 <= TexRow(y, h, l) < TextureSize
  {
    var h2, l2 := h / 2, l / 2;
    var d := RowNumerator(y, h, l);
    assert y >= h2 - l2;
    assert y <= h2 + l2 - 1;
    assert 0 <= d < 256 * l;
    if l < 0x2_0000 {
      assert d * 64 < 256 * 64 * 0x2_0000;
    }
    TexRowWrapsOnce(y, h, l);
    assert Quot(d * TextureSize, l) == (d * 64) / l;
    QuotientBelow(d * 64, l, 256 * 64);
  }

  /** Wall-loop row `y` of a slice of height `l` reads a texture row in `[0, 64)`. */
  predicate RowReadable(y: int, h: nat, l: nat) {
    l > 0 && 0 <= TexRow(y, h, l) < TextureSize
  }

  /** Every row of the wall loop for a slice of height `l` is readable. */
  predicate RowsReadable(h: nat, l: nat) {
    forall y :: DrawStart(h, l) <= y < DrawEnd(h, l) ==> RowReadable(y, h, l)
  }

  /** On an even screen every slice shorter than 2^17 rows is readable. */
  lemma ShortSlicesReadable(h: nat, l: nat)
    requires h % 2 == 0 && l < 0x2_0000
    ensures RowsReadable(h, l)
  {
    forall y | DrawStart(h, l) <= y < DrawEnd(h, l)
      ensures RowReadable(y, h, l)
    {
      TexRowInRange(y, h, l);
    }
  }

  /** A wall 0.001 units away on a 480-row screen projects to a 480000-row slice; its first
      row's product `61378560 * 64` passes 2^31, wraps negative, and reads texture row -2. */
  lemma NearWallRowWraps()
    ensures LineHeight(480, 0.001) == 480000
    ensures DrawStart(480, 480000) == 0 < DrawEnd(480, 480000)
    ensures TexRow(0, 480, 480000) == -2
    ensures !RowsReadable(480, 480000)
  {
    TexRowWrapsOnce(0, 480, 480000);
    assert Wrap32(RowNumerator(0, 480, 480000) * TextureSize) == -366739456;
    assert !RowReadable(0, 480, 480000);
  }

  lemma QuotientBelow(a: int, l: int, b: int)
    requires l > 0 && 0 <= a < b * l
    ensures 0 <= a / l < b
  {
    var q := a / l;
    assert q * l <= a;
    assert (b - q) * l == b * l - q * l > 0;
    PositiveFactor(l, b - q);
  }

  lemma PositiveFactor(w: int, e: int)
    requires w > 0 && w * e > 0
    ensures e > 0
  {
  }

  lemma RealPositiveFactor(w: real, e: real)
    requires w > 0.0 && w * e > 0.0
    ensures e > 0.0
  {
  }

  /** For an odd screen height the fixed-point row can come out negative: with height 3
      and `lineHeight` 2 the first wall row reads texture row -16. */
  lemma OddHeightReadsNegativeRow()
    ensures DrawStart(3, 2) == 0 && DrawStart(3, 2) < DrawEnd(3, 2)
    ensures TexRow(0, 3, 2) == -16
  {
  }

  /** The texture column is mirrored when the ray runs towards +x into an x face or
      towards -y into a y face. */
  predicate Mirrored(side: Side, dir: Vec2) {
    (side == XSide && dir.x > 0.0) || (side == YSide && dir.y < 0.0)
  }

  /** `TextureWidth - texX - 1`. */
  function Mirror(t: int): int {
    TextureSize - t - 1
  }

  /** `texX`: the texture column of the hit, mirrored per `Mirrored`. */
  function TexColumn(frac: real, side: Side, dir: Vec2): (t: int)
    requires 0.0 <= frac < 1.0
    ensures 0 <= t < TextureSize
    ensures t == if Mirrored(side, dir) then Mirror(Trunc(frac * 64.0)) else Trunc(frac * 64.0)
  {
    var t := Trunc(frac * TextureSize as real);
    var t1 := if side == XSide && dir.x > 0.0 then Mirror(t) else t;
    if side == YSide && dir.y < 0.0 then Mirror(t1) else t1
  }

  /** Mirroring is its own inverse and keeps a column a texture column. */
  lemma MirrorInvolution(t: int)
    requires 0 <= t < TextureSize
    ensures 0 <= Mirror(t) < TextureSize && Mirror(Mirror(t)) == t
  {
  }

  /** Along one face, a hit further in the face's coordinate reads a later column, or
      an earlier one when the face is mirrored. */
  lemma TexColumnOrientation(f1: real, f2: real, side: Side, dir: Vec2)
    requires 0.0 <= f1 <= f2 < 1.0
    ensures !Mirrored(side, dir) ==> TexColumn(f1, side, dir) <= TexColumn(f2, side, dir)
    ensures Mirrored(side, dir) ==> TexColumn(f1, side, dir) >= TexColumn(f2, side, dir)
  {
    assert (f1 * 64.0).Floor <= (f2 * 64.0).Floor;
  }

  /** `dval`: twice the distance, truncated, capped at the darkest level. */
  function ShadeLevel(dist: real): (d: int)
    requires dist >= 0.0
    ensures 0 <= d <= DarkestLevel
    ensures d < DarkestLevel ==> d as real <= 2.0 * dist < (d + 1) as real
    ensures d == DarkestLevel ==> 2.0 * dist >= DarkestLevel as real
  {
    Min(DarkestLevel, Trunc(dist * 2.0))
  }

  /** Farther is never lighter. */
  lemma ShadeLevelMonotone(d1: real, d2: real)
    requires 0.0 <= d1 <= d2
    ensures ShadeLevel(d1) <= ShadeLevel(d2)
  {
    assert (d1 * 2.0).Floor <= (d2 * 2.0).Floor;
  }

  /** `m_LookupTableFloorDist[y]`: `h / (2.0 * y - h)`, +infinity on the middle row of an
      even screen. */
  function FloorDistance(h: nat, y: int): (d: Dist)
    ensures d.Infinite? <==> 2 * y == h
    ensures d.Finite? ==> d.value * (2 * y - h) as real == h as real
  {
    var den := 2 * y - h;
    if den == 0 then Infinite else Finite(h as real / den as real)
  }

  /** Rows below the middle have a finite positive floor distance that shrinks further down. */
  lemma FloorDistanceBelowMiddle(h: nat, y1: int, y2: int)
    requires h > 0 && h < 2 * y1 <= 2 * y2
    ensures FloorDistance(h, y1).Finite? && FloorDistance(h, y2).Finite?
    ensures 0.0 < FloorDistance(h, y2).value <= FloorDistance(h, y1).value
  {
    var a, b := (2 * y1 - h) as real, (2 * y2 - h) as real;
    assert 0.0 < a <= b;
    var va, vb := h as real / a, h as real / b;
    assert vb * b == h as real == va * a;
    assert vb * (b - a) >= 0.0;
    assert (va - vb) * a == vb * (b - a);
    if va != vb {
      RealPositiveFactor(a, va - vb);
    }
  }

  /** Every row the floor loop visits is nearer than the wall: for an even height, a
      row below `drawEnd` has floor distance in `(0, perpWallDist)`. */
  lemma FloorRowNearerThanWall(h: nat, perp: real, y: int)
    requires h % 2 == 0 && h > 0 && perp > 0.0
    requires DrawEnd(h, LineHeight(h, perp)) < y < h
    ensures FloorDistance(h, y).Finite?
    ensures 0.0 < FloorDistance(h, y).value < perp
  {
    var l := LineHeight(h, perp);
    assert DrawEnd(h, l) == h / 2 + l / 2;
    var den := 2 * y - h;
    assert den >= l + 1;
    var dr: real := den as real;
    var q := h as real / perp;
    assert dr > q;
    assert q * perp == h as real;
    var v := h as real / dr;
    assert v * dr == h as real;
    assert perp * dr > perp * q == h as real;
    assert dr * (perp - v) == perp * dr - h as real;
    assert perp * dr - h as real > 0.0;
    assert dr * (perp - v) > 0.0;
    RealPositiveFactor(dr, perp - v);
  }

  /** `floorXWall, floorYWall`: the floor point at the foot of the hit face. The face is
      the edge of the hit cell that the ray enters through (its low edge when the ray runs
      towards +x or +y, its high edge otherwise), and `frac` is the offset along it. */
  function WallBase(side: Side, dir: Vec2, mapX: int, mapY: int, frac: real): (b: Vec2)
    ensures mapX >= 0 && mapY >= 0 && frac >= 0.0 ==> b.x >= 0.0 && b.y >= 0.0
    ensures side == XSide && dir.x != 0.0 ==>
      b.x == (if dir.x > 0.0 then mapX else mapX + 1) as real && b.y - mapY as real == frac
    ensures side == YSide && dir.y != 0.0 ==>
      b.y == (if dir.y > 0.0 then mapY else mapY + 1) as real && b.x - mapX as real == frac
    ensures 0.0 <= frac < 1.0 ==>
      mapX as real <= b.x <= (mapX + 1) as real && mapY as real <= b.y <= (mapY + 1) as real
  {
    if side == XSide && dir.x > 0.0 then Vec2(mapX as real, mapY as real + frac)
    else if side == XSide && dir.x < 0.0 then Vec2(mapX as real + 1.0, mapY as real + frac)
    else if side == YSide && dir.y > 0.0 then Vec2(mapX as real + frac, mapY as real)
    else Vec2(mapX as real + frac, mapY as real + 1.0)
  }

  /** Fed the fraction of the hit, the foot of the wall lies on the same face line as the
      hit point `pos + t * dir` and differs from it along the face by a whole number of
      cells; the two coincide whenever the hit lies within the hit cell's span of the face. */
  lemma WallBaseAtHit(pos: Vec2, dir: Vec2, r: Ray, s: Stepping)
    requires UnitSteps(s)
    requires s.stepX == (if dir.x < 0.0 then -1 else 1) && s.stepY == (if dir.y < 0.0 then -1 else 1)
    requires r.side == XSide ==> dir.x != 0.0
    requires r.side == YSide ==> dir.y != 0.0
    ensures var p := Add(pos, Scale(dir, HitParameter(pos, dir, r, s)));
      var raw := RawWallX(pos, dir, r, s);
      var b := WallBase(r.side, dir, r.mapX, r.mapY, WallFraction(raw));
      (r.side == XSide ==> b.x == p.x && (b.y - p.y).Floor as real == b.y - p.y) &&
      (r.side == YSide ==> b.y == p.y && (b.x - p.x).Floor as real == b.x - p.x) &&
      ((if r.side == XSide then r.mapY else r.mapX) as real <= raw < (if r.side == XSide then r.mapY else r.mapX) as real + 1.0 ==> b == p)
  {
    HitPointOnWallFace(pos, dir, r, s);
    var raw := RawWallX(pos, dir, r, s);
    var f := WallFraction(raw);
    var n := raw.Floor;
    assert f == raw - n as real;
    if r.side == XSide {
      BaseOnFace(r.mapY, raw, n, f, WallBase(r.side, dir, r.mapX, r.mapY, f).y);
    } else {
      BaseOnFace(r.mapX, raw, n, f, WallBase(r.side, dir, r.mapX, r.mapY, f).x);
    }
  }

  /** The along-face coordinate `cell + frac` of the foot differs from the hit's `raw` by
      the whole number `cell - floor(raw)`, which is zero when `raw` lies in the cell. */
  lemma BaseOnFace(cell: int, raw: real, n: int, f: real, along: real)
    requires n == raw.Floor && f == raw - n as real && along - cell as real == f
    ensures (along - raw).Floor as real == along - raw
    ensures cell as real <= raw < cell as real + 1.0 ==> along == raw
  {
    assert along - raw == (cell - n) as real;
  }

  /** `currentFloorX, currentFloorY`: the floor point seen on a row at distance `dist`,
      interpolated between the camera and the foot of the wall with weight `dist / perp`. */
  function FloorPoint(pos: Vec2, base: Vec2, perp: real, dist: real): (p: Vec2)
    requires perp > 0.0
    ensures 0.0 <= dist <= perp && pos.x >= 0.0 && pos.y >= 0.0 && base.x >= 0.0 && base.y >= 0.0 ==>
      p.x >= 0.0 && p.y >= 0.0
    ensures dist == perp ==> p == base
    ensures dist == 0.0 ==> p == pos
  {
    var weight := dist / perp;
    assert 0.0 <= dist <= perp && pos.x >= 0.0 && pos.y >= 0.0 && base.x >= 0.0 && base.y >= 0.0 ==>
      weight * base.x + (1.0 - weight) * pos.x >= 0.0 && weight * base.y + (1.0 - weight) * pos.y >= 0.0 by {
      if 0.0 <= dist <= perp && pos.x >= 0.0 && pos.y >= 0.0 && base.x >= 0.0 && base.y >= 0.0 {
        QuotientTimesDivisor(dist, perp);
        WeightInUnit(dist, perp, weight);
        BetweenNonNegative(weight, base.x, pos.x);
        BetweenNonNegative(weight, base.y, pos.y);
      }
    }
    Vec2(weight * base.x + (1.0 - weight) * pos.x, weight * base.y + (1.0 - weight) * pos.y)
  }

  /** A weight with `w * perp == dist` for a distance in `[0, perp]` lies in `[0, 1]`. */
  lemma WeightInUnit(dist: real, perp: real, w: real)
    requires perp > 0.0 && 0.0 <= dist <= perp && w * perp == dist
    ensures 0.0 <= w <= 1.0
  {
    RealNonNegFactor(perp, w);
    assert perp * (1.0 - w) == perp - dist;
    RealNonNegFactor(perp, 1.0 - w);
  }

  /** A point between two non-negative values is non-negative. */
  lemma BetweenNonNegative(w: real, a: real, b: real)
    requires 0.0 <= w <= 1.0 && a >= 0.0 && b >= 0.0
    ensures w * a + (1.0 - w) * b >= 0.0
  {
    RealNonNegProduct(w, a);
    RealNonNegProduct(1.0 - w, b);
  }

  /** `(int)(c * 64) % 64`: a texture coordinate of a non-negative floor coordinate. */
  function FloorTexel(c: real): (t: int)
    requires c >= 0.0
    ensures 0 <= t < TextureSize
    ensures t == Trunc(c * 64.0) % TextureSize
  {
    Rem(Trunc(c * TextureSize as real), TextureSize)
  }

  /** `m_FIndexLookup[x, y]`: the buffer index of column `x`, row `y`. */
  function FloorIndex(w: nat, x: int, y: int): (i: int)
    ensures 0 <= x < w ==> i % w == x && i / w == y
  {
    var i := x + w * y;
    if 0 <= x < w then RowMajorDecode(w, x, y); i else i
  }

  /** `m_CIndexLoopup[x, y]`: the buffer index of column `x`, row `h - y`. */
  function CeilingIndex(w: nat, h: nat, x: int, y: int): (i: int)
    ensures 0 <= x < w ==> i % w == x && i / w == h - y
  {
    var i := x + w * (h - y);
    if 0 <= x < w then RowMajorDecode(w, x, h - y); i else i
  }

  /** A row-major index decodes back to its column and row. */
  lemma RowMajorDecode(w: nat, x: int, y: int)
    requires 0 <= x < w
    ensures (x + w * y) % w == x && (x + w * y) / w == y
  {
    var q, r := (x + w * y) / w, (x + w * y) % w;
    assert w * (q - y) == x - r;
    if q > y {
      AtLeastOnce(w, q - y);
    } else if q < y {
      AtLeastOnce(w, y - q);
    }
  }

  lemma AtLeastOnce(w: int, k: int)
    requires w > 0 && k >= 1
    ensures w * k >= w
  {
    assert w * k == w * (k - 1) + w;
  }

  /** Row-major indices of the `w * h` buffer are in range exactly for rows in `[0, h)`. */
  lemma BufferIndexRange(w: nat, h: nat, x: int, row: int)
    requires 0 <= x < w
    ensures 0 <= x + w * row < w * h <==> 0 <= row < h
  {
    if row < 0 {
      assert w * row + w <= 0;
    } else if row >= h {
      assert w * row >= w * h;
    } else {
      assert w * row + w == w * (row + 1) <= w * h;
    }
  }

  /** The floor table only holds in-range indices. */
  lemma FloorIndexInRange(w: nat, h: nat, x: int, y: int)
    requires 0 <= x < w && 0 <= y < h
    ensures 0 <= FloorIndex(w, x, y) < w * h
  {
    BufferIndexRange(w, h, x, y);
  }

  /** A ceiling index is in range exactly for `1 <= y <= h`; its row 0 entry is not. */
  lemma CeilingIndexInRange(w: nat, h: nat, x: int, y: int)
    requires 0 <= x < w
    ensures 0 <= CeilingIndex(w, h, x, y) < w * h <==> 1 <= y <= h
  {
    BufferIndexRange(w, h, x, h - y);
  }

  /** Distinct cells of the buffer have distinct indices. */
  lemma BufferIndexInjective(w: nat, x1: int, r1: int, x2: int, r2: int)
    requires 0 <= x1 < w && 0 <= x2 < w
    requires x1 + w * r1 == x2 + w * r2
    ensures x1 == x2 && r1 == r2
  {
    var d := r2 - r1;
    assert w * d == x1 - x2;
    assert w * (1 - d) == w - (x1 - x2) > 0;
    assert w * (1 + d) == w + (x1 - x2) > 0;
    PositiveFactor(w, 1 - d);
    PositiveFactor(w, 1 + d);
  }
}
