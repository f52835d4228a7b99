/** The darkness cache of `RayCasterTexture`: a source texture is turned into 48
    pre-shaded copies, copy `d` having every colour channel divided by a divisor
    `Darkness(d)` that grows with `d`. The source accumulates the divisor in a
    32-bit float; here it is an exact real. */
module Shading {
  import opened Numerics
  import opened Pixels

  /** Number of shaded copies kept per texture. */
  const Levels: nat := 48

  /** A shaded copy indexed `[x][y]`, like the source's `Int32[x, y]`. */
  type Variant = seq<seq<Pixel>>

  /** The divisor of level `d`: it starts at 1 and after level `d` is used grows by
      `d * 0.0125 + d * d * 0.00025`. */
  function Darkness(d: nat): (k: real)
    ensures k >= 1.0
  {
    if d == 0 then 1.0
    else
      var p := d - 1;
      Darkness(p) + (p as real) * 0.0125 + ((p * p) as real) * 0.00025
  }

  lemma DarknessStep(d: nat)
    ensures Darkness(d + 1) == Darkness(d) + (d as real) * 0.0125 + ((d * d) as real) * 0.00025
  {
  }

  /** Closed form of the divisor: the recurrence sums `0.0125 i + 0.00025 i^2` over `i < d`. */
  lemma {:induction false} DarknessClosedForm(d: nat)
    ensures Darkness(d) == ClosedForm(d as real)
  {
    if d > 0 {
      DarknessClosedForm(d - 1);
      var p := (d - 1) as real;
      assert ((d - 1) * (d - 1)) as real == p * p;
      ClosedFormStep(p);
    }
  }

  /** `1 + 0.0125 * D(D-1)/2 + 0.00025 * (D-1)D(2D-1)/6`. */
  function ClosedForm(x: real): real {
    1.0 + 0.00625 * (x * (x - 1.0)) + (0.00025 / 6.0) * ((x - 1.0) * x * (2.0 * x - 1.0))
  }

  lemma ClosedFormStep(p: real)
    ensures ClosedForm(p + 1.0) == ClosedForm(p) + p * 0.0125 + (p * p) * 0.00025
  {
    var a := (p + 1.0) * p;
    var b := p * (p - 1.0);
    assert a - b == 2.0 * p;
    var c := p * (p + 1.0) * (2.0 * p + 1.0);
    var e := (p - 1.0) * p * (2.0 * p - 1.0);
    assert c == 2.0 * p * p * p + 3.0 * p * p + p;
    assert e == 2.0 * p * p * p - 3.0 * p * p + p;
    assert c - e == 6.0 * (p * p);
  }

  /** The darkest level divides by a little under 23. */
  lemma DarkestLevel()
    ensures Darkness(0) == Darkness(1) == 1.0
    ensures Darkness(Levels - 1) == 22.89025
  {
    DarknessClosedForm(Levels - 1);
  }

  /** The divisor never decreases from one level to any later one. */
  lemma {:induction false} DarknessMonotone(d: nat, e: nat)
    requires d <= e
    ensures Darkness(d) <= Darkness(e)
  {
    if d < e {
      DarknessMonotone(d, e - 1);
    }
  }

  /** From level 1 on, every level divides by strictly more than the one before it. */
  lemma {:induction false} DarknessStrictFromOne(d: nat, e: nat)
    requires 1 <= d < e
    ensures Darkness(d) < Darkness(e)
  {
    DarknessMonotone(d, e - 1);
    assert Darkness(e) >= Darkness(e - 1) + ((e - 1) as real) * 0.0125;
  }

  /** `(Byte)(c / k)`: the channel divided by the divisor and truncated. */
  function ShadeChannel(c: byte, k: real): (v: byte)
    requires k >= 1.0
    ensures (v as real) * k <= c as real < ((v + 1) as real) * k
    ensures v <= c
  {
    FloorQuotient(c as real, k);
    (c as real / k).Floor
  }

  /** The truncated quotient of `c / k` is the whole number of times `k` fits in `c`. */
  lemma FloorQuotient(c: real, k: real)
    requires c >= 0.0 && k >= 1.0
    ensures 0 <= (c / k).Floor
    ensures (c / k).Floor as real <= c
    ensures ((c / k).Floor as real) * k <= c
    ensures c < (((c / k).Floor + 1) as real) * k
  {
    QuotientTimesDivisor(c, k);
    FitsBetween(c, k, c / k, (c / k).Floor);
  }

  /** `q` times `k` is `c`, so `k` fits `q.Floor` times into `c` and not once more. */
  lemma FitsBetween(c: real, k: real, q: real, v: int)
    requires c >= 0.0 && k >= 1.0 && q * k == c
    requires v as real <= q < (v + 1) as real
    ensures 0 <= v && v as real <= c
    ensures (v as real) * k <= c < ((v + 1) as real) * k
  {
    RealNonNegFactor(k, q);
    ScaleLess(1.0, k, q);
    ScaleLess(v as real, q, k);
    assert (v as real) * k <= q * k == c;
    ScaleLess(q, (v + 1) as real, k);
    assert c == q * k < ((v + 1) as real) * k;
  }

  /** Dividing by a larger divisor never yields a brighter channel. */
  lemma ShadeChannelAntitone(c: byte, k1: real, k2: real)
    requires 1.0 <= k1 <= k2
    ensures ShadeChannel(c, k2) <= ShadeChannel(c, k1)
  {
    QuotientAntitone(c as real, k1, k2, ShadeChannel(c, k1), ShadeChannel(c, k2));
  }

  lemma QuotientAntitone(c: real, k1: real, k2: real, v1: int, v2: int)
    requires 1.0 <= k1 <= k2 && v2 >= 0
    requires c < ((v1 + 1) as real) * k1
    requires (v2 as real) * k2 <= c
    ensures v2 <= v1
  {
    var x1, x2 := v1 as real, v2 as real;
    ScaleLess(k1, k2, x2);
    if v2 > v1 {
      ScaleLess((v1 + 1) as real, x2, k1);
    }
  }

  /** Multiplying by a non-negative factor keeps `<=`, and by a positive one keeps `<`. */
  lemma ScaleLess(a: real, b: real, k: real)
    requires k >= 0.0
    ensures a <= b ==> a * k <= b * k
    ensures a < b && k > 0.0 ==> a * k < b * k
  {
    assert b * k - a * k == (b - a) * k;
  }

  /** Channels 0 to 2 of the pixel shaded by divisor `k`, with alpha forced to 255. */
  function ShadePixel(p: Pixel, k: real): (s: Pixel)
    requires k >= 1.0
    ensures s.a == 255
    ensures s.r <= p.r && s.g <= p.g && s.b <= p.b
    ensures k == 1.0 ==> s == p.(a := 255)
  {
    Pixel(ShadeChannel(p.r, k), ShadeChannel(p.g, k), ShadeChannel(p.b, k), 255)
  }

  /** Every colour channel of `dim` is at most the same channel of `bright`. */
  predicate NoBrighter(dim: Pixel, bright: Pixel) {
    dim.r <= bright.r && dim.g <= bright.g && dim.b <= bright.b
  }

  /** Level `d + 1` of `levels` is nowhere brighter than level `d`. */
  predicate DimmerThanPrevious(levels: seq<Variant>, d: nat)
    requires d + 1 < |levels|
  {
    |levels[d + 1]| == |levels[d]| &&
    forall x, y :: 0 <= x < |levels[d]| && 0 <= y < |levels[d][x]| ==>
      y < |levels[d + 1][x]| && NoBrighter(levels[d + 1][x][y], levels[d][x][y])
  }

  /** The source pixel at column `x`, row `y` of a row-major `width * height` array. */
  function SourceTexel(data: seq<int>, width: nat, height: nat, x: nat, y: nat): Pixel
    requires |data| == width * height
    requires forall i :: 0 <= i < |data| ==> IsInt32(data[i])
    requires x < width && y < height
  {
    RowMajorInRange(width, height, x, y);
    FromInt32(data[x + width * y])
  }

  lemma RowMajorInRange(width: nat, height: nat, x: nat, y: nat)
    requires x < width && y < height
    ensures x + width * y < width * height
  {
    assert width * y + width == width * (y + 1) <= width * height;
  }

  /** One shaded copy, `[x][y]` from `data[x + width * y]`. */
  function ShadeVariant(data: seq<int>, width: nat, height: nat, k: real): (v: Variant)
    requires |data| == width * height
    requires forall i :: 0 <= i < |data| ==> IsInt32(data[i])
    requires k >= 1.0
    ensures |v| == width
    ensures forall x :: 0 <= x < width ==> |v[x]| == height
    ensures forall x, y :: 0 <= x < width && 0 <= y < height ==>
      v[x][y] == ShadePixel(SourceTexel(data, width, height, x, y), k)
  {
    seq(width, x requires 0 <= x < width =>
      seq(height, y requires 0 <= y < height => ShadePixel(SourceTexel(data, width, height, x, y), k)))
  }

  lemma VariantsDarken(data: seq<int>, width: nat, height: nat, k1: real, k2: real)
    requires |data| == width * height
    requires forall i :: 0 <= i < |data| ==> IsInt32(data[i])
    requires 1.0 <= k1 <= k2
    ensures DimmerThanPrevious([ShadeVariant(data, width, height, k1), ShadeVariant(data, width, height, k2)], 0)
  {
    var v1, v2 := ShadeVariant(data, width, height, k1), ShadeVariant(data, width, height, k2);
    forall x, y | 0 <= x < width && 0 <= y < height
      ensures NoBrighter(v2[x][y], v1[x][y])
    {
      var p := SourceTexel(data, width, height, x, y);
      ShadeChannelAntitone(p.r, k1, k2);
      ShadeChannelAntitone(p.g, k1, k2);
      ShadeChannelAntitone(p.b, k1, k2);
    }
  }

  /** The shaded copies the source builds: copy `d` uses divisor `Darkness(d)`. */
  predicate IsDarknessCache(data: seq<int>, width: nat, height: nat, levels: seq<Variant>)
    requires |data| == width * height
    requires forall i :: 0 <= i < |data| ==> IsInt32(data[i])
  {
    |levels| == Levels &&
    forall e :: 0 <= e < Levels ==> levels[e] == ShadeVariant(data, width, height, Darkness(e))
  }

  lemma CacheProperties(data: seq<int>, width: nat, height: nat, levels: seq<Variant>)
    requires |data| == width * height
    requires forall i :: 0 <= i < |data| ==> IsInt32(data[i])
    requires IsDarknessCache(data, width, height, levels)
    ensures forall d :: 0 <= d < Levels ==>
      |levels[d]| == width && forall x :: 0 <= x < width ==> |levels[d][x]| == height
    ensures forall d, x, y :: 0 <= d < Levels && 0 <= x < width && 0 <= y < height ==>
      levels[d][x][y] == ShadePixel(SourceTexel(data, width, height, x, y), Darkness(d))
    ensures forall x, y :: 0 <= x < width && 0 <= y < height ==>
      levels[0][x][y] == SourceTexel(data, width, height, x, y).(a := 255)
    ensures levels[1] == levels[0]
    ensures forall d :: 0 <= d < Levels - 1 ==> DimmerThanPrevious(levels, d)
  {
    assert levels[0] == ShadeVariant(data, width, height, 1.0);
    assert levels[1] == ShadeVariant(data, width, height, 1.0);
    forall d, x, y | 0 <= d < Levels && 0 <= x < width && 0 <= y < height
      ensures levels[d][x][y] == ShadePixel(SourceTexel(data, width, height, x, y), Darkness(d))
    {
      assert levels[d] == ShadeVariant(data, width, height, Darkness(d));
    }
    forall d | 0 <= d < Levels - 1
      ensures DimmerThanPrevious(levels, d)
    {
      DarknessMonotone(d, d + 1);
      VariantsDarken(data, width, height, Darkness(d), Darkness(d + 1));
    }
  }

  /** Level by level dimming accumulates: any later level is nowhere brighter than an earlier one. */
  lemma {:induction false} DimmerAcrossLevels(levels: seq<Variant>, d1: nat, d2: nat, x: int, y: int)
    requires d1 <= d2 < |levels|
    requires forall d :: 0 <= d < |levels| - 1 ==> DimmerThanPrevious(levels, d)
    requires 0 <= x < |levels[d1]| && 0 <= y < |levels[d1][x]|
    ensures x < |levels[d2]| && y < |levels[d2][x]|
    ensures NoBrighter(levels[d2][x][y], levels[d1][x][y])
    decreases d2
  {
    if d1 < d2 {
      DimmerAcrossLevels(levels, d1, d2 - 1, x, y);
      assert DimmerThanPrevious(levels, d2 - 1);
    }
  }

  /** `LoadTexture`: the 48 shaded copies of a `width * height` texture whose
      pixels `data` were read row-major from the image. */
  method LoadTexture(data: seq<int>, width: nat, height: nat) returns (levels: seq<Variant>)
    requires |data| == width * height
    requires forall i :: 0 <= i < |data| ==> IsInt32(data[i])
    ensures |levels| == Levels
    ensures forall d :: 0 <= d < Levels ==>
      |levels[d]| == width && forall x :: 0 <= x < width ==> |levels[d][x]| == height
    ensures forall d, x, y :: 0 <= d < Levels && 0 <= x < width && 0 <= y < height ==>
      levels[d][x][y] == ShadePixel(SourceTexel(data, width, height, x, y), Darkness(d))
    ensures forall x, y :: 0 <= x < width && 0 <= y < height ==>
      levels[0][x][y] == SourceTexel(data, width, height, x, y).(a := 255)
    ensures levels[1] == levels[0]
    ensures forall d :: 0 <= d < Levels - 1 ==> DimmerThanPrevious(levels, d)
  {
    levels := BuildLevels(data, width, height);
    CacheProperties(data, width, height, levels);
  }

  /** The loop of `LoadTexture`: the divisor starts at 1 and grows after each level. */
  method BuildLevels(data: seq<int>, width: nat, height: nat) returns (levels: seq<Variant>)
    requires |data| == width * height
    requires forall i :: 0 <= i < |data| ==> IsInt32(data[i])
    ensures IsDarknessCache(data, width, height, levels)
  {
    levels := [];
    var darkness := 1.0;
    var d := 0;
    while d < Levels
      invariant 0 <= d <= Levels
      invariant darkness == Darkness(d)
      invariant levels == LevelsUpTo(data, width, height, d)
    {
      levels := levels + [ShadeVariant(data, width, height, darkness)];
      DarknessStep(d);
      darkness := darkness + (d as real) * 0.0125 + ((d * d) as real) * 0.00025;
      d := d + 1;
    }
    LevelsUpToShaded(data, width, height, Levels);
  }

  /** The first `d` shaded copies. */
  function LevelsUpTo(data: seq<int>, width: nat, height: nat, d: nat): seq<Variant>
    requires |data| == width * height
    requires forall i :: 0 <= i < |data| ==> IsInt32(data[i])
  {
    if d == 0 then [] else LevelsUpTo(data, width, height, d - 1) + [ShadeVariant(data, width, height, Darkness(d - 1))]
  }

  /** Copy `e` of the first `d` uses divisor `Darkness(e)`. */
  lemma {:induction false} LevelsUpToShaded(data: seq<int>, width: nat, height: nat, d: nat)
    requires |data| == width * height
    requires forall i :: 0 <= i < |data| ==> IsInt32(data[i])
    ensures |LevelsUpTo(data, width, height, d)| == d
    ensures forall e :: 0 <= e < d ==> LevelsUpTo(data, width, height, d)[e] == ShadeVariant(data, width, height, Darkness(e))
  {
    if d > 0 {
      LevelsUpToShaded(data, width, height, d - 1);
    }
  }
}
