/** Two-dimensional vectors over the reals, and the math library the renderer
    calls. Square root, cosine, sine, arctangent and pi have no closed form
    over Dafny's reals, so they enter the model as a record of functions the
    caller supplies; any fact about them that a property needs is stated as a
    precondition at the points where it is used. */
module Geometry {

  datatype Vec2 = Vec2(x: real, y: real)

  /** `Math.Sqrt`, `Math.Cos`, `Math.Sin`, `Math.Atan2(y, x)` and `Math.PI`. */
  datatype MathLib = MathLib(
    sqrt: real -> real,
    cos: real -> real,
    sin: real -> real,
    atan2: (real, real) -> real,
    pi: real)

  function Add(a: Vec2, b: Vec2): Vec2 {
    Vec2(a.x + b.x, a.y + b.y)
  }

  function Sub(a: Vec2, b: Vec2): Vec2 {
    Vec2(a.x - b.x, a.y - b.y)
  }

  function Scale(a: Vec2, k: real): Vec2 {
    Vec2(a.x * k, a.y * k)
  }

  function Dot(a: Vec2, b: Vec2): real {
    a.x * b.x + a.y * b.y
  }

  /** `Vector2.Length()`. */
  function Length(a: Vec2, m: MathLib): real {
    m.sqrt(Dot(a, a))
  }

  /** `Vector2.Normalize()`. A zero vector, which the source turns into NaNs, is left as it is. */
  function Normalize(a: Vec2, m: MathLib): Vec2 {
    var n := Length(a, m);
    if n == 0.0 then a else Scale(a, 1.0 / n)
  }

  /** The unit vector at angle `t`: `(cos t, sin t)`. */
  function Heading(t: real, m: MathLib): Vec2 {
    Vec2(m.cos(t), m.sin(t))
  }

  /** `Vector2.Transform(v, Matrix.CreateRotationZ(t))`: counter-clockwise rotation by `t`. */
  function Rotated(a: Vec2, t: real, m: MathLib): Vec2 {
    Vec2(a.x * m.cos(t) - a.y * m.sin(t), a.x * m.sin(t) + a.y * m.cos(t))
  }

  /** What the rotation matrix does: the result's component along `a` is `cos t` and its
      component along `a` turned a quarter counter-clockwise is `sin t`, both in units of
      `|a|^2`; an angle whose cosine is 1 and sine 0 leaves `a` as it is. */
  lemma RotatedComponents(a: Vec2, t: real, m: MathLib)
    ensures Dot(Rotated(a, t, m), a) == m.cos(t) * Dot(a, a)
    ensures Dot(Rotated(a, t, m), Vec2(-a.y, a.x)) == m.sin(t) * Dot(a, a)
    ensures m.cos(t) == 1.0 && m.sin(t) == 0.0 ==> Rotated(a, t, m) == a
  {
    var c, s := m.cos(t), m.sin(t);
    assert (a.x * c - a.y * s) * a.x + (a.x * s + a.y * c) * a.y == c * (a.x * a.x + a.y * a.y);
    assert (a.x * c - a.y * s) * -a.y + (a.x * s + a.y * c) * a.x == s * (a.x * a.x + a.y * a.y);
  }

  /** The library's cosine and sine lie on the unit circle at angle `t`. */
  predicate OnUnitCircle(t: real, m: MathLib) {
    m.cos(t) * m.cos(t) + m.sin(t) * m.sin(t) == 1.0
  }

  /** A rotation keeps dot products, hence lengths and right angles. */
  lemma RotationKeepsDot(a: Vec2, b: Vec2, t: real, m: MathLib)
    requires OnUnitCircle(t, m)
    ensures Dot(Rotated(a, t, m), Rotated(b, t, m)) == Dot(a, b)
  {
    var c, s := m.cos(t), m.sin(t);
    assert Rotated(a, t, m) == Vec2(a.x * c - a.y * s, a.x * s + a.y * c);
    assert Rotated(b, t, m) == Vec2(b.x * c - b.y * s, b.x * s + b.y * c);
    TurnedDot(a, b, c, s);
  }

  /** Turning two vectors by the same `(c, s)` on the unit circle keeps their dot product. */
  lemma TurnedDot(a: Vec2, b: Vec2, c: real, s: real)
    requires c * c + s * s == 1.0
    ensures Dot(Vec2(a.x * c - a.y * s, a.x * s + a.y * c), Vec2(b.x * c - b.y * s, b.x * s + b.y * c)) == Dot(a, b)
  {
    var ux, uy := a.x * c - a.y * s, a.x * s + a.y * c;
    var vx, vy := b.x * c - b.y * s, b.x * s + b.y * c;
    assert Dot(Vec2(ux, uy), Vec2(vx, vy)) == ux * vx + uy * vy;
    calc {
      ux * vx + uy * vy;
      a.x * b.x * (c * c + s * s) + a.y * b.y * (c * c + s * s);
      a.x * b.x * 1.0 + a.y * b.y * 1.0;
    }
  }
}
