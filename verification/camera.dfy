/** `RayCasterCamera`: the camera pose and the motion animating it. In the source
    the motion in flight is a nullable closure capturing its target and a mutable
    remaining distance; here it is the explicit state `Motion`, and each closure
    invocation is one call of `Update`. */
module CameraMotion {
  import opened Numerics
  import opened Geometry

  /** `VectorPlaneLength`: the length of the camera plane, i.e. the field of view. */
  const PlaneLength: real := 0.66
  const StartPosition: Vec2 := Vec2(21.5, 13.5)
  /** A translation covers `heading / TravelTime` per millisecond. */
  const TravelTime: real := 350.0
  /** A rotation turns `TurnRate` radians per millisecond. */
  const TurnRate: real := 0.004

  /** `Movement == null`, a translation closure, or a rotation closure. */
  datatype Motion =
    | Idle
    | Translating(destination: Vec2, heading: Vec2, remaining: real)
    | Rotating(angle: real, sign: int, remaining: real)

  datatype Camera = Camera(position: Vec2, direction: Vec2, plane: Vec2, motion: Motion)

  /** The constructor's pose: facing +x with the plane pointing to -y, at rest. */
  function NewCamera(m: MathLib): (c: Camera)
    ensures c.motion == Idle && c.position == StartPosition
    ensures c.plane == Vec2(0.0, -PlaneLength)
    ensures m.sqrt(1.0) == 1.0 ==> c.direction == Vec2(1.0, 0.0)
  {
    Camera(StartPosition, Normalize(Vec2(1.0, 0.0), m), Scale(Vec2(0.0, -1.0), PlaneLength), Idle)
  }

  /** Public `Rotate(float)`: direction and plane turned by the same angle, so the
      angle between them and their lengths are kept. */
  function Turn(c: Camera, rads: real, m: MathLib): (r: Camera)
    ensures r.position == c.position && r.motion == c.motion
    ensures r.direction == Rotated(c.direction, rads, m) && r.plane == Rotated(c.plane, rads, m)
    ensures OnUnitCircle(rads, m) ==>
      Dot(r.direction, r.plane) == Dot(c.direction, c.plane) &&
      Dot(r.direction, r.direction) == Dot(c.direction, c.direction) &&
      Dot(r.plane, r.plane) == Dot(c.plane, c.plane)
    ensures rads == 0.0 && m.cos(0.0) == 1.0 && m.sin(0.0) == 0.0 ==> r == c
  {
    var r := c.(direction := Rotated(c.direction, rads, m), plane := Rotated(c.plane, rads, m));
    if OnUnitCircle(rads, m) then
      RotationKeepsDot(c.direction, c.plane, rads, m);
      RotationKeepsDot(c.direction, c.direction, rads, m);
      RotationKeepsDot(c.plane, c.plane, rads, m);
      r
    else
      r
  }

  /** Private `Move`: travel towards `target` along `heading`, the remaining distance
      starting at the distance from the current position to the target; the pose is kept. */
  function Move(c: Camera, target: Vec2, heading: Vec2, m: MathLib): (r: Camera)
    ensures r.position == c.position && r.direction == c.direction && r.plane == c.plane
    ensures r.motion == Translating(target, heading, Length(Sub(target, c.position), m))
  {
    assert Dot(Sub(c.position, target), Sub(c.position, target)) == Dot(Sub(target, c.position), Sub(target, c.position));
    c.(motion := Translating(target, heading, Length(Sub(c.position, target), m)))
  }

  /** Accepted only at rest: one direction-length ahead. */
  function MoveForward(c: Camera, m: MathLib): (r: Camera)
    ensures !c.motion.Idle? ==> r == c
    ensures c.motion.Idle? ==>
      r.position == c.position && r.direction == c.direction && r.plane == c.plane &&
      r.motion == Translating(Add(c.position, c.direction), c.direction, Length(c.direction, m))
  {
    if c.motion.Idle? then
      assert Dot(Sub(c.position, Add(c.position, c.direction)), Sub(c.position, Add(c.position, c.direction)))
          == Dot(c.direction, c.direction);
      Move(c, Add(c.position, c.direction), c.direction, m)
    else
      c
  }

  /** Accepted only at rest: one direction-length behind, travelling backwards. */
  function MoveBackwards(c: Camera, m: MathLib): (r: Camera)
    ensures !c.motion.Idle? ==> r == c
    ensures c.motion.Idle? ==>
      r.position == c.position && r.direction == c.direction && r.plane == c.plane &&
      r.motion == Translating(Sub(c.position, c.direction), Scale(c.direction, -1.0), Length(c.direction, m))
  {
    if c.motion.Idle? then
      var heading := Scale(c.direction, -1.0);
      assert Add(c.position, heading) == Sub(c.position, c.direction);
      assert Dot(Sub(c.position, Add(c.position, heading)), Sub(c.position, Add(c.position, heading)))
          == Dot(c.direction, c.direction);
      Move(c, Add(c.position, heading), heading, m)
    else
      c
  }

  /** Private `Rotate(Double, Int32)`: a quarter turn, `pi / 2` radians, towards angle `target`;
      the pose is kept until the ticks turn it. */
  function StartRotation(c: Camera, target: real, sign: int, m: MathLib): (r: Camera)
    ensures r.position == c.position && r.direction == c.direction && r.plane == c.plane
    ensures r.motion.Rotating? && r.motion.angle == target && r.motion.sign == sign
    ensures m.pi > 0.0 ==> r.motion.remaining > 0.0
    ensures r.motion.remaining * 4.0 == m.pi * 2.0
  {
    c.(motion := Rotating(target, sign, m.pi / 2.0))
  }

  /** The heading angle of the current direction, `Atan2(Direction.Y, Direction.X)`. */
  function HeadingAngle(c: Camera, m: MathLib): real {
    m.atan2(c.direction.y, c.direction.x)
  }

  /** Accepted only at rest: a quarter turn counter-clockwise. */
  function RotateLeft(c: Camera, m: MathLib): (r: Camera)
    ensures !c.motion.Idle? ==> r == c
    ensures c.motion.Idle? ==>
      r.position == c.position && r.direction == c.direction && r.plane == c.plane &&
      r.motion == Rotating(HeadingAngle(c, m) + m.pi / 2.0, 1, m.pi / 2.0)
  {
    if c.motion.Idle? then StartRotation(c, HeadingAngle(c, m) + m.pi / 2.0, 1, m) else c
  }

  /** Accepted only at rest: a quarter turn clockwise. */
  function RotateRight(c: Camera, m: MathLib): (r: Camera)
    ensures !c.motion.Idle? ==> r == c
    ensures c.motion.Idle? ==>
      r.position == c.position && r.direction == c.direction && r.plane == c.plane &&
      r.motion == Rotating(HeadingAngle(c, m) - m.pi / 2.0, -1, m.pi / 2.0)
  {
    if c.motion.Idle? then StartRotation(c, HeadingAngle(c, m) - m.pi / 2.0, -1, m) else c
  }

  /** The angle turned in one tick, `Math.Min(length, 0.004 * sign * ms)`: a left turn
      is capped at what remains, a right turn (negative) is not. */
  function TurnStep(sign: int, remaining: real, ms: nat): (rot: real)
    requires sign == 1 || sign == -1
    requires remaining > 0.0
    ensures sign == 1 ==> 0.0 <= rot <= remaining && rot <= TurnRate * (ms as real)
    ensures sign == 1 && TurnRate * (ms as real) <= remaining ==> rot == TurnRate * (ms as real)
    ensures sign == 1 && remaining < TurnRate * (ms as real) ==> rot == remaining
    ensures sign == -1 ==> rot == -TurnRate * (ms as real)
  {
    RealMin(remaining, TurnRate * (sign as real) * (ms as real))
  }

  /** Right ticks are never clamped, yet a right turn finishes on exactly the tick a
      left turn with the same angle left would, and the finished camera is the same:
      the snap overwrites the overshoot within that tick. */
  lemma RightTurnFinishesLikeLeft(c: Camera, ms: nat, m: MathLib)
    requires c.motion.Rotating? && c.motion.remaining > 0.0
    ensures var right := Update(c.(motion := c.motion.(sign := -1)), ms, m);
      var left := Update(c.(motion := c.motion.(sign := 1)), ms, m);
      (right.motion.Idle? <==> left.motion.Idle?) &&
      (right.motion.Idle? ==> right == left)
  {
    var rem, step := c.motion.remaining, TurnRate * (ms as real);
    assert RealAbs(TurnStep(-1, rem, ms)) == step;
    assert step <= rem ==> RealAbs(TurnStep(1, rem, ms)) == step;
    assert rem < step ==> RealAbs(TurnStep(1, rem, ms)) == rem;
  }

  /** The plane re-derived at the end of a rotation: the direction turned a quarter
      clockwise, normalised and scaled to `PlaneLength`. */
  function SnapPlane(t: real, m: MathLib): (p: Vec2)
    ensures OnUnitCircle(t, m) && m.sqrt(1.0) == 1.0 ==>
      p == Vec2(m.sin(t) * PlaneLength, -m.cos(t) * PlaneLength) &&
      Dot(p, Heading(t, m)) == 0.0 &&
      Dot(p, p) == PlaneLength * PlaneLength
  {
    var d := Heading(t, m);
    var p := Scale(Normalize(Vec2(d.y, -d.x), m), PlaneLength);
    if OnUnitCircle(t, m) && m.sqrt(1.0) == 1.0 then
      var cs, sn := m.cos(t), m.sin(t);
      assert Dot(Vec2(sn, -cs), Vec2(sn, -cs)) == 1.0;
      assert Normalize(Vec2(sn, -cs), m) == Vec2(sn, -cs);
      assert Dot(p, p) == (sn * sn + cs * cs) * (PlaneLength * PlaneLength);
      p
    else
      p
  }

  /** The end of a rotation: direction and plane set from the target angle, at rest. */
  function FinishRotation(c: Camera, t: real, m: MathLib): (r: Camera)
    ensures r.position == c.position && r.motion == Idle
    ensures r.direction == Heading(t, m)
    ensures OnUnitCircle(t, m) && m.sqrt(1.0) == 1.0 ==>
      r.plane == Vec2(m.sin(t) * PlaneLength, -m.cos(t) * PlaneLength) &&
      Dot(r.plane, r.direction) == 0.0 &&
      Dot(r.plane, r.plane) == PlaneLength * PlaneLength
  {
    c.(direction := Heading(t, m), plane := SnapPlane(t, m), motion := Idle)
  }

  /** One tick of `ms` milliseconds (`ElapsedGameTime.Milliseconds`): the motion
      closure, if any, is invoked once. */
  function Update(c: Camera, ms: nat, m: MathLib): (r: Camera)
    requires c.motion.Rotating? ==> (c.motion.sign == 1 || c.motion.sign == -1) && c.motion.remaining > 0.0
    ensures c.motion.Idle? ==> r == c
    ensures c.motion.Translating? ==>
      r.direction == c.direction && r.plane == c.plane &&
      (r.motion.Idle? ==> r.position == c.motion.destination) &&
      (r.motion.Translating? ==>
        r.motion.destination == c.motion.destination && r.motion.heading == c.motion.heading &&
        r.position == Add(c.position, Scale(c.motion.heading, (ms as real) / TravelTime)) &&
        0.0 < r.motion.remaining) &&
      !r.motion.Rotating?
    ensures c.motion.Rotating? ==>
      r.position == c.position &&
      (r.motion.Idle? ==> r.direction == Heading(c.motion.angle, m) &&
                          r.plane == SnapPlane(c.motion.angle, m)) &&
      (r.motion.Rotating? ==>
        r.motion.angle == c.motion.angle && r.motion.sign == c.motion.sign &&
        0.0 < r.motion.remaining <= c.motion.remaining) &&
      !r.motion.Translating?
    ensures c.motion.Translating? ==>
      var step := Scale(c.motion.heading, (ms as real) / TravelTime);
      (r.motion.Idle? <==> c.motion.remaining - Length(step, m) <= 0.0) &&
      (r.motion.Translating? ==> r.motion.remaining == c.motion.remaining - Length(step, m))
    ensures c.motion.Rotating? ==>
      var rot := TurnStep(c.motion.sign, c.motion.remaining, ms);
      (r.motion.Idle? <==> c.motion.remaining - RealAbs(rot) <= 0.0) &&
      (r.motion.Rotating? ==>
        r.direction == Rotated(c.direction, rot, m) && r.plane == Rotated(c.plane, rot, m) &&
        r.motion.remaining == c.motion.remaining - RealAbs(rot))
    ensures ms == 0 && c.motion.Translating? && c.motion.remaining > 0.0 && m.sqrt(0.0) == 0.0 ==> r == c
    ensures ms == 0 && c.motion.Rotating? && m.cos(0.0) == 1.0 && m.sin(0.0) == 0.0 ==> r == c
  {
    match c.motion
    case Idle => c
    case Translating(target, heading, remaining) =>
      var step := Scale(Scale(heading, 1.0 / TravelTime), ms as real);
      TickDistance(heading, ms);
      var left := remaining - Length(step, m);
      if left <= 0.0 then
        c.(position := target, motion := Idle)
      else
        c.(position := Add(c.position, step), motion := Translating(target, heading, left))
    case Rotating(target, sign, remaining) =>
      var rot := TurnStep(sign, remaining, ms);
      var left := remaining - RealAbs(rot);
      var turned := Turn(c, rot, m);
      if left <= 0.0 then
        FinishRotation(turned, target, m)
      else
        turned.(motion := Rotating(target, sign, left))
  }

  /** `Heading * (1 / 350) * ms` is `Heading * (ms / 350)`. */
  lemma TickDistance(heading: Vec2, ms: nat)
    ensures Scale(Scale(heading, 1.0 / TravelTime), ms as real) == Scale(heading, (ms as real) / TravelTime)
  {
    var k := ms as real;
    assert (1.0 / TravelTime) * k == k / TravelTime;
    assert heading.x * (1.0 / TravelTime) * k == heading.x * ((1.0 / TravelTime) * k);
    assert heading.y * (1.0 / TravelTime) * k == heading.y * ((1.0 / TravelTime) * k);
  }

  /** Whether a camera state can be handed to `Update`: a rotation in flight has a
      sign of one and something left to turn. */
  predicate Steady(c: Camera) {
    c.motion.Rotating? ==> (c.motion.sign == 1 || c.motion.sign == -1) && c.motion.remaining > 0.0
  }

  /** A sequence of ticks. */
  function Run(c: Camera, ticks: seq<nat>, m: MathLib): (r: Camera)
    requires Steady(c)
    ensures Steady(r)
    decreases |ticks|
  {
    if |ticks| == 0 then c else Run(Update(c, ticks[0], m), ticks[1..], m)
  }

  /** However the ticks fall, a translation keeps direction and plane, never turns
      into a rotation, and once it has stopped the camera stands exactly on its
      destination. */
  lemma {:induction false} TranslationArrives(c: Camera, ticks: seq<nat>, m: MathLib)
    requires c.motion.Translating?
    ensures var r := Run(c, ticks, m);
      r.direction == c.direction && r.plane == c.plane && !r.motion.Rotating? &&
      (r.motion.Idle? ==> r.position == c.motion.destination) &&
      (r.motion.Translating? ==> r.motion.destination == c.motion.destination &&
                                 r.motion.heading == c.motion.heading)
    decreases |ticks|
  {
    if |ticks| > 0 {
      var next := Update(c, ticks[0], m);
      if next.motion.Translating? {
        TranslationArrives(next, ticks[1..], m);
      } else {
        IdleStaysPut(next, ticks[1..], m);
      }
    }
  }

  /** At rest, ticks change nothing. */
  lemma {:induction false} IdleStaysPut(c: Camera, ticks: seq<nat>, m: MathLib)
    requires c.motion.Idle?
    ensures Run(c, ticks, m) == c
    decreases |ticks|
  {
    if |ticks| > 0 {
      IdleStaysPut(Update(c, ticks[0], m), ticks[1..], m);
    }
  }

  /** A forward move, driven until it stops, ends exactly one direction-length ahead
      with direction and plane as they were. */
  lemma MoveForwardArrives(c: Camera, ticks: seq<nat>, m: MathLib)
    requires c.motion.Idle?
    ensures var r := Run(MoveForward(c, m), ticks, m);
      r.direction == c.direction && r.plane == c.plane &&
      (r.motion.Idle? ==> r.position == Add(c.position, c.direction))
  {
    TranslationArrives(MoveForward(c, m), ticks, m);
  }

  /** A backward move, driven until it stops, ends exactly one direction-length behind. */
  lemma MoveBackwardsArrives(c: Camera, ticks: seq<nat>, m: MathLib)
    requires c.motion.Idle?
    ensures var r := Run(MoveBackwards(c, m), ticks, m);
      r.direction == c.direction && r.plane == c.plane &&
      (r.motion.Idle? ==> r.position == Sub(c.position, c.direction))
  {
    TranslationArrives(MoveBackwards(c, m), ticks, m);
  }

  /** However the ticks fall, a rotation keeps the position, and once it has stopped
      direction and plane are exactly those derived from the target angle. */
  lemma {:induction false} RotationArrives(c: Camera, ticks: seq<nat>, m: MathLib)
    requires c.motion.Rotating? && Steady(c)
    ensures var r := Run(c, ticks, m);
      r.position == c.position && !r.motion.Translating? &&
      (r.motion.Idle? ==> r.direction == Heading(c.motion.angle, m) &&
                          r.plane == SnapPlane(c.motion.angle, m)) &&
      (r.motion.Rotating? ==> r.motion.angle == c.motion.angle)
    decreases |ticks|
  {
    if |ticks| > 0 {
      var next := Update(c, ticks[0], m);
      if next.motion.Rotating? {
        RotationArrives(next, ticks[1..], m);
      } else {
        IdleStaysPut(next, ticks[1..], m);
      }
    }
  }

  /** The pose a finished rotation produces. */
  predicate SnappedTo(c: Camera, t: real, m: MathLib) {
    c.direction == Heading(t, m) && c.plane == SnapPlane(t, m)
  }

  /** A left quarter turn followed by a right one, each driven until it stops, gives
      back the pose the camera started from, provided the library's `Atan2` inverts
      its cosine and sine at the two headings involved. */
  lemma LeftThenRightRestores(c: Camera, t: real, left: seq<nat>, right: seq<nat>, m: MathLib)
    requires c.motion.Idle? && SnappedTo(c, t, m)
    requires m.atan2(m.sin(t), m.cos(t)) == t
    requires m.atan2(m.sin(t + m.pi / 2.0), m.cos(t + m.pi / 2.0)) == t + m.pi / 2.0
    requires m.pi > 0.0
    requires Run(RotateLeft(c, m), left, m).motion.Idle?
    requires Run(RotateRight(Run(RotateLeft(c, m), left, m), m), right, m).motion.Idle?
    ensures Run(RotateRight(Run(RotateLeft(c, m), left, m), m), right, m) == c
  {
    var turning := RotateLeft(c, m);
    assert turning.motion.angle == t + m.pi / 2.0;
    RotationArrives(turning, left, m);
    var c1 := Run(turning, left, m);
    var back := RotateRight(c1, m);
    assert back.motion.angle == t;
    RotationArrives(back, right, m);
  }

  /** The constructor's pose is the pose a rotation to angle 0 finishes in. */
  lemma NewCameraIsSnapped(m: MathLib)
    requires m.cos(0.0) == 1.0 && m.sin(0.0) == 0.0 && m.sqrt(1.0) == 1.0
    ensures SnappedTo(NewCamera(m), 0.0, m)
  {
    var c := NewCamera(m);
    assert Normalize(Vec2(0.0, -1.0), m) == Vec2(0.0, -1.0) by {
      assert Dot(Vec2(0.0, -1.0), Vec2(0.0, -1.0)) == 1.0;
    }
  }
}
