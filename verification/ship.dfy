/**
 One actor of the game: its per-archetype constants (`ActorSpec`), its
 physical state (`ActorNative`), the Cruiser's translation of key input into
 steer and throttle, and the per-frame integrator `ActorNative::update`.

 The frame's elapsed time, which the game reads from its ggez context,
 is a parameter; the sprite image an actor carries is left out.
 */
module Ship {
  import opened RealMath

  /** Per-archetype constants, shared by every actor of the archetype. */
  datatype ActorSpec = ActorSpec(
    radius: real,       // world units
    maxspeed: real,     // world units per second
    acceleration: real, // world units per second squared
    turnspeed: real,    // radians per second
    mass: real          // arbitrary unit
  )

  /** The constants every real archetype has: nothing negative. */
  predicate WellFormedSpec(s: ActorSpec) {
    0.0 <= s.radius && 0.0 <= s.maxspeed && 0.0 <= s.acceleration && 0.0 <= s.turnspeed && 0.0 <= s.mass
  }

  /** Physical state of one actor: position, heading and velocity. */
  datatype ActorNative = ActorNative(x: real, y: real, direction: real, dx: real, dy: real, specs: ActorSpec)

  datatype Velocity = Velocity(dx: real, dy: real)

  function VelocityOf(b: ActorNative): Velocity {
    Velocity(b.dx, b.dy)
  }

  /** Squared speed, the quantity the integrator compares against `maxspeed * maxspeed`. */
  function Speed2(v: Velocity): (s: real)
    ensures 0.0 <= s
  {
    v.dx * v.dx + v.dy * v.dy
  }

  function Speed(m: Numerics, v: Velocity): real {
    m.sqrt(Speed2(v))
  }

  /** `Actor::new`: an actor placed at `(x, y)`, at rest and facing heading 0. */
  function NewActor(x: real, y: real, specs: ActorSpec): ActorNative {
    ActorNative(x, y, 0.0, 0.0, 0.0, specs)
  }

  // ---------------------------------------------------------------------------
  // Input and the Cruiser translator
  // ---------------------------------------------------------------------------

  /** The five held keys one frame of input reports. */
  datatype Input = Input(left: bool, right: bool, thrust: bool, fire: bool, secondary: bool)

  /** What a translator hands to the integrator. */
  datatype Control = Control(steer: real, throttle: real)

  /** `Cruiser::update`: opposite turn keys cancel; thrust is all or nothing. */
  function CruiserControl(input: Input): (c: Control)
    ensures c.steer == 1.0 <==> input.right && !input.left
    ensures c.steer == -1.0 <==> input.left && !input.right
    ensures c.steer == 0.0 <==> input.left == input.right
    ensures c.steer in {-1.0, 0.0, 1.0}
    ensures c.throttle == 1.0 <==> input.thrust
    ensures c.throttle == 0.0 <==> !input.thrust
  {
    var steer := if input.right then (if input.left then 0.0 else 1.0)
                 else (if input.left then -1.0 else 0.0);
    var throttle := if input.thrust then 1.0 else 0.0;
    Control(steer, throttle)
  }

  function Indicator(b: bool): real {
    if b then 1.0 else 0.0
  }

  /**
   An independent reading of the translator: steer is "right minus left",
   throttle is "thrust held", and the fire and secondary keys have no effect.
   */
  lemma CruiserControlArithmetic(input: Input, fire: bool, secondary: bool)
    ensures CruiserControl(input).steer == Indicator(input.right) - Indicator(input.left)
    ensures CruiserControl(input).throttle == Indicator(input.thrust)
    ensures CruiserControl(input.(fire := fire, secondary := secondary)) == CruiserControl(input)
  {
  }

  // ---------------------------------------------------------------------------
  // The integrator, ActorNative::update
  // ---------------------------------------------------------------------------

  /** Turning is instantaneous: the angular velocity is the steer times the turn rate. */
  function AngularVelocity(specs: ActorSpec, steer: real): real {
    specs.turnspeed * steer
  }

  /** Heading at the end of the step, before it is taken `% TAU`. */
  function Turned(b: ActorNative, steer: real, time: real): real {
    b.direction + AngularVelocity(b.specs, steer) * time
  }

  /** Heading half way through the step, at which thrust is applied. */
  function CentralDirection(b: ActorNative, steer: real, time: real): real {
    b.direction + AngularVelocity(b.specs, steer) * time / 2.0
  }

  /** Velocity after thrusting along `(sin c, -cos c)` for `time`, before the speed cap. */
  function Thrusted(m: Numerics, b: ActorNative, throttle: real, c: real, time: real): Velocity {
    var ax := throttle * b.specs.acceleration * m.sin(c);
    var ay := throttle * b.specs.acceleration * -m.cos(c);
    Velocity(b.dx + ax * time, b.dy + ay * time)
  }

  /** `v` scaled by the factor `f`. */
  function Scale(v: Velocity, f: real): Velocity {
    Velocity(v.dx * f, v.dy * f)
  }

  /** Dot product of two velocities. */
  function Dot(a: Velocity, b: Velocity): real {
    a.dx * b.dx + a.dy * b.dy
  }

  /** Cross product of two velocities: zero exactly when they lie on one line through the origin. */
  function Cross(a: Velocity, b: Velocity): real {
    a.dx * b.dy - a.dy * b.dx
  }

  /**
   The speed cap rescales only when the thrusted speed exceeds both
   `maxspeed` and the start speed less the raw `acceleration`.
   */
  ghost predicate Rescales(m: Numerics, specs: ActorSpec, start: Velocity, v: Velocity) {
    Speed2(v) > specs.maxspeed * specs.maxspeed && Speed(m, v) > Speed(m, start) - specs.acceleration
  }

  /** The speed `SpeedCap` rescales to: the start speed less `acceleration`, but never below `maxspeed`. */
  function CapLimit(m: Numerics, specs: ActorSpec, start: Velocity): real {
    var limit := Speed(m, start) - specs.acceleration;
    if limit < specs.maxspeed then specs.maxspeed else limit
  }

  /**
   The speed cap applied after thrusting. It only ever shortens the velocity
   along its own line, and leaves it alone unless `Rescales` holds.
   */
  function SpeedCap(m: Numerics, specs: ActorSpec, start: Velocity, v: Velocity): (r: Velocity)
    requires SqrtAxioms(m)
    ensures Speed2(r) <= Speed2(v)
    ensures Cross(r, v) == 0.0
    ensures !Rescales(m, specs, start, v) ==> r == v
  {
    SelfCross(v);
    if Speed2(v) > specs.maxspeed * specs.maxspeed then
      var speed := Speed(m, v);
      var limit := Speed(m, start) - specs.acceleration;
      if speed > limit then
        var limit' := if limit < specs.maxspeed then specs.maxspeed else limit;
        CapShrinks(m, specs.maxspeed, v, limit, limit');
        Scale(v, limit' / speed)
      else
        v
    else
      v
  }

  /**
   When the cap rescales, the speed is positive and the rescaling factor
   lies strictly inside (-1, 1), so it never lengthens the velocity and
   keeps it on its own line.
   */
  lemma CapShrinks(m: Numerics, maxspeed: real, v: Velocity, limit: real, limit': real)
    requires SqrtAxioms(m)
    requires Speed2(v) > maxspeed * maxspeed
    requires limit < Speed(m, v)
    requires limit' == if limit < maxspeed then maxspeed else limit
    ensures 0.0 < Speed(m, v)
    ensures -1.0 < limit' / Speed(m, v) < 1.0
    ensures Speed2(Scale(v, limit' / Speed(m, v))) <= Speed2(v)
    ensures Cross(Scale(v, limit' / Speed(m, v)), v) == 0.0
  {
    PositiveSpeed(m, maxspeed, v);
    UnitQuotient(limit', Speed(m, v));
    ScaledShrinks(v, limit' / Speed(m, v));
    ScaledCross(v, limit' / Speed(m, v));
  }

  /** A velocity whose squared speed exceeds `a * a` has a positive speed above `a` and `-a`. */
  lemma PositiveSpeed(m: Numerics, a: real, v: Velocity)
    requires SqrtAxioms(m)
    requires Speed2(v) > a * a
    ensures 0.0 < Speed(m, v)
    ensures -Speed(m, v) < a < Speed(m, v)
  {
    Root(m, Speed2(v));
    AboveSquare(Speed(m, v), a);
  }

  /** A non-negative number whose square exceeds `a * a` exceeds both `a` and `-a`. */
  lemma AboveSquare(s: real, a: real)
    requires 0.0 <= s && s * s > a * a
    ensures -s < a < s
  {
  }

  /** A quotient by a positive number whose numerator lies in (-s, s) lies in (-1, 1). */
  lemma UnitQuotient(l: real, s: real)
    requires 0.0 < s && -s < l < s
    ensures -1.0 < l / s < 1.0
  {
  }

  lemma ScaledSpeed2(v: Velocity, f: real)
    ensures Speed2(Scale(v, f)) == f * f * Speed2(v)
  {
  }

  lemma ShrunkSquare(f: real, x: real)
    requires -1.0 < f < 1.0 && 0.0 <= x
    ensures f * f * x <= x
  {
  }

  /** Scaling by a factor inside (-1, 1) does not increase the squared speed. */
  lemma ScaledShrinks(v: Velocity, f: real)
    requires -1.0 < f < 1.0
    ensures Speed2(Scale(v, f)) <= Speed2(v)
  {
    ScaledSpeed2(v, f);
    ShrunkSquare(f, Speed2(v));
  }

  lemma ScaledCross(v: Velocity, f: real)
    ensures Cross(Scale(v, f), v) == 0.0
  {
  }

  lemma SelfCross(v: Velocity)
    ensures Cross(v, v) == 0.0
  {
  }

  /**
   `ActorNative::update`: advance one actor by one frame of `time` seconds
   under the given steer and throttle.
   */
  function Update(m: Numerics, b: ActorNative, steer: real, throttle: real, time: real): (r: ActorNative)
    requires SqrtAxioms(m)
    ensures r.specs == b.specs
    ensures -TAU < r.direction < TAU
    ensures IsWholeTurns(Turned(b, steer, time) - r.direction)
    ensures 0.0 <= Turned(b, steer, time) ==> 0.0 <= r.direction
    ensures Turned(b, steer, time) <= 0.0 ==> r.direction <= 0.0
    ensures throttle == 0.0 ==> r.dx == b.dx && r.dy == b.dy
    ensures r.x - b.x == (b.dx + r.dx) / 2.0 * time
    ensures r.y - b.y == (b.dy + r.dy) / 2.0 * time
  {
    var v := Accelerate(m, b, steer, throttle, time);
    ActorNative(b.x + (b.dx + v.dx) / 2.0 * time, b.y + (b.dy + v.dy) / 2.0 * time, RemTau(Turned(b, steer, time)), v.dx, v.dy, b.specs)
  }

  /** The velocity at the end of the step: thrust then the speed cap, or unchanged without throttle. */
  function Accelerate(m: Numerics, b: ActorNative, steer: real, throttle: real, time: real): (v: Velocity)
    requires SqrtAxioms(m)
    ensures throttle == 0.0 ==> v == VelocityOf(b)
  {
    var start := VelocityOf(b);
    if throttle != 0.0 then SpeedCap(m, b.specs, start, Thrusted(m, b, throttle, CentralDirection(b, steer, time), time))
    else start
  }

  /**
   While the thrusted speed stays within `maxspeed`, the new velocity is the
   start velocity plus the thrust `throttle * acceleration * (sin c, -cos c)`
   over `time`, with `c` the heading half way through the turn.
   */
  lemma UpdateUncapped(m: Numerics, b: ActorNative, steer: real, throttle: real, time: real, c: real, vx: real, vy: real)
    requires SqrtAxioms(m)
    requires throttle != 0.0
    requires c == b.direction + b.specs.turnspeed * steer * time / 2.0
    requires vx == b.dx + throttle * b.specs.acceleration * m.sin(c) * time
    requires vy == b.dy - throttle * b.specs.acceleration * m.cos(c) * time
    requires vx * vx + vy * vy <= b.specs.maxspeed * b.specs.maxspeed
    ensures Update(m, b, steer, throttle, time).dx == vx
    ensures Update(m, b, steer, throttle, time).dy == vy
  {
    assert CentralDirection(b, steer, time) == c;
    var v := Thrusted(m, b, throttle, c, time);
    assert v == Velocity(vx, vy);
    assert Speed2(v) == vx * vx + vy * vy;
    assert !(Speed2(v) > b.specs.maxspeed * b.specs.maxspeed);
    assert !Rescales(m, b.specs, VelocityOf(b), v);
    assert SpeedCap(m, b.specs, VelocityOf(b), v) == v;
  }

  /**
   After a throttled step the speed is at most `maxspeed`, or at most the
   start speed less `acceleration` when that is larger: thrust can never
   push an actor past both.
   */
  lemma UpdateSpeedBound(m: Numerics, b: ActorNative, steer: real, throttle: real, time: real)
    requires SqrtAxioms(m)
    requires throttle != 0.0
    requires 0.0 <= b.specs.maxspeed
    ensures Speed(m, VelocityOf(Update(m, b, steer, throttle, time)))
            <= Max(b.specs.maxspeed, Speed(m, VelocityOf(b)) - b.specs.acceleration)
  {
    var specs := b.specs;
    var start := VelocityOf(b);
    var v := Thrusted(m, b, throttle, CentralDirection(b, steer, time), time);
    var r := VelocityOf(Update(m, b, steer, throttle, time));
    var bound := Max(specs.maxspeed, Speed(m, start) - specs.acceleration);
    assert r == SpeedCap(m, specs, start, v);
    if Rescales(m, specs, start, v) {
      SpeedCapExact(m, specs, start, v);
    } else if Speed2(v) > specs.maxspeed * specs.maxspeed {
      assert Speed(m, v) <= Speed(m, start) - specs.acceleration;
      Root(m, Speed2(v));
    } else {
      SqrtAtMost(m, Speed2(r), specs.maxspeed);
    }
  }

  /**
   When the cap rescales, the new speed is exactly the larger of `maxspeed`
   and the start speed less the raw `acceleration` (not `acceleration` times
   the step): an overload smaller than `acceleration` is removed in one frame.
   */
  lemma SpeedCapExact(m: Numerics, specs: ActorSpec, start: Velocity, v: Velocity)
    requires SqrtAxioms(m)
    requires 0.0 <= specs.maxspeed
    requires Rescales(m, specs, start, v)
    ensures Speed(m, SpeedCap(m, specs, start, v)) == Max(specs.maxspeed, Speed(m, start) - specs.acceleration)
    ensures Speed(m, SpeedCap(m, specs, start, v)) >= specs.maxspeed
    ensures Speed(m, SpeedCap(m, specs, start, v)) >= Speed(m, start) - specs.acceleration
  {
    var factor := RescaledBy(m, specs, start, v);
    RescaledSpeed(m, v, CapLimit(m, specs, start));
  }

  /** Scaling a moving velocity by `l / speed` gives it speed exactly `l`. */
  lemma RescaledSpeed(m: Numerics, v: Velocity, l: real)
    requires SqrtAxioms(m)
    requires 0.0 < Speed(m, v) && 0.0 <= l
    ensures Speed(m, Scale(v, l / Speed(m, v))) == l
  {
    Root(m, Speed2(v));
    ScaledSpeed2(v, l / Speed(m, v));
    QuotientSquare(l, Speed(m, v), Speed2(v));
    SqrtUnique(m, Speed2(Scale(v, l / Speed(m, v))), l);
  }

  lemma QuotientSquare(l: real, s: real, q: real)
    requires 0.0 < s && s * s == q
    ensures (l / s) * (l / s) * q == l * l
  {
    assert (l / s) * s == l;
  }

  /**
   With a non-negative `maxspeed` the cap keeps the velocity's direction:
   the result is parallel to the thrusted velocity and never points against
   it, and with a positive `maxspeed` a moving actor keeps moving.
   */
  lemma SpeedCapKeepsDirection(m: Numerics, specs: ActorSpec, start: Velocity, v: Velocity)
    requires SqrtAxioms(m)
    requires 0.0 <= specs.maxspeed
    ensures Cross(SpeedCap(m, specs, start, v), v) == 0.0
    ensures 0.0 <= Dot(SpeedCap(m, specs, start, v), v)
    ensures 0.0 < specs.maxspeed && Speed2(v) != 0.0 ==> 0.0 < Dot(SpeedCap(m, specs, start, v), v)
  {
    if Rescales(m, specs, start, v) {
      RescaledKeepsDirection(m, specs, start, v);
    } else {
      SelfDot(SpeedCap(m, specs, start, v), v);
    }
  }

  lemma RescaledKeepsDirection(m: Numerics, specs: ActorSpec, start: Velocity, v: Velocity)
    requires SqrtAxioms(m)
    requires 0.0 <= specs.maxspeed
    requires Rescales(m, specs, start, v)
    ensures 0.0 <= Dot(SpeedCap(m, specs, start, v), v)
    ensures 0.0 < specs.maxspeed ==> 0.0 < Dot(SpeedCap(m, specs, start, v), v)
  {
    var factor := RescaledBy(m, specs, start, v);
    ScaledDot(v, factor);
    PositiveQuotient(CapLimit(m, specs, start), Speed(m, v));
    if 0.0 < specs.maxspeed {
      PositiveProduct(specs.maxspeed, specs.maxspeed);
      PositiveProduct(factor, Speed2(v));
    } else {
      NonNegativeProduct(factor, Speed2(v));
    }
  }

  lemma SelfDot(r: Velocity, v: Velocity)
    requires r == v
    ensures 0.0 <= Dot(r, v)
    ensures Speed2(v) != 0.0 ==> 0.0 < Dot(r, v)
  {
    assert Dot(r, v) == Speed2(v);
  }

  /**
   When the cap rescales, it multiplies both components by the one factor
   `CapLimit / speed`, which lies in [0, 1) for a non-negative `maxspeed`
   and is positive for a positive one.
   */
  lemma RescaledBy(m: Numerics, specs: ActorSpec, start: Velocity, v: Velocity) returns (factor: real)
    requires SqrtAxioms(m)
    requires Rescales(m, specs, start, v)
    ensures 0.0 < Speed(m, v)
    ensures factor == CapLimit(m, specs, start) / Speed(m, v)
    ensures SpeedCap(m, specs, start, v) == Scale(v, factor)
    ensures factor < 1.0
    ensures 0.0 <= specs.maxspeed ==> 0.0 <= factor
    ensures 0.0 < specs.maxspeed ==> 0.0 < factor
  {
    PositiveSpeed(m, specs.maxspeed, v);
    var limit := Speed(m, start) - specs.acceleration;
    CapShrinks(m, specs.maxspeed, v, limit, CapLimit(m, specs, start));
    factor := CapLimit(m, specs, start) / Speed(m, v);
    if 0.0 <= specs.maxspeed {
      PositiveQuotient(CapLimit(m, specs, start), Speed(m, v));
    }
  }

  lemma ScaledDot(v: Velocity, f: real)
    ensures Dot(Scale(v, f), v) == f * Speed2(v)
  {
  }

  lemma NonNegativeProduct(a: real, b: real)
    requires 0.0 <= a && 0.0 <= b
    ensures 0.0 <= a * b
  {
  }

  lemma PositiveQuotient(l: real, s: real)
    requires 0.0 <= l && 0.0 < s
    ensures 0.0 <= l / s
    ensures 0.0 < l ==> 0.0 < l / s
  {
  }

  /**
   The stored heading can be negative: steering left from heading 0 leaves
   a heading in (-TAU, 0), not one wrapped into [0, TAU).
   */
  lemma HeadingCanBeNegative(m: Numerics, b: ActorNative, throttle: real, time: real)
    requires SqrtAxioms(m)
    requires b.direction == 0.0
    requires 0.0 < b.specs.turnspeed * time < TAU
    ensures Update(m, b, -1.0, throttle, time).direction == -(b.specs.turnspeed * time)
    ensures Update(m, b, -1.0, throttle, time).direction < 0.0
  {
    UpdateHeading(m, b, -1.0, throttle, time);
    LeftTurn(b, time);
    RemTauIdentity(Turned(b, -1.0, time));
  }

  lemma LeftTurn(b: ActorNative, time: real)
    requires b.direction == 0.0
    ensures Turned(b, -1.0, time) == -(b.specs.turnspeed * time)
  {
  }

  /**
   The new heading is the old one advanced by `turnspeed * steer * time`,
   taken `% TAU`: the contract of `Update` pins it down completely.
   */
  lemma UpdateHeading(m: Numerics, b: ActorNative, steer: real, throttle: real, time: real)
    requires SqrtAxioms(m)
    ensures Update(m, b, steer, throttle, time).direction == RemTau(Turned(b, steer, time))
  {
    RemTauUnique(Turned(b, steer, time), Update(m, b, steer, throttle, time).direction);
  }

  // ---------------------------------------------------------------------------
  // Actor::update with the Cruiser translator
  // ---------------------------------------------------------------------------

  /**
   `Actor::update` for a Cruiser: the integrator driven by the translated
   input. The keyboard state that `UserControl` polls is the `input` parameter.
   */
  function ActorUpdate(m: Numerics, native: ActorNative, input: Input, time: real): (r: ActorNative)
    requires SqrtAxioms(m)
    ensures !input.thrust ==> VelocityOf(r) == VelocityOf(native)
    ensures input.left == input.right ==> r.direction == RemTau(native.direction)
    ensures input.left == input.right && -TAU < native.direction < TAU ==> r.direction == native.direction
  {
    var control := CruiserControl(input);
    UpdateHeading(m, native, control.steer, control.throttle, time);
    StraightHeading(native, control.steer, time);
    Update(m, native, control.steer, control.throttle, time)
  }

  /** With no steer the heading is unchanged before the `% TAU`, which then leaves it alone inside (-TAU, TAU). */
  lemma StraightHeading(b: ActorNative, steer: real, time: real)
    ensures steer == 0.0 ==> Turned(b, steer, time) == b.direction
    ensures -TAU < b.direction < TAU ==> RemTau(b.direction) == b.direction
  {
    if -TAU < b.direction < TAU {
      RemTauIdentity(b.direction);
    }
  }

  /** A freshly created actor that does not thrust stays where it was placed, at rest. */
  lemma NewActorStaysPut(m: Numerics, x: real, y: real, specs: ActorSpec, input: Input, time: real)
    requires SqrtAxioms(m)
    requires !input.thrust
    ensures var r := ActorUpdate(m, NewActor(x, y, specs), input, time);
            r.x == x && r.y == y && r.dx == 0.0 && r.dy == 0.0
  {
  }
}
