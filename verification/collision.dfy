/**
 `reflect`, the collision response between two actors. It is a stub: each
 body's velocity is reversed and halved on its own, with no reference to the
 other body, its mass, or the contact geometry.
 */
module Collision {
  import opened RealMath
  import opened Ship

  /** Reverse and halve one body's velocity. */
  function Bounce(b: ActorNative): ActorNative {
    b.(dx := -b.dx * 0.5, dy := -b.dy * 0.5)
  }

  /** `reflect(left, right)`: both bodies bounce back at half their speed; nothing else changes. */
  function Reflect(left: ActorNative, right: ActorNative): (r: (ActorNative, ActorNative))
    ensures r.0.dx == -0.5 * left.dx && r.0.dy == -0.5 * left.dy
    ensures r.1.dx == -0.5 * right.dx && r.1.dy == -0.5 * right.dy
    ensures r.0.x == left.x && r.0.y == left.y && r.0.direction == left.direction && r.0.specs == left.specs
    ensures r.1.x == right.x && r.1.y == right.y && r.1.direction == right.direction && r.1.specs == right.specs
  {
    (Bounce(left), Bounce(right))
  }

  /** Each body's outcome depends on that body alone. */
  lemma ReflectIndependent(a: ActorNative, b: ActorNative, c: ActorNative)
    ensures Reflect(a, b).0 == Reflect(a, c).0
    ensures Reflect(b, a).1 == Reflect(c, a).1
    ensures Reflect(a, b) == (Reflect(b, a).1, Reflect(b, a).0)
  {
  }

  /**
   Each body's speed is exactly halved and each body's velocity points the
   opposite way: for both bodies the new velocity is parallel to the old one
   with a non-positive dot product.
   */
  lemma ReflectHalvesSpeed(m: Numerics, left: ActorNative, right: ActorNative)
    requires SqrtAxioms(m)
    ensures Speed(m, VelocityOf(Reflect(left, right).0)) == Speed(m, VelocityOf(left)) / 2.0
    ensures Speed(m, VelocityOf(Reflect(left, right).1)) == Speed(m, VelocityOf(right)) / 2.0
    ensures var l := Reflect(left, right).0;
            l.dx * left.dy == l.dy * left.dx && l.dx * left.dx + l.dy * left.dy <= 0.0
    ensures var r := Reflect(left, right).1;
            r.dx * right.dy == r.dy * right.dx && r.dx * right.dx + r.dy * right.dy <= 0.0
  {
    HalfSpeed(m, VelocityOf(left));
    HalfSpeed(m, VelocityOf(right));
  }

  lemma HalfSpeed(m: Numerics, v: Velocity)
    requires SqrtAxioms(m)
    ensures Speed(m, Velocity(-0.5 * v.dx, -0.5 * v.dy)) == Speed(m, v) / 2.0
  {
    var s := Speed(m, v);
    Root(m, Speed2(v));
    assert Speed2(Velocity(-0.5 * v.dx, -0.5 * v.dy)) == Speed2(v) / 4.0;
    SqrtUnique(m, Speed2(Velocity(-0.5 * v.dx, -0.5 * v.dy)), s / 2.0);
  }

  /** Reflecting twice leaves each velocity at a quarter of its original value, same direction. */
  lemma ReflectTwice(left: ActorNative, right: ActorNative)
    ensures var once := Reflect(left, right);
            var twice := Reflect(once.0, once.1);
            && twice.0 == left.(dx := 0.25 * left.dx, dy := 0.25 * left.dy)
            && twice.1 == right.(dx := 0.25 * right.dx, dy := 0.25 * right.dy)
  {
  }

  /** The pair is unchanged by `reflect` exactly when both bodies are at rest. */
  lemma ReflectFixedPoint(left: ActorNative, right: ActorNative)
    ensures Reflect(left, right) == (left, right)
            <==> left.dx == 0.0 && left.dy == 0.0 && right.dx == 0.0 && right.dy == 0.0
  {
    if Reflect(left, right) == (left, right) {
      assert -0.5 * left.dx == left.dx && -0.5 * left.dy == left.dy;
      assert -0.5 * right.dx == right.dx && -0.5 * right.dy == right.dy;
    }
  }

  /** A momentum vector: mass times velocity, per axis. */
  datatype Momentum = Momentum(px: real, py: real)

  /** Total momentum `m1 v1 + m2 v2` of a pair, per axis. */
  function TotalMomentum(left: ActorNative, right: ActorNative): Momentum {
    Momentum(left.specs.mass * left.dx + right.specs.mass * right.dx,
             left.specs.mass * left.dy + right.specs.mass * right.dy)
  }

  /**
   `reflect` scales the total momentum by -1/2, so it conserves momentum
   only when the total was already zero.
   */
  lemma ReflectMomentum(left: ActorNative, right: ActorNative)
    ensures var r := Reflect(left, right);
            var p := TotalMomentum(left, right);
            TotalMomentum(r.0, r.1) == Momentum(-0.5 * p.px, -0.5 * p.py)
    ensures var r := Reflect(left, right);
            TotalMomentum(r.0, r.1) == TotalMomentum(left, right) <==> TotalMomentum(left, right) == Momentum(0.0, 0.0)
  {
    var r := Reflect(left, right);
    var p := TotalMomentum(left, right);
    assert TotalMomentum(r.0, r.1).px == -0.5 * p.px;
    assert TotalMomentum(r.0, r.1).py == -0.5 * p.py;
  }

  /**
   A body moving alone into one at rest: total momentum flips sign and
   halves, so `reflect` does not conserve it.
   */
  lemma ReflectLosesMomentum(specs: ActorSpec, left: ActorNative, right: ActorNative)
    requires specs.mass == 1.0
    requires left == ActorNative(0.0, 0.0, 0.0, 100.0, 0.0, specs)
    requires right == ActorNative(19.0, 0.0, 0.0, 0.0, 0.0, specs)
    ensures TotalMomentum(left, right) == Momentum(100.0, 0.0)
    ensures TotalMomentum(Reflect(left, right).0, Reflect(left, right).1) == Momentum(-50.0, 0.0)
  {
  }

  /**
   Head-on collision of two equal bodies at equal and opposite speed 100:
   each ends with speed 50 in the opposite direction, and because the total
   momentum was zero it is (trivially) conserved.
   */
  lemma ReflectHeadOn(specs: ActorSpec, left: ActorNative, right: ActorNative)
    requires left == ActorNative(0.0, 0.0, 0.0, 100.0, 0.0, specs)
    requires right == ActorNative(19.0, 0.0, 0.0, -100.0, 0.0, specs)
    ensures Reflect(left, right).0.dx == -50.0 && Reflect(left, right).0.dy == 0.0
    ensures Reflect(left, right).1.dx == 50.0 && Reflect(left, right).1.dy == 0.0
    ensures TotalMomentum(Reflect(left, right).0, Reflect(left, right).1) == TotalMomentum(left, right)
  {
    ReflectMomentum(left, right);
  }
}
