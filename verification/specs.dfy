/** The compiled-in archetype constants of `ship/specs.rs`. */
module Specs {
  import opened RealMath
  import opened Ship

  /** The Cruiser archetype. */
  const CRUISER: ActorSpec := ActorSpec(
    radius := 88.5,
    maxspeed := 576.0,
    acceleration := 345.6,
    turnspeed := 0.75 * TAU,
    mass := 6.0
  )

  /**
   A Cruiser at rest, facing heading 0, holding one turn key and no thrust
   for one second: holding right turns it three quarters of a turn to
   0.75 TAU, holding left leaves the negative heading -0.75 TAU (the `%`
   does not wrap it into [0, TAU)), and it does not move.
   */
  lemma CruiserThreeQuarterTurns(m: Numerics, x: real, y: real)
    requires SqrtAxioms(m)
    ensures WellFormedSpec(CRUISER)
    ensures var right := ActorUpdate(m, NewActor(x, y, CRUISER), Input(false, true, false, false, false), 1.0);
            right.direction == 0.75 * TAU && right.x == x && right.y == y
    ensures var left := ActorUpdate(m, NewActor(x, y, CRUISER), Input(true, false, false, false, false), 1.0);
            left.direction == -0.75 * TAU && left.x == x && left.y == y
  {
    var start := NewActor(x, y, CRUISER);
    UpdateHeading(m, start, 1.0, 0.0, 1.0);
    UpdateHeading(m, start, -1.0, 0.0, 1.0);
    RemTauIdentity(Turned(start, 1.0, 1.0));
    RemTauIdentity(Turned(start, -1.0, 1.0));
  }
}
