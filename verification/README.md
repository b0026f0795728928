# spacefight: a Dafny model of the frame logic

This project models the game logic at the core of `spacefight`, a
top-down 2D space game built on `ggez`. It covers four pieces:

- **Cruiser controls.** The Cruiser translator turns the five input keys
  into a `(steer, throttle)` pair.
- **Per-frame integrator.** `ActorNative::update` turns the heading,
  thrusts along the mid-step heading, applies the smooth-deceleration speed
  cap and advances the position by the trapezoidal rule.
- **Collision response.** `reflect` is the collision stub.
- **Frame bookkeeping.** `MainState::update` runs the update pass with its
  spawns, removes dead actors by reverse index and interacts every pair
  once. `Camera::new` fits every camera-tracked actor on screen.

All quantities are Dafny `real`s.

- `sin`, `cos` and `sqrt` are passed in as a `Numerics` record.
  `SqrtAxioms` asks of `sqrt` only that it returns the non-negative square
  root of a non-negative argument.
- The frame's time step is an explicit `time` parameter, since the game
  reads it from the `ggez` clock.
- The actor type in `main.rs` is a type parameter `A`. Its methods
  (`update`, `dead`, `interact`, `has_camera`, `get_pos`) are function
  parameters.

Modules:

- `RealMath` (`real_math.dfy`): the `f32` constant `TAU`, the abstract
  numerics, and `RemTau`, Rust's truncated `%` by `TAU`.
- `Ship` (`ship.dfy`): `ActorSpec`, `ActorNative`, `Input`, the Cruiser
  translator and the integrator.
- `Collision` (`collision.dfy`): `reflect`.
- `Specs` (`specs.dfy`): the `CRUISER` archetype.
- `Frame` (`frame.dfy`): `MainState::update`.
- `Framing` (`framing.dfy`): `Camera::new` and the camera convention
  screen = world * scale - left (the one the starfield plane with paralax
  1.0 uses).

The model follows the code, including where a reader might expect
otherwise:

- The heading is not wrapped into `[0, TAU)`. Rust's `%` keeps the sign of
  the dividend, so a left turn from heading 0 gives a negative heading
  (`Ship.HeadingCanBeNegative`, `Specs.CruiserThreeQuarterTurns`).
- The turn rate is `turnspeed * steer` directly. There is no turn
  acceleration.
- The thrust direction is `(sin c, -cos c)`, where `c` is the mid-step
  heading.
- The deceleration limit subtracts the raw `acceleration` from the start
  speed, not `acceleration * time` (`Ship.SpeedCapExact`).
- `reflect` only negates and halves each body's own velocity. It does no
  momentum-conserving exchange (`Collision.ReflectMomentum`,
  `Collision.ReflectLosesMomentum`).

## Model

| member | source | states |
|---|---|---|
| `RealMath.RemTau` | src/ship.rs:75 | `direction %= TAU` leaves a value strictly between -TAU and TAU with the sign of the dividend, differing from it by a whole number of turns |
| `RealMath.RemTauUnique` | src/ship.rs:75 | any value with those three properties is the remainder, so the remainder is fully determined by them |
| `RealMath.RemTauIdentity` | src/ship.rs:75 | a heading already strictly inside (-TAU, TAU) is left unchanged by the remainder |
| `Ship.CruiserControl` | src/ship.rs:146-156 | steer is 1 exactly for right-without-left, -1 exactly for left-without-right, and 0 exactly when both or neither are held; throttle is 1 exactly when thrust is held and 0 otherwise; steer lies in {-1, 0, 1} |
| `Ship.CruiserControlArithmetic` | src/ship.rs:147-153 | steer equals [right] - [left] and throttle equals [thrust] as 0/1 indicators, and the fire and secondary keys have no effect on the pair |
| `Ship.SpeedCap` | src/ship.rs:84-98 | the cap (guards `Ship.Rescales`, limit `Ship.CapLimit`) never increases the speed and keeps the velocity on its own line (the result is parallel to the thrusted velocity, reversed only for a negative `maxspeed`); when it does not rescale, the velocity passes through unchanged |
| `Ship.RescaledBy` | src/ship.rs:88-96 | when the cap applies, both components are multiplied by the same factor `limit / speed`, which is below 1 and is non-negative (positive) when `maxspeed` is non-negative (positive) |
| `Ship.SpeedCapExact` | src/ship.rs:88-96 | when the cap applies, the resulting speed is exactly max(maxspeed, start speed - acceleration), with the raw acceleration subtracted |
| `Ship.SpeedCapKeepsDirection` | src/ship.rs:94-96 | the capped velocity is parallel to the thrusted one and points the same way (non-negative dot product, positive when `maxspeed` and the velocity are non-zero) |
| `Ship.Accelerate` | src/ship.rs:77-99 | without throttle the velocity after the step is the start velocity |
| `Ship.Update` | src/ship.rs:62-105 | with turn rate `Ship.AngularVelocity`, mid-step heading `Ship.CentralDirection` and unwrapped heading `Ship.Turned`: the step keeps the specs; the new heading is strictly inside (-TAU, TAU), a whole number of turns from `direction + turnspeed * steer * time`, and of the same sign; zero throttle leaves `dx`/`dy` unchanged; each coordinate advances by exactly the mean of start and end velocity times `time` |
| `Ship.UpdateHeading` | src/ship.rs:65-75 | the new heading is the truncated remainder by TAU of `direction + turnspeed * steer * time`, whatever the throttle |
| `Ship.HeadingCanBeNegative` | src/ship.rs:74-75 | turning left from heading 0 by less than a full turn leaves the negative heading `-(turnspeed * time)`, not a value in [0, TAU) |
| `Ship.UpdateUncapped` | src/ship.rs:72-84 | with non-zero throttle and a thrusted speed within `maxspeed`, the new velocity is the start velocity plus `throttle * acceleration * (sin c, -cos c) * time` at the mid-step heading `c` (the thrusted velocity `Ship.Thrusted`) |
| `Ship.UpdateSpeedBound` | src/ship.rs:84-98 | after a throttled step the speed is at most max(maxspeed, start speed - acceleration) |
| `Ship.ActorUpdate` | src/ship.rs:43-47 | one actor step (Cruiser translation, then integration) leaves the velocity unchanged without thrust, and leaves the heading at its remainder (so unchanged when already inside (-TAU, TAU)) when neither or both turn keys are held |
| `Ship.NewActorStaysPut` | src/ship.rs:22-36 | a newly created actor (`Ship.NewActor`: at rest, heading 0) that does not thrust stays at its position and at rest |
| `Specs.CruiserThreeQuarterTurns` | src/ship/specs.rs:3-9 | the Cruiser archetype is well formed; one second of right turn from rest gives heading 0.75 TAU, one second of left turn gives -0.75 TAU, and it does not move |
| `Collision.Reflect` | src/ship/collision.rs:3-9 | each body's velocity becomes -0.5 times its own previous velocity, and position, heading and specs of both bodies are untouched |
| `Collision.ReflectIndependent` | src/ship/collision.rs:5-8 | each body's outcome does not depend on the other body, and swapping the arguments swaps the results |
| `Collision.ReflectHalvesSpeed` | src/ship/collision.rs:5-8 | each body's speed is exactly halved and its new velocity is parallel to and opposite the old one |
| `Collision.ReflectTwice` | src/ship/collision.rs:5-8 | two reflections leave each velocity at a quarter of its value, same direction, with everything else unchanged |
| `Collision.ReflectFixedPoint` | src/ship/collision.rs:5-8 | a pair is unchanged by `reflect` if and only if both bodies are at rest |
| `Collision.ReflectMomentum` | src/ship/collision.rs:5-8 | total momentum m1 v1 + m2 v2 is multiplied by -1/2, so it is conserved if and only if it was zero |
| `Collision.ReflectLosesMomentum` | src/ship/collision.rs:5-8 | a unit-mass body at speed 100 hitting one at rest: total momentum goes from (100, 0) to (-50, 0) |
| `Collision.ReflectHeadOn` | src/ship/collision.rs:5-8 | equal bodies meeting head-on at speed 100 each leave at speed 50 the opposite way, and the (zero) total momentum is conserved |
| `Frame.Others` | src/main.rs:54-57 | actor `k` is handed every other actor exactly once, in index order: the already updated ones before `k`, then the not yet updated ones after `k` |
| `Frame.UpdatePass` | src/main.rs:53-60 | the result is every actor updated in index order, each seeing the others as above, followed by all spawns in generation order (the `extra` buffer, `Frame.Spawned`), appended only after the whole pass |
| `Frame.UpdatePassUnique` | src/main.rs:53-60 | the updated actors of a pass are uniquely determined by the starting list and `update` |
| `Frame.RemoveDead` | src/main.rs:62-68 | reverse-index removal yields exactly the order-preserving filter of the non-dead actors |
| `Frame.AliveCount` | src/main.rs:62-68 | after removal each dead actor occurs zero times and each live one exactly as often as before |
| `Frame.AliveMembers` | src/main.rs:62-68 | an actor survives removal if and only if it was present and is not dead |
| `Frame.AliveAppend` | src/main.rs:62-68 | removal distributes over concatenation, so survivors keep their relative order |
| `Frame.PairOrder` | src/main.rs:70-76 | every pair visited has source index below dest index below the number of actors |
| `Frame.PairOrderComplete` | src/main.rs:70-76 | every pair `j < i` of actors is visited |
| `Frame.PairOrderIncreasing` | src/main.rs:70-76 | pairs are visited in strictly increasing order (by dest, then by source), so no pair is visited twice |
| `Frame.PairOrderLength` | src/main.rs:70-76 | exactly n(n-1)/2 pairs are visited, one per unordered pair |
| `Frame.ApplyPair` | src/main.rs:72-74 | one `interact` call replaces the source and dest actors by its results and leaves every other actor unchanged |
| `Frame.InteractAll` | src/main.rs:70-76 | the nested loop has the same effect as applying `interact` to the pairs in that order (inner loop `Frame.InteractRow`, one destination per call) |
| `Frame.FrameUpdate` | src/main.rs:50-79 | one frame is the update pass, then removal of dead actors among the updated and spawned ones, then one interaction per pair of survivors |
| `Framing.TrackedBox` | src/main.rs:160-181 | the fold gives no box exactly when no actor is tracked; otherwise the box is well formed and contains every tracked position |
| `Framing.TrackedBoxTight` | src/main.rs:165-181 | each side of the box is the coordinate of some tracked actor, so the box is the smallest one containing them |
| `Framing.Grow` | src/main.rs:166-180 | one step of the bounding-box fold: the result contains the new position and everything the previous box contained, and is well formed whenever the previous box was (or there was none) |
| `Framing.FrameBox` | src/main.rs:192-214 | framing a well-formed box yields a positive scale; its fit and centring are stated by `Framing.FrameBoxFits` and `Framing.FrameBoxCentres` |
| `Framing.NewCamera` | src/main.rs:157-215 | the scale is positive, and with no tracked actor the camera is the default left 0, top 0, scale 1 |
| `Framing.FrameBoxFits` | src/main.rs:192-202 | the box widened by the 360-unit margin fits the 1344 x 1080 play area at the chosen scale, and fills it exactly on one axis (`scale = min(scalex, scaley)`) |
| `Framing.FrameBoxCentres` | src/main.rs:204-214 | under the camera convention screen = world * scale - left, the centre of the box maps to the centre of the play area, right of the 288-pixel side panel |
| `Framing.CameraShowsTracked` | src/main.rs:157-215 | under the camera convention screen = world * scale - left, every tracked position maps inside the play area, at least the scaled margin away from each edge |

## Left out

- `main()`, window setup, `MainState::draw`, `Actor::draw`, `Starfield`,
  `Animation::new` and `Image::from_line`: rendering and asset loading.
  Only the camera convention of the starfield plane with paralax 1.0
  (src/main.rs:308 and 351-352) is modelled, as `Framing.ScreenX` and
  `Framing.ScreenY`.
- The actor drawing that takes a camera (called at src/main.rs:98) is not
  part of this model: the `Actor::draw` in `src/ship.rs` takes no camera
  and draws at the raw world position, so no claim is made about where
  actors appear on screen.
- `src/stats.rs`: the captain portrait UI is presentation only.
- `src/ship/units.rs`: quantities are plain `real`s. The unit
  `TSUI` is modelled as 1, and the gravitational constant `G` is unused.
- `UserControl::update`: it polls the keyboard. The `Input` it builds is a
  parameter of `Ship.ActorUpdate`.
- The `ggez` context: the frame time step `ctx.time.delta()` is the
  `time` parameter, and `Instant::now()` and the context given to actor
  updates are folded into the `update` parameter of `Frame`.
- The `image` field of `ActorNative`: only drawing uses it.
- `GameResult` errors: every modelled operation returns `Ok`. An error
  from an actor's `update` would abort the frame, and that is not modelled.
- `Actor`'s generator and translator are fixed to the `UserControl` and
  `Cruiser` pair, the only ones `Actor::new` builds.
- The actor methods `main.rs` calls on `Actor` (`update` with others,
  `dead`, `interact`, `has_camera`, `get_pos`) are not part of this model.
  They are parameters, so nothing is proved about what they do.
- Exact IEEE `f32` rounding, NaN and infinities. The `INFINITY` sentinel of
  `Camera::new` is modelled as an absent box (`Framing.TrackedBox` returns
  `None`), which agrees with the code unless a tracked actor sits at an
  infinite or NaN position (a NaN `x` fails `x < left`, so the code keeps
  the sentinel and returns the default camera).
- `sin` and `cos` are abstract. Nothing about their values is assumed.
- `Ship.UpdateSpeedBound`, `Ship.SpeedCapExact` and
  `Ship.SpeedCapKeepsDirection` require `maxspeed >= 0`, which every
  archetype satisfies. A negative `maxspeed` would make the cap reverse
  the velocity.
- Gravity, hitbox detection, turn acceleration and a momentum-conserving
  collision solve do not exist in this code and are not modelled.
