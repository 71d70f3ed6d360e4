/** `Cannon` of cannon.py: the player's gun, which charges while the mouse
    button is held, fires a shell on release and pans along the floor. */
module Cannons {
  import opened Arena
  import opened Shells

  /** The gun's default charge limits and the step `gain()` uses by default. */
  const MinPow := 10
  const MaxPow := 50
  const GainStep := 2

  /** The gun cannot be panned toward a wall once it is this close to it. */
  const WallMargin := 30

  /** `gain(increment)`: the charge grows only while the gun is active and
      below its maximum. */
  function Gained(active: bool, pow: int, maxPow: int, increment: int): int
  {
    if active && pow < maxPow then pow + increment else pow
  }

  /** `move(increment)`: the horizontal position after a pan request. */
  function Panned(x: int, increment: int): int
  {
    if (x > WallMargin || increment > 0) && (x < ScreenSize[0] - WallMargin || increment < 0)
    then x + increment
    else x
  }

  /** The charge levels reachable from `minPow` by steps of `GainStep`
      without passing `maxPow`. */
  predicate ChargeReachable(pow: int, minPow: int, maxPow: int)
  {
    minPow <= pow <= maxPow && (pow - minPow) % GainStep == 0
  }

  /** `gain` changes nothing unless the gun is active and below its maximum,
      and then adds exactly `increment`; so a charge that starts at most
      `maxPow + increment - 1` never goes beyond it. */
  lemma GainBounded(active: bool, pow: int, maxPow: int, increment: int)
    requires increment > 0
    requires pow <= maxPow + increment - 1
    ensures Gained(active, pow, maxPow, increment) <= maxPow + increment - 1
    ensures Gained(active, pow, maxPow, increment) != pow <==> active && pow < maxPow
    ensures Gained(active, pow, maxPow, increment) - pow in {0, increment}
  {
  }

  /** When the charge range is a whole number of default steps, charging never
      overshoots: with the defaults the charge stays an even number in [10, 50]. */
  lemma GainKeepsChargeReachable(active: bool, pow: int, minPow: int, maxPow: int)
    requires (maxPow - minPow) % GainStep == 0
    requires ChargeReachable(pow, minPow, maxPow)
    ensures ChargeReachable(Gained(active, pow, maxPow, GainStep), minPow, maxPow)
  {
  }

  /** The pan guard: a request toward a wall is ignored once the gun is within
      30 units of it; every other request moves the gun by exactly `increment`.
      The vertical coordinate is never touched (see `Cannon.Move`). */
  lemma PanGuard(x: int, increment: int)
    ensures (x <= WallMargin && increment <= 0) || (x >= ScreenSize[0] - WallMargin && increment >= 0)
      ==> Panned(x, increment) == x
    ensures !((x <= WallMargin && increment <= 0) || (x >= ScreenSize[0] - WallMargin && increment >= 0))
      ==> Panned(x, increment) == x + increment
  {
  }

  /** With steps of at most 5 the gun never leaves [25, 775]. */
  lemma PanStaysOnFloor(x: int, increment: int)
    requires WallMargin - 5 <= x <= ScreenSize[0] - WallMargin + 5
    requires -5 <= increment <= 5
    ensures WallMargin - 5 <= Panned(x, increment) <= ScreenSize[0] - WallMargin + 5
  {
  }

  class Cannon {
    var coord: Vec
    var angle: real
    const maxPow: int
    const minPow: int
    var active: bool
    var pow: int

    /** The constructor with the source's defaults: centred 30 units above the floor. */
    constructor (coord: Vec := [ScreenSize[0] / 2, ScreenSize[1] - 30], angle: real := 0.0,
                 maxPow: int := MaxPow, minPow: int := MinPow)
      ensures this.coord == coord && this.angle == angle
      ensures this.maxPow == maxPow && this.minPow == minPow
      ensures !active && pow == minPow
    {
      this.coord := coord;
      this.angle := angle;
      this.maxPow := maxPow;
      this.minPow := minPow;
      this.active := false;
      this.pow := minPow;
    }

    /** `activate()`: start charging. */
    method Activate()
      modifies this`active
      ensures active
    {
      active := true;
    }

    /** `gain(increment)`. */
    method Gain(increment: int)
      modifies this`pow
      ensures pow == Gained(active, old(pow), maxPow, increment)
    {
      if active && pow < maxPow {
        pow := pow + increment;
      }
    }

    /** `strike()`: a new shell at a copy of the gun's position, launched with
        `launch(pow, angle)` (the source's `int(pow * cos(angle))`,
        `int(pow * sin(angle))`); the charge then drops back to `minPow` and
        the gun stops charging. */
    method Strike(launch: (int, real) -> Vec) returns (ball: Shell)
      modifies this`pow, this`active
      ensures fresh(ball)
      ensures ball.State() == ShellState(coord, launch(old(pow), angle), ShellRadius, true)
      ensures pow == minPow && !active
    {
      ball := new Shell(coord, launch(pow, angle), ShellRadius);
      pow := minPow;
      active := false;
    }

    /** `set_angle(target_pos)`, with the arctangent computed by the caller. */
    method SetAngle(towards: real)
      modifies this`angle
      ensures angle == towards
    {
      angle := towards;
    }

    /** `move(increment)`: pan horizontally, guarded at the walls. */
    method Move(increment: int)
      modifies this`coord
      ensures coord == [Panned(old(coord[0]), increment), old(coord[1])]
    {
      if (coord[0] > WallMargin || increment > 0) && (coord[0] < ScreenSize[0] - WallMargin || increment < 0) {
        coord := coord[0 := coord[0] + increment];
      }
    }
  }
}
