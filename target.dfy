/** `Target` and `MovingTargets` of cannon.py: circles that shells destroy on
    contact; the moving kind drifts and turns back at the walls. */
module Targets {
  import opened Arena
  import opened Shells

  /** What the simulation reads of a target. A stationary target has no
      velocity in the source; here its velocities are 0 and never read. */
  datatype TargetState = TargetState(coord: Vec, radius: int, moving: bool, xVelocity: int, yVelocity: int)

  /** `check_collision`: the distance between the centres is at most the sum
      of the radii. The source compares a float square root; here the squares
      are compared, which agrees with it whenever the radii sum is not negative
      and says "no collision" when it is, as the source does. */
  predicate Collides(targetCoord: Vec, targetRadius: int, shellCoord: Vec, shellRadius: int)
  {
    var reach := targetRadius + shellRadius;
    reach >= 0 && Sq(targetCoord[0] - shellCoord[0]) + Sq(targetCoord[1] - shellCoord[1]) <= Sq(reach)
  }

  /** `MovingTargets.move` (and the no-op `Target.move`): drift by the velocity,
      then reverse a velocity component whose axis is out of the arena. */
  function Drift(t: TargetState): TargetState
  {
    if !t.moving then t
    else
      var c := [t.coord[0] + t.xVelocity, t.coord[1] + t.yVelocity];
      var vx := if c[0] + t.radius > ScreenSize[0] || c[0] - t.radius < 0 then -t.xVelocity else t.xVelocity;
      var vy := if c[1] + t.radius > ScreenSize[1] || c[1] - t.radius < 0 then -t.yVelocity else t.yVelocity;
      TargetState(c, t.radius, t.moving, vx, vy)
  }

  /** Collision does not depend on which of the two circles is the target. */
  lemma CollisionSymmetric(a: Vec, ra: int, b: Vec, rb: int)
    ensures Collides(a, ra, b, rb) <==> Collides(b, rb, a, ra)
  {
    assert Sq(a[0] - b[0]) == Sq(b[0] - a[0]);
    assert Sq(a[1] - b[1]) == Sq(b[1] - a[1]);
  }

  /** A shell whose centre is inside the target always collides. */
  lemma CentreInsideCollides(t: Vec, rt: int, s: Vec, rs: int)
    requires rt >= 0 && rs >= 0
    requires Sq(t[0] - s[0]) + Sq(t[1] - s[1]) <= Sq(rt)
    ensures Collides(t, rt, s, rs)
  {
    MulMonoBoth(rt, rt + rs);
  }

  /** Circles further apart along one axis than their radii reach never collide. */
  lemma FarApartMisses(t: Vec, rt: int, s: Vec, rs: int, i: nat)
    requires i < 2
    requires rt + rs >= 0
    requires Abs(t[i] - s[i]) > rt + rs
    ensures !Collides(t, rt, s, rs)
  {
    var d := Abs(t[i] - s[i]);
    assert Sq(t[i] - s[i]) == d * d;
    assert (rt + rs) * (rt + rs) < d * d by { MulStrict(rt + rs, d); }
    assert Sq(t[1 - i] - s[1 - i]) >= 0;
  }

  /** A bigger shell collides with everything a smaller one does. */
  lemma CollisionGrowsWithRadius(t: Vec, rt: int, s: Vec, rs: int, rs': int)
    requires rt + rs >= 0 && rs <= rs'
    requires Collides(t, rt, s, rs)
    ensures Collides(t, rt, s, rs')
  {
    MulMonoBoth(rt + rs, rt + rs');
  }

  lemma MulMonoBoth(a: int, b: int)
    requires 0 <= a <= b
    ensures a * a <= b * b
  {
    assert a * a <= a * b;
  }

  lemma MulStrict(a: int, b: int)
    requires 0 <= a < b
    ensures a * a < b * b
  {
    assert a * a <= a * b;
  }

  /** A moving target shifts by exactly its velocity before the turn, and the
      turn only ever reverses a component: speeds are kept. A stationary
      target does not move. */
  lemma DriftShiftsAndKeepsSpeed(t: TargetState)
    ensures var d := Drift(t);
      && d.radius == t.radius && d.moving == t.moving
      && (t.moving ==> d.coord == [t.coord[0] + t.xVelocity, t.coord[1] + t.yVelocity])
      && (!t.moving ==> d == t)
      && Abs(d.xVelocity) == Abs(t.xVelocity) && Abs(d.yVelocity) == Abs(t.yVelocity)
  {
  }

  /** A moving target beyond a wall and still heading out turns back toward the
      arena on that axis. */
  lemma DriftTurnsBack(t: TargetState, i: nat)
    requires t.moving && i < 2
    requires var v := if i == 0 then t.xVelocity else t.yVelocity;
      var c := t.coord[i] + v;
      (c + t.radius > ScreenSize[i] && v > 0) || (c - t.radius < 0 && v < 0)
    ensures var d := Drift(t);
      var v := if i == 0 then t.xVelocity else t.yVelocity;
      var v' := if i == 0 then d.xVelocity else d.yVelocity;
      v' == -v
  {
  }

  /** Shorthand for the velocity bound the targets of a mission keep. */
  predicate SlowTarget(t: TargetState)
  {
    -2 <= t.xVelocity <= 2 && -2 <= t.yVelocity <= 2
  }

  /** Velocities drawn by `randint(-2, +2)` stay in [-2, 2] forever. */
  lemma DriftKeepsSlow(t: TargetState)
    requires SlowTarget(t)
    ensures SlowTarget(Drift(t))
  {
    DriftShiftsAndKeepsSpeed(t);
  }

  /** On one axis: a target past a wall is heading back, and fast enough to be
      back at the wall on its next move. */
  predicate AxisReturning(c: int, v: int, radius: int, extent: int)
  {
    && (c - radius < 0 ==> v > 0 && c - radius + v >= 0)
    && (c + radius > extent ==> v < 0 && c + radius + v <= extent)
  }

  predicate Returning(t: TargetState)
  {
    && AxisReturning(t.coord[0], t.xVelocity, t.radius, ScreenSize[0])
    && AxisReturning(t.coord[1], t.yVelocity, t.radius, ScreenSize[1])
  }

  /** A target that starts inside the arena can overshoot a wall by one move,
      but the flip that follows always brings it back: `Returning` is an
      invariant of `Drift`. */
  lemma DriftKeepsReturning(t: TargetState)
    requires Fits(t.radius)
    requires Returning(t)
    ensures Returning(Drift(t))
  {
    if t.moving {
      AxisStep(t.coord[0], t.xVelocity, t.radius, ScreenSize[0]);
      AxisStep(t.coord[1], t.yVelocity, t.radius, ScreenSize[1]);
    }
  }

  lemma AxisStep(c: int, v: int, radius: int, extent: int)
    requires 2 * radius <= extent
    requires AxisReturning(c, v, radius, extent)
    ensures var c' := c + v;
      var v' := if c' + radius > extent || c' - radius < 0 then -v else v;
      AxisReturning(c', v', radius, extent)
  {
  }

  /** Hence a target never strays more than its speed past a wall: with the
      velocities `randint(-2, 2)` draws, at most 2 units. */
  lemma ReturningStaysNear(t: TargetState)
    requires Returning(t)
    ensures t.radius - Abs(t.xVelocity) <= t.coord[0] <= ScreenSize[0] - t.radius + Abs(t.xVelocity)
    ensures t.radius - Abs(t.yVelocity) <= t.coord[1] <= ScreenSize[1] - t.radius + Abs(t.yVelocity)
  {
  }

  /** A target as the source's object; one class for both kinds, with `moving`
      telling a `MovingTargets` from a plain `Target`. */
  class Target {
    var coord: Vec
    const radius: int
    const moving: bool
    var xVelocity: int
    var yVelocity: int

    /** `Target(coord, radius)`. */
    constructor Stationary(coord: Vec, radius: int)
      ensures State() == TargetState(coord, radius, false, 0, 0)
    {
      this.coord := coord;
      this.radius := radius;
      this.moving := false;
      this.xVelocity := 0;
      this.yVelocity := 0;
    }

    /** `MovingTargets(coord, radius)` with the velocities it draws. */
    constructor Moving(coord: Vec, radius: int, xVelocity: int, yVelocity: int)
      ensures State() == TargetState(coord, radius, true, xVelocity, yVelocity)
    {
      this.coord := coord;
      this.radius := radius;
      this.moving := true;
      this.xVelocity := xVelocity;
      this.yVelocity := yVelocity;
    }

    function State(): TargetState
      reads this
    {
      TargetState(coord, radius, moving, xVelocity, yVelocity)
    }

    /** `check_collision(shell)`. */
    predicate CheckCollision(shell: Shell)
      reads this, shell
    {
      Collides(coord, radius, shell.coord, shell.radius)
    }

    /** `move()`. */
    method Move()
      modifies this
      ensures State() == Drift(old(State()))
    {
      if moving {
        coord := coord[0 := coord[0] + xVelocity];
        coord := coord[1 := coord[1] + yVelocity];
        if coord[0] + radius > ScreenSize[0] || coord[0] - radius < 0 {
          xVelocity := -xVelocity;
        }
        if coord[1] + radius > ScreenSize[1] || coord[1] - radius < 0 {
          yVelocity := -yVelocity;
        }
      }
    }
  }
}
