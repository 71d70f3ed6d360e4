/** `Shell` of cannon.py: a ball that falls under gravity and bounces
    inelastically off the four walls of the arena. */
module Shells {
  import opened Arena

  /** Position and velocity of a shell, the two lists `check_corners` rewrites. */
  datatype Motion = Motion(coord: Vec, velocity: Vec)

  /** Everything the simulation reads of a shell (its colour is rendering only). */
  datatype ShellState = ShellState(coord: Vec, velocity: Vec, radius: int, isAlive: bool)

  /** Default radius of a shell made by `Cannon.strike`. */
  const ShellRadius := 20

  function Sq(x: int): int
  {
    x * x
  }

  /** Both coordinates of a ball of this radius lie inside the arena. */
  predicate InArena(coord: Vec, radius: int)
  {
    forall i :: 0 <= i < 2 ==> radius <= coord[i] <= ScreenSize[i] - radius
  }

  /** The arena is wide and high enough for a ball of this radius. */
  predicate Fits(radius: int)
  {
    2 * radius <= ScreenSize[0] && 2 * radius <= ScreenSize[1]
  }

  /** One pass of the loop in `check_corners`, for axis i: clamp to the wall,
      reverse and damp the normal component, damp the tangential one. */
  function CornerAxis(m: Motion, radius: int, i: nat): Motion
    requires i < 2
  {
    var v := m.velocity;
    if m.coord[i] < radius then
      Motion(m.coord[i := radius], v[i := Ort(v[i])][1 - i := Par(v[1 - i])])
    else if m.coord[i] > ScreenSize[i] - radius then
      Motion(m.coord[i := ScreenSize[i] - radius], v[i := Ort(v[i])][1 - i := Par(v[1 - i])])
    else
      m
  }

  /** The first `axes` passes of `check_corners`; `Corners(m, r, 2)` is the whole call. */
  function Corners(m: Motion, radius: int, axes: nat): Motion
    requires axes <= 2
  {
    if axes == 0 then m else CornerAxis(Corners(m, radius, axes - 1), radius, axes - 1)
  }

  /** `Shell.move`: gravity is added to the vertical velocity first, the
      position then advances by `time` times the new velocity, the walls reflect
      the shell, and a slow shell near the floor is marked dead. */
  function Step(s: ShellState, time: int, gravity: int): ShellState
  {
    var v := s.velocity[1 := s.velocity[1] + gravity];
    var c := [s.coord[0] + time * v[0], s.coord[1] + time * v[1]];
    var m := Corners(Motion(c, v), s.radius, 2);
    var dies := Sq(m.velocity[0]) + Sq(m.velocity[1]) < 4 && m.coord[1] > ScreenSize[1] - 2 * s.radius;
    ShellState(m.coord, m.velocity, s.radius, s.isAlive && !dies)
  }

  /** `a` is zero or points against `b`. */
  predicate Opposed(a: int, b: int)
  {
    (b > 0 ==> a <= 0) && (b < 0 ==> a >= 0) && (b == 0 ==> a == 0)
  }

  /** `a` is zero or points the same way as `b`. */
  predicate Aligned(a: int, b: int)
  {
    (b > 0 ==> a >= 0) && (b < 0 ==> a <= 0) && (b == 0 ==> a == 0)
  }

  /** A wall hit on axis i puts the shell on the wall, reverses the normal
      velocity (or stops it) without letting it grow, and damps the tangential
      velocity without changing its sign. */
  lemma WallHitReflects(m: Motion, radius: int, i: nat)
    requires i < 2
    requires m.coord[i] < radius || m.coord[i] > ScreenSize[i] - radius
    ensures var r := CornerAxis(m, radius, i);
      && r.coord[i] == (if m.coord[i] < radius then radius else ScreenSize[i] - radius)
      && r.coord[1 - i] == m.coord[1 - i]
      && Opposed(r.velocity[i], m.velocity[i]) && Abs(r.velocity[i]) <= Abs(m.velocity[i])
      && Aligned(r.velocity[1 - i], m.velocity[1 - i]) && Abs(r.velocity[1 - i]) <= Abs(m.velocity[1 - i])
  {
    var v := m.velocity;
    OrtFlipsAndDamps(v[i]);
    ParKeepsSignAndDamps(v[1 - i]);
  }

  /** A pass that finds no wall changes nothing; a pass that does changes only
      the velocity and that axis' coordinate, and never speeds the shell up. */
  lemma CornerAxisDamps(m: Motion, radius: int, i: nat)
    requires i < 2
    ensures var r := CornerAxis(m, radius, i);
      && r.coord[1 - i] == m.coord[1 - i]
      && Abs(r.velocity[0]) <= Abs(m.velocity[0])
      && Abs(r.velocity[1]) <= Abs(m.velocity[1])
      && (radius <= m.coord[i] <= ScreenSize[i] - radius ==> r == m)
  {
    if m.coord[i] < radius || m.coord[i] > ScreenSize[i] - radius {
      WallHitReflects(m, radius, i);
    }
  }

  /** After `check_corners` both coordinates lie in [radius, size - radius]. */
  lemma {:induction false} CornersInArena(m: Motion, radius: int)
    requires Fits(radius)
    ensures InArena(Corners(m, radius, 2).coord, radius)
  {
    var m1 := Corners(m, radius, 1);
    var m2 := Corners(m, radius, 2);
    assert Corners(m, radius, 0) == m;
    assert m1 == CornerAxis(m, radius, 0);
    assert m2 == CornerAxis(m1, radius, 1);
    CornerAxisDamps(m1, radius, 1);
    assert radius <= m1.coord[0] <= ScreenSize[0] - radius;
  }

  /** `check_corners` on a shell that is already inside the arena changes nothing. */
  lemma {:induction false} CornersKeepInArena(m: Motion, radius: int)
    requires InArena(m.coord, radius)
    ensures Corners(m, radius, 2) == m
  {
    assert Corners(m, radius, 0) == m;
    CornerAxisDamps(m, radius, 0);
    assert Corners(m, radius, 1) == m;
    CornerAxisDamps(m, radius, 1);
  }

  /** Hence `check_corners` is idempotent. */
  lemma CornersIdempotent(m: Motion, radius: int)
    requires Fits(radius)
    ensures Corners(Corners(m, radius, 2), radius, 2) == Corners(m, radius, 2)
  {
    CornersInArena(m, radius);
    CornersKeepInArena(Corners(m, radius, 2), radius);
  }

  /** `check_corners` never makes either velocity component larger. */
  lemma {:induction false} CornersNeverSpeedUp(m: Motion, radius: int)
    ensures var r := Corners(m, radius, 2);
      Abs(r.velocity[0]) <= Abs(m.velocity[0]) && Abs(r.velocity[1]) <= Abs(m.velocity[1])
  {
    var m1 := Corners(m, radius, 1);
    assert Corners(m, radius, 0) == m;
    assert m1 == CornerAxis(m, radius, 0);
    CornerAxisDamps(m, radius, 0);
    CornerAxisDamps(m1, radius, 1);
  }

  /** A step keeps a shell inside the arena, keeps its radius, and never
      brings a dead shell back to life. */
  lemma StepStaysInArena(s: ShellState, time: int, gravity: int)
    requires Fits(s.radius)
    ensures InArena(Step(s, time, gravity).coord, s.radius)
    ensures Step(s, time, gravity).radius == s.radius
    ensures !s.isAlive ==> !Step(s, time, gravity).isAlive
  {
    var v := s.velocity[1 := s.velocity[1] + gravity];
    var c := [s.coord[0] + time * v[0], s.coord[1] + time * v[1]];
    CornersInArena(Motion(c, v), s.radius);
  }

  /** A shell is dead after a step exactly when it was dead before, or when
      after the bounce its squared speed is below 4 and it is lower than two
      radii above the floor: a step never revives a shell. */
  lemma DeathRule(s: ShellState, time: int, gravity: int)
    ensures var r := Step(s, time, gravity);
      !r.isAlive <==>
        (!s.isAlive || (Sq(r.velocity[0]) + Sq(r.velocity[1]) < 4 && r.coord[1] > ScreenSize[1] - 2 * s.radius))
  {
  }

  /** Gravity is applied before the position moves: away from the walls the
      new position is the old one plus `time` times the already accelerated
      velocity. */
  lemma GravityBeforeMove(s: ShellState, time: int, gravity: int)
    requires var v := s.velocity[1 := s.velocity[1] + gravity];
      InArena([s.coord[0] + time * v[0], s.coord[1] + time * v[1]], s.radius)
    ensures Step(s, time, gravity).velocity == [s.velocity[0], s.velocity[1] + gravity]
    ensures Step(s, time, gravity).coord
      == [s.coord[0] + time * s.velocity[0], s.coord[1] + time * (s.velocity[1] + gravity)]
  {
    var v := s.velocity[1 := s.velocity[1] + gravity];
    var c := [s.coord[0] + time * v[0], s.coord[1] + time * v[1]];
    CornersKeepInArena(Motion(c, v), s.radius);
  }

  /** A live shell lying still on the floor dies on its next tick under the
      Manager's gravity of 2: the floor bounce leaves it too slow. */
  lemma ShellAtRestOnFloorDies(x: int)
    requires ShellRadius <= x <= ScreenSize[0] - ShellRadius
    ensures !Step(ShellState([x, ScreenSize[1] - ShellRadius], [0, 0], ShellRadius, true), 1, 2).isAlive
  {
    var s := ShellState([x, ScreenSize[1] - ShellRadius], [0, 0], ShellRadius, true);
    var v := s.velocity[1 := s.velocity[1] + 2];
    assert v == [0, 2];
    var m0 := Motion([s.coord[0] + 1 * v[0], s.coord[1] + 1 * v[1]], v);
    assert m0.coord == [x, 582];
    assert Corners(m0, ShellRadius, 0) == m0;
    assert Corners(m0, ShellRadius, 1) == m0;
    assert Ort(2) == -1 && Par(0) == 0;
    assert Corners(m0, ShellRadius, 2) == Motion([x, 580], [0, -1]);
  }

  /** A shell as the source's `Shell` object: its lists are rewritten in place. */
  class Shell {
    var coord: Vec
    var velocity: Vec
    const radius: int
    var isAlive: bool

    constructor (coord: Vec, velocity: Vec, radius: int)
      ensures State() == ShellState(coord, velocity, radius, true)
    {
      this.coord := coord;
      this.velocity := velocity;
      this.radius := radius;
      this.isAlive := true;
    }

    function State(): ShellState
      reads this
    {
      ShellState(coord, velocity, radius, isAlive)
    }

    /** `check_corners` with its default factors 0.8 and 0.9. */
    method CheckCorners()
      modifies this
      ensures Motion(coord, velocity) == Corners(Motion(old(coord), old(velocity)), radius, 2)
      ensures isAlive == old(isAlive)
    {
      for i := 0 to 2
        invariant Motion(coord, velocity) == Corners(Motion(old(coord), old(velocity)), radius, i)
        invariant isAlive == old(isAlive)
      {
        if coord[i] < radius {
          coord := coord[i := radius];
          velocity := velocity[i := Ort(velocity[i])];
          velocity := velocity[1 - i := Par(velocity[1 - i])];
        } else if coord[i] > ScreenSize[i] - radius {
          coord := coord[i := ScreenSize[i] - radius];
          velocity := velocity[i := Ort(velocity[i])];
          velocity := velocity[1 - i := Par(velocity[1 - i])];
        }
      }
    }

    /** `move(time, gravity)`. */
    method Move(time: int, gravity: int)
      modifies this
      ensures State() == Step(old(State()), time, gravity)
    {
      velocity := velocity[1 := velocity[1] + gravity];
      for i := 0 to 2
        invariant velocity == old(velocity)[1 := old(velocity)[1] + gravity]
        invariant forall k :: 0 <= k < 2 ==> coord[k] == old(coord)[k] + (if k < i then time * velocity[k] else 0)
        invariant isAlive == old(isAlive)
      {
        coord := coord[i := coord[i] + time * velocity[i]];
      }
      assert coord == [old(coord)[0] + time * velocity[0], old(coord)[1] + time * velocity[1]];
      CheckCorners();
      if Sq(velocity[0]) + Sq(velocity[1]) < 4 && coord[1] > ScreenSize[1] - 2 * radius {
        isAlive := false;
      }
    }
  }
}
