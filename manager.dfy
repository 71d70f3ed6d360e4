/** `Manager` of cannon.py: owns the shells, the gun, the targets and the
    score table, and runs one tick of the game in `process`. */
module Game {
  import opened Arena
  import opened Lists
  import opened Shells
  import opened Cannons
  import opened Targets
  import opened Scores
  import opened ManagerSpec

  function ShellStates(ss: seq<Shell>): (r: seq<ShellState>)
    reads ss
    ensures |r| == |ss| && forall k :: 0 <= k < |ss| ==> r[k] == ss[k].State()
  {
    seq(|ss|, k requires 0 <= k < |ss| reads ss => ss[k].State())
  }

  function TargetStates(ts: seq<Target>): (r: seq<TargetState>)
    reads ts
    ensures |r| == |ts| && forall k :: 0 <= k < |ts| ==> r[k] == ts[k].State()
  {
    seq(|ts|, k requires 0 <= k < |ts| reads ts => ts[k].State())
  }

  /** Every target of a list is valid exactly when every state of the list is. */
  lemma TargetStatesOk(ts: seq<Target>)
    ensures (forall k :: 0 <= k < |ts| ==> TargetOk(ts[k].State())) <==> (forall t :: t in TargetStates(ts) ==> TargetOk(t))
  {
    var r := TargetStates(ts);
    if forall k :: 0 <= k < |ts| ==> TargetOk(ts[k].State()) {
      forall t | t in r
        ensures TargetOk(t)
      {
        var k :| 0 <= k < |r| && r[k] == t;
      }
    }
  }

  /** The shells that are still alive, in their original order. */
  function Survivors(ss: seq<Shell>): seq<Shell>
    reads ss
  {
    if ss == [] then []
    else Survivors(ss[..|ss| - 1]) + (if ss[|ss| - 1].isAlive then [ss[|ss| - 1]] else [])
  }

  /** A shell survives exactly when it was in the list and is alive; a list
      without repetitions keeps none. */
  lemma {:induction false} SurvivorsMembers(ss: seq<Shell>)
    ensures forall s :: s in Survivors(ss) <==> s in ss && s.isAlive
    ensures Distinct(ss) ==> Distinct(Survivors(ss))
  {
    if ss != [] {
      var n := |ss| - 1;
      SurvivorsMembers(ss[..n]);
      assert ss == ss[..n] + [ss[n]];
      if Distinct(ss) {
        assert Distinct(ss[..n]);
        assert ss[n] !in ss[..n];
      }
    }
  }

  /** Removing the positions of the dead shells leaves the survivors. */
  lemma {:induction false} SurvivorsAreWithoutDead(ss: seq<Shell>, dead: set<nat>)
    requires forall k :: 0 <= k < |ss| ==> (k in dead <==> !ss[k].isAlive)
    ensures Without(ss, dead) == Survivors(ss)
  {
    if ss != [] {
      var n := |ss| - 1;
      SurvivorsAreWithoutDead(ss[..n], dead);
    }
  }

  /** The survivors of a list whose live shells are all valid are valid. */
  lemma {:induction false} SurvivorsKeepOk(ss: seq<Shell>)
    requires forall k :: 0 <= k < |ss| && ss[k].isAlive ==> ShellOk(ss[k].State())
    ensures forall k :: 0 <= k < |Survivors(ss)| ==> ShellOk(Survivors(ss)[k].State())
  {
    if ss != [] {
      SurvivorsKeepOk(ss[..|ss| - 1]);
    }
  }

  /** What `move` needs of its pop loop: popping the indices of the dead
      shells leaves the survivors, which are valid and listed once. */
  lemma PoppedAreSurvivors(ss: seq<Shell>, dead: seq<nat>)
    requires Distinct(ss)
    requires forall k :: 0 <= k < |ss| ==> (k in dead <==> !ss[k].isAlive)
    requires forall k :: 0 <= k < |ss| && ss[k].isAlive ==> ShellOk(ss[k].State())
    ensures Without(ss, Elements(dead)) == Survivors(ss)
    ensures Distinct(Survivors(ss))
    ensures forall k :: 0 <= k < |Survivors(ss)| ==> ShellOk(Survivors(ss)[k].State())
  {
    SurvivorsAreWithoutDead(ss, Elements(dead));
    SurvivorsMembers(ss);
    SurvivorsKeepOk(ss);
  }

  /** The states of the surviving shells are the live states, in order. */
  lemma {:induction false} SurvivorStates(ss: seq<Shell>)
    ensures ShellStates(Survivors(ss)) == LiveStates(ShellStates(ss))
  {
    if ss != [] {
      var n := |ss| - 1;
      SurvivorStates(ss[..n]);
      assert ShellStates(ss)[..n] == ShellStates(ss[..n]);
      var tail := if ss[n].isAlive then [ss[n]] else [];
      assert ShellStates(Survivors(ss[..n]) + tail) == ShellStates(Survivors(ss[..n])) + ShellStates(tail);
    }
  }

  /** Popping indices from a list of targets and from the list of their states
      fails together, and otherwise leaves the states of the remaining targets. */
  lemma {:induction false} PopReversedStates(ts: seq<Target>, idx: seq<nat>)
    ensures PopReversed(ts, idx).Some? <==> PopReversed(TargetStates(ts), idx).Some?
    ensures PopReversed(ts, idx).Some? ==>
      TargetStates(PopReversed(ts, idx).value) == PopReversed(TargetStates(ts), idx).value
    decreases |idx|
  {
    if idx != [] {
      var j := idx[|idx| - 1];
      if j < |ts| {
        assert TargetStates(PopAt(ts, j)) == PopAt(TargetStates(ts), j);
        PopReversedStates(PopAt(ts, j), idx[..|idx| - 1]);
      }
    }
  }

  class Manager {
    var shells: seq<Shell>
    const gun: Cannon
    var targets: seq<Target>
    const scoreTable: ScoreTable
    const numOfTargets: int
    const gravity: int

    /** The gun keeps its default limits, an even charge in [10, 50], and a
        position on the floor within [25, 775]. */
    ghost predicate GunOk()
      reads gun
    {
      && gun.minPow == MinPow && gun.maxPow == MaxPow
      && ChargeReachable(gun.pow, MinPow, MaxPow)
      && WallMargin - 5 <= gun.coord[0] <= ScreenSize[0] - WallMargin + 5
      && gun.coord[1] == ScreenSize[1] - 30
    }

    /** No shell is listed twice, and every listed shell is alive and inside
        the arena. */
    ghost predicate ShellsOk()
      reads this, shells
    {
      Distinct(shells) && forall k :: 0 <= k < |shells| ==> ShellOk(shells[k].State())
    }

    /** No target is listed twice, and every listed target is valid. */
    ghost predicate TargetsOk()
      reads this, targets
    {
      Distinct(targets) && forall k :: 0 <= k < |targets| ==> TargetOk(targets[k].State())
    }

    /** The Manager's invariant between ticks. */
    ghost predicate Valid()
      reads this, gun, scoreTable, shells, targets
    {
      && GunOk() && ShellsOk() && TargetsOk()
      && scoreTable.targetDestroyed >= 0 && scoreTable.shellUsed >= 0
    }

    /** The colliding (shell, target) pairs of the current state, as `collide`
        lists them. */
    ghost function Hits(): seq<nat>
      reads this, shells, targets
    {
      HitList(ShellStates(shells), TargetStates(targets))
    }

    /** `Manager(num_of_targets, gravity)`: empty lists, a default gun and
        score table, then a first mission. */
    constructor (draws: nat -> Draw, numOfTargets: int := 1, gravity: int := 2)
      ensures Valid() && fresh(gun) && fresh(scoreTable)
      ensures this.numOfTargets == numOfTargets && this.gravity == gravity
      ensures shells == [] && |targets| == 2 * Max(0, numOfTargets)
      ensures Mission(draws, 0, Max(0, numOfTargets)).Some?
      ensures TargetStates(targets) == Mission(draws, 0, Max(0, numOfTargets)).value && fresh(targets)
      ensures gun.coord == [400, 570] && gun.angle == 0.0 && !gun.active && gun.pow == MinPow
      ensures scoreTable.targetDestroyed == 0 && scoreTable.shellUsed == 0
    {
      shells := [];
      gun := new Cannon();
      targets := [];
      scoreTable := new ScoreTable();
      this.numOfTargets := numOfTargets;
      this.gravity := gravity;
      new;
      var ok := NewMission(draws);
      assert ok && targets[0..] == targets;
      MissionShape(draws, 0, Max(0, numOfTargets));
    }

    /** `new_mission`: for each of `num_of_targets` rounds one moving and then
        one stationary target, with radii drawn from the score's range. On an
        empty range the first `randint` raises and nothing is added. */
    method NewMission(draws: nat -> Draw) returns (ok: bool)
      requires Valid()
      modifies this`targets
      ensures Valid()
      ensures ok <==> numOfTargets <= 0 || scoreTable.Score() <= 29
      ensures !ok ==> targets == old(targets)
      ensures ok ==> |targets| == |old(targets)| + 2 * Max(0, numOfTargets)
      ensures ok ==> Mission(draws, scoreTable.Score(), Max(0, numOfTargets)).Some?
      ensures ok ==> && TargetStates(targets)
                        == old(TargetStates(targets)) + Mission(draws, scoreTable.Score(), Max(0, numOfTargets)).value
                     && targets[..|old(targets)|] == old(targets)
                     && fresh(targets[|old(targets)|..])
      ensures unchanged(shells) && unchanged(gun, scoreTable)
    {
      var score := scoreTable.Score();
      ok := AppendMission(draws, score);
      if ok {
        var added := Mission(draws, score, Max(0, numOfTargets)).value;
        MissionShape(draws, score, Max(0, numOfTargets));
        MissionIsValid(draws, score, Max(0, numOfTargets));
        TargetStatesOk(old(targets));
        TargetStatesOk(targets);
      }
    }

    /** The loop of `new_mission`, appending the targets of `Mission`. */
    method AppendMission(draws: nat -> Draw, score: int) returns (ok: bool)
      requires Distinct(targets)
      modifies this`targets
      ensures Distinct(targets)
      ensures ok <==> numOfTargets <= 0 || score <= 29
      ensures !ok ==> targets == old(targets)
      ensures ok ==> Mission(draws, score, Max(0, numOfTargets)).Some?
      ensures ok ==> && TargetStates(targets)
                        == old(TargetStates(targets)) + Mission(draws, score, Max(0, numOfTargets)).value
                     && targets[..|old(targets)|] == old(targets)
                     && fresh(targets[|old(targets)|..])
    {
      ok := true;
      ghost var added: seq<TargetState> := [];
      ghost var made: seq<Target> := [];
      for i := 0 to Max(0, numOfTargets)
        invariant Mission(draws, score, i) == Some(added)
        invariant targets == old(targets) + made && fresh(made)
        invariant TargetStates(targets) == old(TargetStates(targets)) + added
        invariant Distinct(targets)
        invariant i > 0 ==> score <= 29
      {
        ghost var round;
        ok, round := AppendRound(draws(2 * i), draws(2 * i + 1), score);
        if !ok {
          return;
        }
        var moving, still := Spawned(draws(2 * i), score, true).value, Spawned(draws(2 * i + 1), score, false).value;
        MissionNext(draws, score, i, added, moving, still);
        added := added + [moving, still];
        made := made + round;
      }
      assert targets[|old(targets)|..] == made;
    }

    /** One round of `new_mission`: a moving target, then a stationary one. */
    method AppendRound(moving: Draw, still: Draw, score: int) returns (ok: bool, ghost made: seq<Target>)
      requires Distinct(targets)
      modifies this`targets
      ensures Distinct(targets)
      ensures ok <==> score <= 29
      ensures !ok ==> targets == old(targets)
      ensures ok ==> && Spawned(moving, score, true).Some? && Spawned(still, score, false).Some?
                     && targets == old(targets) + made && |made| == 2 && fresh(made)
                     && made[0].State() == Spawned(moving, score, true).value
                     && made[1].State() == Spawned(still, score, false).value
      ensures ok ==> TargetStates(targets)
                     == old(TargetStates(targets)) + [Spawned(moving, score, true).value, Spawned(still, score, false).value]
    {
      var m := Spawned(moving, score, true);
      SpawnedExists(moving, score, true);
      if m.None? {
        return false, [];
      }
      var mt := new Target.Moving(m.value.coord, m.value.radius, m.value.xVelocity, m.value.yVelocity);
      targets := targets + [mt];
      var s := Spawned(still, score, false);
      SpawnedExists(still, score, false);
      var st := new Target.Stationary(s.value.coord, s.value.radius);
      targets := targets + [st];
      ok, made := true, [mt, st];
    }

    /** `handle_events`: a left press activates the gun, a left release fires
        a shell and counts it, a quit event ends the game; then the held keys
        pan the gun, left before right. */
    method HandleEvents(events: seq<Event>, left: bool, right: bool, launch: (int, real) -> Vec)
      returns (done: bool)
      requires Valid()
      modifies this`shells, gun, scoreTable`shellUsed
      ensures Valid()
      ensures done <==> Quit in events
      ensures |shells| == |old(shells)| + Releases(events)
      ensures shells[..|old(shells)|] == old(shells)
      ensures forall k :: |old(shells)| <= k < |shells| ==>
        && fresh(shells[k])
        && shells[k].State() == ShellState(old(gun.coord),
             launch(if k == |old(shells)| then old(gun.pow) else MinPow, old(gun.angle)), ShellRadius, true)
      ensures scoreTable.shellUsed == old(scoreTable.shellUsed) + Releases(events)
      ensures Charge(gun.active, gun.pow) == ChargeAfter(events, Charge(old(gun.active), old(gun.pow)), MinPow)
      ensures gun.angle == old(gun.angle)
      ensures gun.coord == [PanKeys(old(gun.coord[0]), left, right), old(gun.coord[1])]
      ensures ShellStates(shells)
        == old(ShellStates(shells)) + Fired(old(gun.coord), old(gun.pow), old(gun.angle), launch, Releases(events))
      ensures TargetStates(targets) == old(TargetStates(targets))
    {
      done := HandleEventList(events, launch);
      PanGun(left, right);
    }

    /** The key handling at the end of `handle_events`: left, then right. */
    method PanGun(left: bool, right: bool)
      requires GunOk()
      modifies gun`coord
      ensures GunOk()
      ensures gun.coord == [PanKeys(old(gun.coord[0]), left, right), old(gun.coord[1])]
      ensures ShellsOk() == old(ShellsOk()) && TargetsOk() == old(TargetsOk())
      ensures ShellStates(shells) == old(ShellStates(shells))
      ensures TargetStates(targets) == old(TargetStates(targets))
    {
      var x := gun.coord[0];
      if left {
        gun.Move(-5);
      }
      if right {
        gun.Move(5);
      }
      PanKeysStayOnFloor(x, left, right);
    }

    /** The event loop of `handle_events`. */
    method HandleEventList(events: seq<Event>, launch: (int, real) -> Vec) returns (done: bool)
      requires GunOk() && ShellsOk()
      modifies this`shells, gun`active, gun`pow, scoreTable`shellUsed
      ensures GunOk() && ShellsOk()
      ensures done <==> Quit in events
      ensures |shells| == |old(shells)| + Releases(events)
      ensures shells[..|old(shells)|] == old(shells)
      ensures forall k :: |old(shells)| <= k < |shells| ==>
        && fresh(shells[k])
        && shells[k].State() == ShellState(gun.coord,
             launch(if k == |old(shells)| then old(gun.pow) else MinPow, gun.angle), ShellRadius, true)
      ensures scoreTable.shellUsed == old(scoreTable.shellUsed) + Releases(events)
      ensures Charge(gun.active, gun.pow) == ChargeAfter(events, Charge(old(gun.active), old(gun.pow)), MinPow)
      ensures ShellStates(shells) == old(ShellStates(shells)) + Fired(gun.coord, old(gun.pow), gun.angle, launch, Releases(events))
      ensures unchanged(targets)
    {
      done := false;
      var n0 := |shells|;
      for e := 0 to |events|
        invariant done <==> Quit in events[..e]
        invariant |shells| == n0 + Releases(events[..e])
        invariant shells[..n0] == old(shells)
        invariant forall k :: n0 <= k < |shells| ==>
          && fresh(shells[k])
          && shells[k].State() == ShellState(gun.coord,
               launch(if k == n0 then old(gun.pow) else MinPow, gun.angle), ShellRadius, true)
        invariant |shells| == n0 ==> gun.pow == old(gun.pow)
        invariant |shells| > n0 ==> gun.pow == MinPow
        invariant Charge(gun.active, gun.pow) == ChargeAfter(events[..e], Charge(old(gun.active), old(gun.pow)), MinPow)
        invariant gun.coord == old(gun.coord) && gun.angle == old(gun.angle)
        invariant scoreTable.shellUsed == old(scoreTable.shellUsed) + Releases(events[..e])
        invariant GunOk() && ShellsOk()
      {
        assert events[..e + 1][..e] == events[..e];
        ghost var before := shells;
        var quit := HandleEvent(events[e], launch);
        done := done || quit;
        forall k | n0 <= k < |shells|
          ensures fresh(shells[k]) && shells[k].State() == ShellState(gun.coord,
               launch(if k == n0 then old(gun.pow) else MinPow, gun.angle), ShellRadius, true)
        {
          if k < |before| {
            assert shells[k] == before[k];
          }
        }
      }
      assert events[..|events|] == events;
      ghost var fired := Fired(gun.coord, old(gun.pow), gun.angle, launch, Releases(events));
      forall k | 0 <= k < |shells|
        ensures ShellStates(shells)[k] == (old(ShellStates(shells)) + fired)[k]
      {
        if k < n0 {
          assert shells[k] == old(shells)[k];
        }
      }
    }

    /** One event of `handle_events`. */
    method HandleEvent(e: Event, launch: (int, real) -> Vec) returns (quit: bool)
      requires GunOk() && ShellsOk()
      modifies this`shells, gun`active, gun`pow, scoreTable`shellUsed
      ensures GunOk() && ShellsOk()
      ensures quit <==> e == Quit
      ensures Charge(gun.active, gun.pow) == ChargeStep(Charge(old(gun.active), old(gun.pow)), e, MinPow)
      ensures e != MouseUp(1) ==> shells == old(shells) && scoreTable.shellUsed == old(scoreTable.shellUsed)
      ensures e == MouseUp(1) ==>
        && |shells| == |old(shells)| + 1 && shells[..|old(shells)|] == old(shells)
        && fresh(shells[|old(shells)|])
        && shells[|old(shells)|].State() == ShellState(gun.coord, launch(old(gun.pow), gun.angle), ShellRadius, true)
        && scoreTable.shellUsed == old(scoreTable.shellUsed) + 1
    {
      quit := false;
      match e
      case Quit =>
        quit := true;
      case MouseDown(b) =>
        if b == 1 {
          gun.Activate();
        }
      case MouseUp(b) =>
        if b == 1 {
          var ball := gun.Strike(launch);
          shells := shells + [ball];
          scoreTable.shellUsed := scoreTable.shellUsed + 1;
        }
      case OtherEvent =>
    }

    /** The shell half of `move`: every shell moves one tick under the
        Manager's gravity, then the dead ones are popped; the survivors keep
        their order. */
    method MoveShells()
      requires ShellsOk() && TargetsOk()
      modifies this`shells, shells
      ensures ShellsOk() && TargetsOk()
      ensures unchanged(gun, scoreTable)
      ensures TargetStates(targets) == old(TargetStates(targets))
      ensures shells == Survivors(old(shells))
      ensures ShellStates(old(shells)) == StepAll(old(ShellStates(shells)), gravity)
      ensures ShellStates(shells) == LiveStates(StepAll(old(ShellStates(shells)), gravity))
    {
      var dead := StepShells();
      DropDead(dead);
    }

    /** The second loop of `move` on the stepped shells: what is left are
        the live shells, in order, and they are valid. */
    method DropDead(dead: seq<nat>)
      requires Distinct(shells)
      requires StrictlyAscending(dead) && forall k :: 0 <= k < |dead| ==> dead[k] < |shells|
      requires forall k :: 0 <= k < |shells| ==> (k in dead <==> !shells[k].isAlive)
      requires forall k :: 0 <= k < |shells| && shells[k].isAlive ==> ShellOk(shells[k].State())
      modifies this`shells
      ensures ShellsOk()
      ensures shells == Survivors(old(shells))
      ensures ShellStates(shells) == LiveStates(old(ShellStates(shells)))
      ensures ShellStates(old(shells)) == old(ShellStates(shells))
      ensures TargetsOk() == old(TargetsOk()) && TargetStates(targets) == old(TargetStates(targets))
    {
      ghost var moved := shells;
      PopShells(dead);
      PoppedAreSurvivors(moved, dead);
      SurvivorStates(moved);
    }

    /** The first loop of `move`: every shell moves one tick, and the indices
        of the shells that died are collected in increasing order. */
    method StepShells() returns (dead: seq<nat>)
      requires ShellsOk()
      modifies shells
      ensures TargetStates(targets) == old(TargetStates(targets))
      ensures unchanged(gun, scoreTable)
      ensures ShellStates(shells) == StepAll(old(ShellStates(shells)), gravity)
      ensures forall k :: 0 <= k < |shells| && shells[k].isAlive ==> ShellOk(shells[k].State())
      ensures StrictlyAscending(dead)
      ensures forall k :: 0 <= k < |dead| ==> dead[k] < |shells|
      ensures forall k :: 0 <= k < |shells| ==> (k in dead <==> !shells[k].isAlive)
    {
      dead := [];
      for i := 0 to |shells|
        invariant forall k :: 0 <= k < i ==> shells[k].State() == Step(old(shells[k].State()), 1, gravity)
        invariant forall k :: i <= k < |shells| ==> shells[k].State() == old(shells[k].State())
        invariant StrictlyAscending(dead)
        invariant forall k :: 0 <= k < |dead| ==> dead[k] < i
        invariant forall k :: 0 <= k < i ==> (k in dead <==> !shells[k].isAlive)
        invariant unchanged(gun, scoreTable)
        invariant TargetStates(targets) == old(TargetStates(targets))
      {
        MoveShellAt(i);
        if !shells[i].isAlive {
          dead := dead + [i];
        }
      }
      forall k | 0 <= k < |shells| && shells[k].isAlive
        ensures ShellOk(shells[k].State())
      {
        StepStaysInArena(old(shells[k].State()), 1, gravity);
      }
    }

    /** One round of the first loop of `move`: shell `i` moves, and no other
        shell, the gun, the score table or a target changes. */
    method MoveShellAt(i: nat)
      requires Distinct(shells) && i < |shells|
      modifies shells
      ensures shells[i].State() == Step(old(shells[i].State()), 1, gravity)
      ensures forall k :: 0 <= k < |shells| && k != i ==> shells[k].State() == old(shells[k].State())
      ensures unchanged(gun, scoreTable)
      ensures TargetStates(targets) == old(TargetStates(targets))
    {
      assert forall k :: 0 <= k < |shells| && k != i ==> shells[k] != shells[i];
      shells[i].Move(1, gravity);
    }

    /** The second loop of `move`: pop the listed indices, last first, which
        removes exactly those shells and keeps the order of the rest. */
    method PopShells(dead: seq<nat>)
      requires StrictlyAscending(dead)
      requires forall k :: 0 <= k < |dead| ==> dead[k] < |shells|
      modifies this`shells
      ensures shells == Without(old(shells), Elements(dead))
    {
      PopAscending(shells, dead);
      ghost var rest := Without(shells, Elements(dead));
      var m := |dead|;
      assert dead[..m] == dead;
      while m > 0
        invariant 0 <= m <= |dead|
        invariant PopReversed(shells, dead[..m]) == Some(rest)
      {
        m := m - 1;
        assert dead[..m + 1][..m] == dead[..m];
        shells := PopAt(shells, dead[m]);
      }
    }

    /** The target half of `move`: every target moves. */
    method MoveTargets(ghost moved: seq<Shell>)
      requires TargetsOk() && ShellsOk()
      modifies targets
      ensures TargetsOk() && ShellsOk()
      ensures unchanged(gun, scoreTable)
      ensures ShellStates(moved) == old(ShellStates(moved)) && Survivors(moved) == old(Survivors(moved))
      ensures ShellStates(shells) == old(ShellStates(shells))
      ensures TargetStates(targets) == DriftAll(old(TargetStates(targets)))
    {
      for i := 0 to |targets|
        invariant forall k :: 0 <= k < i ==> targets[k].State() == Drift(old(targets[k].State()))
        invariant forall k :: i <= k < |targets| ==> targets[k].State() == old(targets[k].State())
      {
        targets[i].Move();
      }
      forall k | 0 <= k < |targets|
        ensures TargetOk(targets[k].State())
      {
        DriftKeepsOk(old(targets[k].State()));
      }
    }

    /** `move`: shells advance and the dead ones are dropped, keeping the
        order of the rest; targets drift; the gun gains charge. */
    method Move()
      requires Valid()
      modifies this`shells, shells, targets, gun`pow
      ensures Valid()
      ensures shells == Survivors(old(shells))
      ensures ShellStates(old(shells)) == StepAll(old(ShellStates(shells)), gravity)
      ensures ShellStates(shells) == LiveStates(StepAll(old(ShellStates(shells)), gravity))
      ensures targets == old(targets)
      ensures TargetStates(targets) == DriftAll(old(TargetStates(targets)))
      ensures gun.pow == Gained(gun.active, old(gun.pow), MaxPow, GainStep)
      ensures gun.active == old(gun.active) && gun.coord == old(gun.coord)
      ensures gun.angle == old(gun.angle) && unchanged(scoreTable)
    {
      ghost var before := shells;
      MoveObjects();
      GainCharge(before);
    }

    /** The two loops of `move` over the shells and the loop over the targets. */
    method MoveObjects()
      requires ShellsOk() && TargetsOk()
      modifies this`shells, shells, targets
      ensures ShellsOk() && TargetsOk()
      ensures unchanged(gun, scoreTable)
      ensures shells == Survivors(old(shells))
      ensures ShellStates(old(shells)) == StepAll(old(ShellStates(shells)), gravity)
      ensures ShellStates(shells) == LiveStates(StepAll(old(ShellStates(shells)), gravity))
      ensures TargetStates(targets) == DriftAll(old(TargetStates(targets)))
    {
      ghost var before := shells;
      MoveShells();
      MoveTargets(before);
    }

    /** The last line of `move`: the gun gains charge, which keeps the
        charge an even number in [10, 50]. */
    method GainCharge(ghost moved: seq<Shell>)
      requires GunOk()
      modifies gun`pow
      ensures GunOk()
      ensures ShellsOk() == old(ShellsOk()) && TargetsOk() == old(TargetsOk())
      ensures ShellStates(moved) == old(ShellStates(moved))
      ensures ShellStates(shells) == old(ShellStates(shells))
      ensures TargetStates(targets) == old(TargetStates(targets))
      ensures gun.pow == Gained(gun.active, old(gun.pow), MaxPow, GainStep)
      ensures gun.active == old(gun.active) && gun.coord == old(gun.coord) && gun.angle == old(gun.angle)
    {
      GainKeepsChargeReachable(gun.active, gun.pow, MinPow, MaxPow);
      gun.Gain(GainStep);
    }

    /** `collide`: list a target index for every colliding (shell, target)
        pair, sort the list and pop it from the end, counting one destroyed
        target per pop. Shells are never removed. A target hit by two shells
        is popped twice; the second pop raises IndexError when its index is
        past the end (`ok` false). */
    method Collide() returns (ok: bool)
      requires Valid()
      modifies this`targets, scoreTable`targetDestroyed
      ensures Valid()
      ensures shells == old(shells)
      ensures ok <==> PopReversed(old(targets), SortAsc(old(Hits()))).Some?
      ensures ok ==> Some(targets) == PopReversed(old(targets), SortAsc(old(Hits())))
      ensures ok ==> Some(TargetStates(targets)) == PopReversed(old(TargetStates(targets)), SortAsc(old(Hits())))
      ensures unchanged(shells)
      ensures ok ==> scoreTable.targetDestroyed == old(scoreTable.targetDestroyed) + |old(Hits())|
      ensures scoreTable.targetDestroyed >= old(scoreTable.targetDestroyed)
    {
      var targetsC := CollectHits();
      var order := SortAsc(targetsC);
      ok := PopTargets(order);
    }

    /** The double loop of `collide`: the index of every target a shell
        touches, shell by shell and target by target. */
    method CollectHits() returns (targetsC: seq<nat>)
      ensures targetsC == Hits()
    {
      ghost var sv := ShellStates(shells);
      targetsC := [];
      for i := 0 to |shells|
        invariant targetsC == HitList(sv[..i], TargetStates(targets))
      {
        targetsC := CollectRow(i, targetsC);
        assert sv[..i + 1][..i] == sv[..i];
      }
      assert sv[..|shells|] == sv;
    }

    /** The inner loop of `collide`: append the index of every target shell
        `i` touches. */
    method CollectRow(i: nat, targetsC: seq<nat>) returns (r: seq<nat>)
      requires i < |shells|
      ensures r == targetsC + Row(shells[i].State(), TargetStates(targets))
    {
      ghost var tv := TargetStates(targets);
      r := targetsC;
      for j := 0 to |targets|
        invariant r == targetsC + Row(shells[i].State(), tv[..j])
      {
        assert tv[..j + 1][..j] == tv[..j];
        if targets[j].CheckCollision(shells[i]) {
          r := r + [j];
        }
      }
      assert tv[..|targets|] == tv;
    }

    /** The pop loop of `collide`: pop the listed indices last first, counting
        a destroyed target before each pop; an index past the end raises. */
    method PopTargets(order: seq<nat>) returns (ok: bool)
      requires TargetsOk()
      modifies this`targets, scoreTable`targetDestroyed
      ensures TargetsOk()
      ensures ok <==> PopReversed(old(targets), order).Some?
      ensures ok ==> Some(targets) == PopReversed(old(targets), order)
      ensures ok ==> Some(TargetStates(targets)) == PopReversed(old(TargetStates(targets)), order)
      ensures ok ==> scoreTable.targetDestroyed == old(scoreTable.targetDestroyed) + |order|
      ensures scoreTable.targetDestroyed >= old(scoreTable.targetDestroyed)
    {
      ok := true;
      var m := |order|;
      assert order[..m] == order;
      while m > 0
        invariant 0 <= m <= |order|
        invariant PopReversed(targets, order[..m]) == PopReversed(old(targets), order)
        invariant scoreTable.targetDestroyed == old(scoreTable.targetDestroyed) + |order| - m
        invariant TargetsOk()
      {
        m := m - 1;
        assert order[..m + 1][..m] == order[..m];
        scoreTable.targetDestroyed := scoreTable.targetDestroyed + 1;
        if order[m] >= |targets| {
          ok := false;
          return;
        }
        PopAtKeeps(targets, order[m]);
        targets := PopAt(targets, order[m]);
      }
      ghost var before := old(targets);
      assert TargetStates(before) == old(TargetStates(targets));
      PopReversedStates(before, order);
    }

    /** The first half of `process`: the player's input, the aim, then the
        movement of everything. `fired` are the shells the input appended;
        the shell list is then the survivors of the old shells and those,
        each stepped once, and every target has drifted once. */
    method Advance(events: seq<Event>, left: bool, right: bool, aim: Option<real>,
                   launch: (int, real) -> Vec)
      returns (done: bool, ghost fired: seq<Shell>)
      requires Valid()
      modifies this`shells, shells, targets, gun, scoreTable`shellUsed
      ensures Valid()
      ensures done <==> Quit in events
      ensures |fired| == Releases(events) && fresh(fired)
      ensures shells == Survivors(old(shells) + fired)
      ensures ShellStates(old(shells) + fired)
        == StepAll(old(ShellStates(shells)) + Fired(old(gun.coord), old(gun.pow), old(gun.angle), launch, Releases(events)), gravity)
      ensures ShellStates(shells)
        == LiveStates(StepAll(old(ShellStates(shells)) + Fired(old(gun.coord), old(gun.pow), old(gun.angle), launch, Releases(events)), gravity))
      ensures targets == old(targets)
      ensures TargetStates(targets) == DriftAll(old(TargetStates(targets)))
      ensures gun.coord == [PanKeys(old(gun.coord[0]), left, right), old(gun.coord[1])]
      ensures gun.angle == if aim.Some? then aim.value else old(gun.angle)
      ensures var c := ChargeAfter(events, Charge(old(gun.active), old(gun.pow)), MinPow);
        gun.active == c.active && gun.pow == Gained(c.active, c.pow, MaxPow, GainStep)
      ensures scoreTable.shellUsed == old(scoreTable.shellUsed) + Releases(events)
      ensures scoreTable.targetDestroyed == old(scoreTable.targetDestroyed)
    {
      done, fired := Input(events, left, right, aim, launch);
      Move();
    }

    /** `handle_events`, then the aim when the mouse has focus. */
    method Input(events: seq<Event>, left: bool, right: bool, aim: Option<real>,
                 launch: (int, real) -> Vec)
      returns (done: bool, ghost fired: seq<Shell>)
      requires Valid()
      modifies this`shells, gun, scoreTable`shellUsed
      ensures Valid()
      ensures done <==> Quit in events
      ensures |fired| == Releases(events) && fresh(fired)
      ensures shells == old(shells) + fired
      ensures ShellStates(shells)
        == old(ShellStates(shells)) + Fired(old(gun.coord), old(gun.pow), old(gun.angle), launch, Releases(events))
      ensures unchanged(targets)
      ensures gun.coord == [PanKeys(old(gun.coord[0]), left, right), old(gun.coord[1])]
      ensures gun.angle == if aim.Some? then aim.value else old(gun.angle)
      ensures Charge(gun.active, gun.pow) == ChargeAfter(events, Charge(old(gun.active), old(gun.pow)), MinPow)
      ensures scoreTable.shellUsed == old(scoreTable.shellUsed) + Releases(events)
      ensures scoreTable.targetDestroyed == old(scoreTable.targetDestroyed)
    {
      done := HandleEvents(events, left, right, launch);
      fired := shells[|old(shells)|..];
      assert shells == old(shells) + fired;
      if aim.Some? {
        gun.SetAngle(aim.value);
      }
    }

    /** What `collide` and the respawn check leave, given the target states
        `before` and the index list `hits` of `collide`: a failing pop raises;
        otherwise the targets are the popped list, unless both lists are
        empty, when `new_mission` (which raises on an empty radius range)
        refills them. */
    ghost predicate Resolved(before: seq<TargetState>, hits: seq<nat>, draws: nat -> Draw, ok: bool, respawned: bool)
      reads this, targets, scoreTable
    {
      var popped := PopReversed(before, SortAsc(hits));
      && (popped.None? ==> !ok && !respawned)
      && (!respawned ==> (ok <==> popped.Some?))
      && (respawned <==> popped == Some([]) && shells == [])
      && (ok && !respawned ==> Some(TargetStates(targets)) == popped)
      && (respawned ==> (ok <==> numOfTargets <= 0 || scoreTable.Score() <= 29))
      && (respawned && ok ==>
            Mission(draws, scoreTable.Score(), Max(0, numOfTargets)).Some? &&
            TargetStates(targets) == Mission(draws, scoreTable.Score(), Max(0, numOfTargets)).value)
      && (respawned && !ok ==> targets == [])
    }

    /** The second half of `process`: `collide`, then a new mission when
        both lists are empty. `ok` is false when either raises. No shell
        changes, including the dropped ones listed in `moved`. */
    method Resolve(draws: nat -> Draw, ghost moved: seq<Shell>) returns (ok: bool, ghost respawned: bool)
      requires Valid()
      modifies this`targets, scoreTable`targetDestroyed
      ensures Valid()
      ensures shells == old(shells) && unchanged(shells) && unchanged(moved)
      ensures Survivors(moved) == old(Survivors(moved)) && ShellStates(moved) == old(ShellStates(moved))
      ensures ShellStates(shells) == old(ShellStates(shells))
      ensures unchanged(gun) && scoreTable.shellUsed == old(scoreTable.shellUsed)
      ensures Resolved(old(TargetStates(targets)), old(Hits()), draws, ok, respawned)
      ensures PopReversed(old(TargetStates(targets)), SortAsc(old(Hits()))).Some? ==>
        scoreTable.targetDestroyed == old(scoreTable.targetDestroyed) + |old(Hits())|
      ensures scoreTable.targetDestroyed >= old(scoreTable.targetDestroyed)
    {
      PopReversedStates(targets, SortAsc(Hits()));
      respawned := false;
      ok := Collide();
      if !ok {
        return;
      }
      if |targets| == 0 && |shells| == 0 {
        respawned := true;
        ok := NewMission(draws);
      }
    }

    /** `process`: handle the events, aim the gun when the mouse has focus,
        move, collide, and start a new mission when both lists are empty.
        `done` is the quit request; `ok` is false when `collide` or
        `new_mission` raises, which ends the source program. `fired` are the
        shells the events appended and `hits` the target indices `collide`
        listed for the moved shells and targets. */
    method Process(events: seq<Event>, left: bool, right: bool, aim: Option<real>,
                   launch: (int, real) -> Vec, draws: nat -> Draw)
      returns (done: bool, ok: bool, ghost respawned: bool, ghost fired: seq<Shell>, ghost hits: seq<nat>)
      requires Valid()
      modifies this`shells, this`targets, shells, targets, gun, scoreTable
      ensures Valid()
      ensures done <==> Quit in events
      ensures |fired| == Releases(events) && fresh(fired)
      ensures shells == Survivors(old(shells) + fired)
      ensures ShellStates(old(shells) + fired)
        == StepAll(old(ShellStates(shells)) + Fired(old(gun.coord), old(gun.pow), old(gun.angle), launch, Releases(events)), gravity)
      ensures ShellStates(shells)
        == LiveStates(StepAll(old(ShellStates(shells)) + Fired(old(gun.coord), old(gun.pow), old(gun.angle), launch, Releases(events)), gravity))
      ensures hits == HitList(ShellStates(shells), DriftAll(old(TargetStates(targets))))
      ensures Resolved(DriftAll(old(TargetStates(targets))), hits, draws, ok, respawned)
      ensures gun.coord == [PanKeys(old(gun.coord[0]), left, right), old(gun.coord[1])]
      ensures gun.angle == if aim.Some? then aim.value else old(gun.angle)
      ensures var c := ChargeAfter(events, Charge(old(gun.active), old(gun.pow)), MinPow);
        gun.active == c.active && gun.pow == Gained(c.active, c.pow, MaxPow, GainStep)
      ensures scoreTable.shellUsed == old(scoreTable.shellUsed) + Releases(events)
      ensures PopReversed(DriftAll(old(TargetStates(targets))), SortAsc(hits)).Some? ==>
        scoreTable.targetDestroyed == old(scoreTable.targetDestroyed) + |hits|
      ensures scoreTable.targetDestroyed >= old(scoreTable.targetDestroyed)
    {
      done, fired := Advance(events, left, right, aim, launch);
      hits := Hits();
      ok, respawned := Resolve(draws, old(shells) + fired);
    }
  }
}
