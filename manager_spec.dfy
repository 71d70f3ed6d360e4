/** The rules the `Manager` of cannon.py follows each tick, stated on values:
    the events it reacts to, the random draws of a new mission, the charge
    bookkeeping of `handle_events`, and the list of colliding pairs `collide`
    builds. */
module ManagerSpec {
  import opened Arena
  import opened Lists
  import opened Shells
  import opened Cannons
  import opened Targets

  /** The pygame events `handle_events` looks at; any other event is `OtherEvent`. */
  datatype Event = Quit | MouseDown(button: int) | MouseUp(button: int) | OtherEvent

  /** The random numbers one spawned target consumes, in the order the source
      draws them: its radius, its two coordinates and (for a moving target) its
      two velocities. Each is turned into a value by `RandInt`. */
  datatype Draw = Draw(radius: nat, x: nat, y: nat, xVelocity: nat, yVelocity: nat)

  /** The gun's charge state as `handle_events` changes it. */
  datatype Charge = Charge(active: bool, pow: int)

  function Max(a: int, b: int): int
  {
    if a >= b then a else b
  }

  /** `randint(lo, hi)` on a non-empty range, fed by an arbitrary natural
      number `u`: the outcome `lo + u`, capped at `hi`. */
  function Pick(lo: int, hi: int, u: nat): (r: int)
    requires lo <= hi
    ensures lo <= r <= hi
  {
    if lo + u <= hi then lo + u else hi
  }

  /** `randint(lo, hi)`: None where Python raises ValueError because the
      range is empty. */
  function RandInt(lo: int, hi: int, u: nat): (r: Option<int>)
    ensures r.Some? <==> lo <= hi
    ensures r.Some? ==> lo <= r.value <= hi
  {
    if lo <= hi then Some(Pick(lo, hi, u)) else None
  }

  /** Every value of a non-empty range can be drawn, so the draws lose nothing
      of `randint`. */
  lemma RandIntCovers(lo: int, hi: int, v: int)
    requires lo <= v <= hi
    ensures RandInt(lo, hi, v - lo) == Some(v)
  {
  }

  /** The bounds `new_mission` passes to `randint` for a target radius. */
  function RadiusLow(score: int): int
  {
    Max(1, 30 - 2 * Max(0, score))
  }

  function RadiusHigh(score: int): int
  {
    30 - Max(0, score)
  }

  /** The radius range is non-empty exactly while the score is at most 29, and
      every radius in it lies in [1, 30]. */
  lemma RadiusRange(score: int)
    ensures RadiusLow(score) <= RadiusHigh(score) <==> score <= 29
    ensures 1 <= RadiusLow(score) && RadiusHigh(score) <= 30
  {
  }

  /** As the score rises both bounds shrink: targets get smaller. */
  lemma RadiusShrinks(score: int, score': int)
    requires score <= score'
    ensures RadiusLow(score') <= RadiusLow(score)
    ensures RadiusHigh(score') <= RadiusHigh(score)
  {
  }

  /** One target of `new_mission`: the Manager's radius draw, then the
      constructor's coordinate draws within the arena, then (moving kind) the
      velocity draws in [-2, 2]. None when the radius draw raises. */
  function Spawned(d: Draw, score: int, moving: bool): Option<TargetState>
  {
    match RandInt(RadiusLow(score), RadiusHigh(score), d.radius)
    case None => None
    case Some(r) =>
      var coord := [Pick(r, ScreenSize[0] - r, d.x), Pick(r, ScreenSize[1] - r, d.y)];
      if moving then Some(TargetState(coord, r, true, Pick(-2, 2, d.xVelocity), Pick(-2, 2, d.yVelocity)))
      else Some(TargetState(coord, r, false, 0, 0))
  }

  /** What every target of a mission keeps: a radius in [1, 30], velocities
      in [-2, 2], and never more than one move past a wall. */
  predicate TargetOk(t: TargetState)
  {
    1 <= t.radius <= 30 && SlowTarget(t) && Returning(t)
  }

  /** A spawned target exists exactly when the radius range is non-empty; it
      has the requested kind, and a stationary one has no velocity. */
  lemma SpawnedExists(d: Draw, score: int, moving: bool)
    ensures Spawned(d, score, moving).Some? <==> score <= 29
    ensures Spawned(d, score, moving).Some? ==>
      var t := Spawned(d, score, moving).value;
      t.moving == moving && (!moving ==> t.xVelocity == 0 && t.yVelocity == 0)
  {
    RadiusRange(score);
  }

  /** A spawned target has a radius from the score's range (so at least 1),
      lies inside the arena and is valid. */
  lemma SpawnedIsValid(d: Draw, score: int, moving: bool)
    ensures Spawned(d, score, moving).Some? ==>
      var t := Spawned(d, score, moving).value;
      && RadiusLow(score) <= t.radius <= RadiusHigh(score)
      && InArena(t.coord, t.radius)
      && TargetOk(t)
  {
    RadiusRange(score);
  }

  /** The targets `new_mission` appends over `rounds` rounds: per round a
      moving target from draw `2i`, then a stationary one from draw `2i + 1`.
      None when a radius draw raises. */
  function Mission(draws: nat -> Draw, score: int, rounds: nat): Option<seq<TargetState>>
  {
    if rounds == 0 then Some([])
    else
      var i := rounds - 1;
      match (Mission(draws, score, i), Spawned(draws(2 * i), score, true), Spawned(draws(2 * i + 1), score, false))
      case (Some(ts), Some(m), Some(s)) => Some(ts + [m, s])
      case _ => None
  }

  /** One more round appends the two targets of its draws. */
  lemma MissionNext(draws: nat -> Draw, score: int, i: nat, ts: seq<TargetState>, m: TargetState, s: TargetState)
    requires Mission(draws, score, i) == Some(ts)
    requires Spawned(draws(2 * i), score, true) == Some(m)
    requires Spawned(draws(2 * i + 1), score, false) == Some(s)
    ensures Mission(draws, score, i + 1) == Some(ts + [m, s])
  {
  }

  /** A mission of at least one round exists exactly while the score is at
      most 29. */
  lemma {:induction false} MissionExists(draws: nat -> Draw, score: int, rounds: nat)
    ensures Mission(draws, score, rounds).Some? <==> rounds == 0 || score <= 29
  {
    if rounds > 0 {
      MissionExists(draws, score, rounds - 1);
      SpawnedExists(draws(2 * (rounds - 1)), score, true);
      SpawnedExists(draws(2 * (rounds - 1) + 1), score, false);
    }
  }

  /** A mission holds two targets per round, the moving ones at the even
      positions. */
  lemma {:induction false} MissionShape(draws: nat -> Draw, score: int, rounds: nat)
    requires Mission(draws, score, rounds).Some?
    ensures |Mission(draws, score, rounds).value| == 2 * rounds
    ensures var ts := Mission(draws, score, rounds).value;
      forall k :: 0 <= k < |ts| ==> ts[k].moving == (k % 2 == 0)
  {
    if rounds > 0 {
      var i := rounds - 1;
      var ts := Mission(draws, score, i).value;
      MissionShape(draws, score, i);
      var m, s := Spawned(draws(2 * i), score, true).value, Spawned(draws(2 * i + 1), score, false).value;
      SpawnedExists(draws(2 * i), score, true);
      SpawnedExists(draws(2 * i + 1), score, false);
      MissionNext(draws, score, i, ts, m, s);
      var ts' := ts + [m, s];
      forall k | 0 <= k < |ts'|
        ensures ts'[k].moving == (k % 2 == 0)
      {
        if k < |ts| {
          assert ts'[k] == ts[k];
        }
      }
    }
  }

  /** Every target of a mission is valid and inside the arena. */
  lemma {:induction false} MissionIsValid(draws: nat -> Draw, score: int, rounds: nat)
    requires Mission(draws, score, rounds).Some?
    ensures forall t :: t in Mission(draws, score, rounds).value ==> TargetOk(t) && InArena(t.coord, t.radius)
  {
    if rounds > 0 {
      var i := rounds - 1;
      var ts := Mission(draws, score, i).value;
      MissionIsValid(draws, score, i);
      var m, s := Spawned(draws(2 * i), score, true).value, Spawned(draws(2 * i + 1), score, false).value;
      SpawnedIsValid(draws(2 * i), score, true);
      SpawnedIsValid(draws(2 * i + 1), score, false);
      MissionNext(draws, score, i, ts, m, s);
    }
  }

  /** `Target.move` keeps a valid target valid. */
  lemma DriftKeepsOk(t: TargetState)
    requires TargetOk(t)
    ensures TargetOk(Drift(t))
  {
    DriftKeepsSlow(t);
    DriftKeepsReturning(t);
  }

  /** What every live shell of the Manager keeps: the default radius, inside
      the arena, alive. */
  predicate ShellOk(s: ShellState)
  {
    s.radius == ShellRadius && InArena(s.coord, s.radius) && s.isAlive
  }

  /** Every shell after one tick of `move`, dead or alive. */
  function StepAll(ss: seq<ShellState>, gravity: int): (r: seq<ShellState>)
    ensures |r| == |ss| && forall k :: 0 <= k < |ss| ==> r[k] == Step(ss[k], 1, gravity)
  {
    seq(|ss|, k requires 0 <= k < |ss| => Step(ss[k], 1, gravity))
  }

  /** The live states of a list, in their order: the shells `move` keeps. */
  function LiveStates(ss: seq<ShellState>): seq<ShellState>
  {
    if ss == [] then []
    else LiveStates(ss[..|ss| - 1]) + (if ss[|ss| - 1].isAlive then [ss[|ss| - 1]] else [])
  }

  /** A state is kept exactly when it is listed and alive. */
  lemma {:induction false} LiveStatesMembers(ss: seq<ShellState>)
    ensures forall s :: s in LiveStates(ss) <==> s in ss && s.isAlive
  {
    if ss != [] {
      var n := |ss| - 1;
      LiveStatesMembers(ss[..n]);
      assert ss == ss[..n] + [ss[n]];
    }
  }

  /** Every target after one tick of `move`. */
  function DriftAll(ts: seq<TargetState>): (r: seq<TargetState>)
    ensures |r| == |ts| && forall k :: 0 <= k < |ts| ==> r[k] == Drift(ts[k])
  {
    seq(|ts|, k requires 0 <= k < |ts| => Drift(ts[k]))
  }

  /** Number of left-button releases: each one fires a shell. */
  function Releases(events: seq<Event>): nat
  {
    if events == [] then 0
    else Releases(events[..|events| - 1]) + (if events[|events| - 1] == MouseUp(1) then 1 else 0)
  }

  /** The states of the `n` shells a batch of events fires from a gun at
      `coord` aimed at `angle`: the first leaves with the charge `pow` the gun
      had, every later one with `MinPow`, since each shot resets the charge. */
  function Fired(coord: Vec, pow: int, angle: real, launch: (int, real) -> Vec, n: nat): (r: seq<ShellState>)
    ensures |r| == n
    ensures forall k :: 0 <= k < n ==>
      r[k] == ShellState(coord, launch(if k == 0 then pow else MinPow, angle), ShellRadius, true)
  {
    seq(n, k requires 0 <= k < n => ShellState(coord, launch(if k == 0 then pow else MinPow, angle), ShellRadius, true))
  }

  /** The gun's charge after one event: a left press activates, a left
      release fires (power back to `minPow`, charging off). */
  function ChargeStep(c: Charge, e: Event, minPow: int): Charge
  {
    match e
    case MouseDown(b) => if b == 1 then Charge(true, c.pow) else c
    case MouseUp(b) => if b == 1 then Charge(false, minPow) else c
    case _ => c
  }

  /** The gun's charge after the events, in order. */
  function ChargeAfter(events: seq<Event>, c: Charge, minPow: int): Charge
  {
    if events == [] then c
    else ChargeStep(ChargeAfter(events[..|events| - 1], c, minPow), events[|events| - 1], minPow)
  }

  /** Events never raise the charge: it is the old one when no shell was
      fired, `minPow` once one was; and a release is the last word on charging. */
  lemma {:induction false} ChargeAfterEvents(events: seq<Event>, c: Charge, minPow: int)
    ensures ChargeAfter(events, c, minPow).pow == if Releases(events) > 0 then minPow else c.pow
    ensures events != [] && events[|events| - 1] == MouseUp(1) ==> !ChargeAfter(events, c, minPow).active
  {
    if events != [] {
      ChargeAfterEvents(events[..|events| - 1], c, minPow);
    }
  }

  /** Releases in consecutive event batches add up. */
  lemma {:induction false} ReleasesAdd(a: seq<Event>, b: seq<Event>)
    ensures Releases(a + b) == Releases(a) + Releases(b)
    decreases |b|
  {
    if b == [] {
      assert a + b == a;
    } else {
      var n := |b| - 1;
      assert (a + b)[..|a + b| - 1] == a + b[..n];
      ReleasesAdd(a, b[..n]);
    }
  }

  /** The left/right key handling of `handle_events`: left first, then right,
      five units each. */
  function PanKeys(x: int, left: bool, right: bool): int
  {
    var afterLeft := if left then Panned(x, -5) else x;
    if right then Panned(afterLeft, 5) else afterLeft
  }

  /** Panning with the keys keeps the gun within [25, 775]. */
  lemma PanKeysStayOnFloor(x: int, left: bool, right: bool)
    requires WallMargin - 5 <= x <= ScreenSize[0] - WallMargin + 5
    ensures WallMargin - 5 <= PanKeys(x, left, right) <= ScreenSize[0] - WallMargin + 5
  {
    PanStaysOnFloor(x, -5);
    PanStaysOnFloor(if left then Panned(x, -5) else x, 5);
  }

  /** `target.check_collision(shell)` on states. */
  predicate Hit(t: TargetState, s: ShellState)
  {
    Collides(t.coord, t.radius, s.coord, s.radius)
  }

  /** The target indices `collide`'s inner loop appends for one shell. */
  function Row(s: ShellState, ts: seq<TargetState>): seq<nat>
  {
    if ts == [] then []
    else Row(s, ts[..|ts| - 1]) + (if Hit(ts[|ts| - 1], s) then [|ts| - 1] else [])
  }

  /** `targets_c` after both loops of `collide`: one entry per colliding
      (shell, target) pair, shell by shell. */
  function HitList(ss: seq<ShellState>, ts: seq<TargetState>): seq<nat>
  {
    if ss == [] then [] else HitList(ss[..|ss| - 1], ts) + Row(ss[|ss| - 1], ts)
  }

  /** The targets some shell collides with. */
  function HitTargets(ss: seq<ShellState>, ts: seq<TargetState>): set<nat>
  {
    set j: nat | j < |ts| && exists i :: 0 <= i < |ss| && Hit(ts[j], ss[i])
  }

  /** No target collides with two different shells. */
  predicate HitOnce(ss: seq<ShellState>, ts: seq<TargetState>)
  {
    forall j, i1, i2 :: 0 <= j < |ts| && 0 <= i1 < i2 < |ss| && Hit(ts[j], ss[i1]) ==> !Hit(ts[j], ss[i2])
  }

  /** One shell's row lists, in increasing order, exactly the targets it hits. */
  lemma {:induction false} RowMembers(s: ShellState, ts: seq<TargetState>)
    ensures StrictlyAscending(Row(s, ts))
    ensures forall k :: 0 <= k < |Row(s, ts)| ==> Row(s, ts)[k] < |ts|
    ensures forall j: nat :: j in Row(s, ts) <==> j < |ts| && Hit(ts[j], s)
  {
    if ts != [] {
      var n := |ts| - 1;
      RowMembers(s, ts[..n]);
      forall j | 0 <= j < n
        ensures ts[..n][j] == ts[j]
      {
      }
    }
  }

  /** `targets_c` holds every index in range, and an index is in it exactly
      when some shell hits that target. */
  lemma {:induction false} HitListMembers(ss: seq<ShellState>, ts: seq<TargetState>)
    ensures forall k :: 0 <= k < |HitList(ss, ts)| ==> HitList(ss, ts)[k] < |ts|
    ensures Elements(HitList(ss, ts)) == HitTargets(ss, ts)
  {
    if ss != [] {
      var n := |ss| - 1;
      HitListMembers(ss[..n], ts);
      RowMembers(ss[n], ts);
      forall j | j in HitTargets(ss, ts)
        ensures j in Elements(HitList(ss, ts))
      {
        var i :| 0 <= i < |ss| && Hit(ts[j], ss[i]);
        if i < n {
          assert ss[..n][i] == ss[i];
          assert j in HitTargets(ss[..n], ts);
        }
      }
      forall j | j in Elements(HitList(ss, ts))
        ensures j in HitTargets(ss, ts)
      {
        if j in Elements(HitList(ss[..n], ts)) {
          var i :| 0 <= i < n && Hit(ts[j], ss[..n][i]);
          assert ss[i] == ss[..n][i];
        }
      }
    }
  }

  /** When no target collides with two shells, no index is listed twice. */
  lemma {:induction false} HitOnceIsDistinct(ss: seq<ShellState>, ts: seq<TargetState>)
    requires HitOnce(ss, ts)
    ensures Distinct(HitList(ss, ts))
  {
    if ss != [] {
      var n := |ss| - 1;
      var front := ss[..n];
      assert HitOnce(front, ts) by {
        forall j, i1, i2 | 0 <= j < |ts| && 0 <= i1 < i2 < |front| && Hit(ts[j], front[i1])
          ensures !Hit(ts[j], front[i2])
        {
          assert front[i1] == ss[i1] && front[i2] == ss[i2];
        }
      }
      HitOnceIsDistinct(front, ts);
      HitListMembers(front, ts);
      RowMembers(ss[n], ts);
      var a, b := HitList(front, ts), Row(ss[n], ts);
      forall x, y | 0 <= x < |a| && 0 <= y < |b|
        ensures a[x] != b[y]
      {
        var j := b[y];
        assert b[y] in b;
        forall i | 0 <= i < n
          ensures !Hit(ts[j], front[i])
        {
          assert front[i] == ss[i];
        }
        assert j !in HitTargets(front, ts);
        assert a[x] in Elements(a);
      }
      assert HitList(ss, ts) == a + b;
    }
  }

  /** `collide` when every target is hit by at most one shell: no IndexError,
      exactly the hit targets disappear, in the same relative order, and one
      point is scored per removed target. A single shell touching two targets
      removes both. */
  lemma CollideRemovesHitTargets<T>(objs: seq<T>, ss: seq<ShellState>, ts: seq<TargetState>)
    requires |objs| == |ts|
    requires HitOnce(ss, ts)
    ensures PopReversed(objs, SortAsc(HitList(ss, ts))) == Some(Without(objs, HitTargets(ss, ts)))
    ensures |HitList(ss, ts)| == |HitTargets(ss, ts)|
  {
    var hits := HitList(ss, ts);
    var order := SortAsc(hits);
    HitOnceIsDistinct(ss, ts);
    HitListMembers(ss, ts);
    SortDistinctIsStrict(hits);
    forall k | 0 <= k < |order|
      ensures order[k] < |objs|
    {
      assert order[k] in multiset(hits);
    }
    assert Elements(order) == Elements(hits) by {
      forall x
        ensures x in order <==> x in hits
      {
        assert x in order <==> x in multiset(order);
        assert x in hits <==> x in multiset(hits);
      }
    }
    PopAscending(objs, order);
    DistinctCardinality(hits);
  }

  lemma {:induction false} DistinctCardinality(xs: seq<nat>)
    requires Distinct(xs)
    ensures |Elements(xs)| == |xs|
  {
    if xs != [] {
      var n := |xs| - 1;
      DistinctCardinality(xs[..n]);
      assert Elements(xs) == Elements(xs[..n]) + {xs[n]};
      assert xs[n] !in Elements(xs[..n]);
    }
  }

  /** The literal behaviour when two shells hit the same target j and nothing
      else: `targets_c` is [j, j], so j is popped twice. The second pop
      removes the target after j, which no shell touched, or raises
      IndexError when j was the last target. */
  lemma DoubleHitPopsTwice<T>(objs: seq<T>, s1: ShellState, s2: ShellState, ts: seq<TargetState>, j: nat)
    requires |objs| == |ts| && j < |ts|
    requires forall k :: 0 <= k < |ts| ==> (Hit(ts[k], s1) <==> k == j) && (Hit(ts[k], s2) <==> k == j)
    ensures HitList([s1, s2], ts) == [j, j]
    ensures j + 1 < |ts| ==> PopReversed(objs, SortAsc(HitList([s1, s2], ts))) == Some(objs[..j] + objs[j + 2..])
    ensures j + 1 == |ts| ==> PopReversed(objs, SortAsc(HitList([s1, s2], ts))) == None
  {
    SingleHitRow(s1, ts, j);
    SingleHitRow(s2, ts, j);
    DoubleHitList(s1, s2, ts, j);
    SortPair(j);
    PopSameTwice(objs, j);
  }

  /** Two shells whose rows are both [j] list j twice. */
  lemma DoubleHitList(s1: ShellState, s2: ShellState, ts: seq<TargetState>, j: nat)
    requires Row(s1, ts) == [j] && Row(s2, ts) == [j]
    ensures HitList([s1, s2], ts) == [j, j]
  {
    assert [s1][..0] == [];
    assert HitList([s1], ts) == [j];
    assert [s1, s2][..1] == [s1];
  }

  /** Sorting leaves a repeated index as it is. */
  lemma SortPair(j: nat)
    ensures SortAsc([j, j]) == [j, j]
  {
    var order := SortAsc([j, j]);
    assert order[0] in multiset(order) && order[1] in multiset(order);
  }

  /** A shell that hits exactly one target j has the row [j]. */
  lemma SingleHitRow(s: ShellState, ts: seq<TargetState>, j: nat)
    requires j < |ts|
    requires forall k :: 0 <= k < |ts| ==> (Hit(ts[k], s) <==> k == j)
    ensures Row(s, ts) == [j]
  {
    RowMembers(s, ts);
    var r := Row(s, ts);
    assert j in r;
    forall k | 0 <= k < |r|
      ensures r[k] == j
    {
      assert r[k] in r;
    }
    assert r[0] == j && r[|r| - 1] == j;
  }
}
