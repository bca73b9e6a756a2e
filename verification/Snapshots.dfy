/** What a vision frame reports, told from the log: who is in it and where, what each slot says of an enemy's last
    sighting, the four nearest distances, and from which sources enemies are in sight. */
module Snapshots {
  import opened Numbers
  import opened Options
  import opened ReplayLog
  import opened Trees
  import opened Vision
  import opened HeroHistory
  import opened LastSeen
  import opened VisionTimeline
  import GameStates
  import Grid
  import Sorting

  // ---------- heroes, towers and wards of the log ----------

  /** The hero's first interval line came from a slot of the team: slots from 5 on are dire's, team 3. */
  predicate InTeam(log: seq<Line>, name: string, team: int) {
    FirstFiling(log, name).Some? && team == if FirstFiling(log, name).value.slot >= 5 then 3 else 2
  }

  predicate IsAlive(log: seq<Line>, name: string) {
    LatestFiling(log, name).Some? && LatestFiling(log, name).value.lifeState == 0
  }

  /** The place is that of the latest line that places the hero. */
  predicate StandsAt(log: seq<Line>, name: string, x: real, y: real, z: real) {
    && LatestPlace(log, name).Some?
    && var l := LatestPlace(log, name).value;
       x == WorldX(l.x) && y == WorldY(l.y) && z == l.z
  }

  /** The latest ward line of the handle. */
  function LatestWardLine(log: seq<Line>, handle: int): Option<Line> {
    if log == [] then None
    else
      var l := log[|log| - 1];
      if (l.kind.Observer? || l.kind.Sentry?) && l.handle == handle then Some(l)
      else LatestWardLine(log[..|log| - 1], handle)
  }

  /** The ward of the handle stands after the log: its latest line placed it.  It belongs to the team of its slot and
      lasts 360 seconds. */
  predicate WardStands(log: seq<Line>, handle: int, w: Ward) {
    && LatestWardLine(log, handle).Some?
    && var l := LatestWardLine(log, handle).value;
       && l.entityLeft != 1 && w.handle == handle && w.team == (if l.slot >= 5 then 3 else 2)
       && w.x == WorldX(l.x) && w.y == WorldY(l.y) && w.z == l.z
       && w.observer == l.kind.Observer? && w.endTime == l.time + 360.0
  }

  lemma {:induction false} LatestWardFromLine(log: seq<Line>, handle: int, w: Ward)
    ensures LatestWard(log, handle) == [w] <==> WardStands(log, handle, w)
  {
    if log != [] {
      LatestWardFromLine(log[..|log| - 1], handle, w);
    }
  }

  lemma {:induction false} MemberUnder(wards: seq<Ward>, w: Ward)
    ensures w in wards <==> w in WardsUnder(wards, w.handle)
  {
    if wards != [] {
      MemberUnder(wards[1..], w);
    }
  }

  /** For every log: the wards in the state are exactly those that stand. */
  lemma WardsFromLog(root: Root, start: State, log: seq<Line>, w: Ward)
    requires start.wards == []
    ensures w in Watch(root, start, log).state.wards <==> WardStands(log, w.handle, w)
  {
    var wards := Watch(root, start, log).state.wards;
    MemberUnder(wards, w);
    WardsAreLatest(root, start, log, w.handle);
    LatestWardFromLine(log, w.handle, w);
    OneMember(LatestWard(log, w.handle), w);
  }

  lemma OneMember(wards: seq<Ward>, w: Ward)
    requires |wards| <= 1
    ensures w in wards <==> wards == [w]
  {}

  // ---------- the clock ----------

  /** The latest line with a nonnegative time. */
  function LatestCounted(log: seq<Line>): Option<Line> {
    if log == [] then None
    else if log[|log| - 1].time >= 0.0 then Some(log[|log| - 1])
    else LatestCounted(log[..|log| - 1])
  }

  /** For every log: the clock is that of the last line, and it is day in the first five of every ten minutes, by the
      latest line with a nonnegative time. */
  lemma {:induction false} ClockFromLog(root: Root, start: State, log: seq<Line>)
    ensures (var s := Watch(root, start, log).state;
             && s.time == (if log == [] then start.time else log[|log| - 1].time)
             && s.isDay == if LatestCounted(log).Some? then Trunc(LatestCounted(log).value.time) % 600 < 300
                           else start.isDay)
    decreases |log|
  {
    if log != [] {
      ClockFromLog(root, start, log[..|log| - 1]);
      UpdatedClock(Watch(root, start, log[..|log| - 1]).state, log[|log| - 1]);
    }
  }

  lemma UpdatedClock(s: State, l: Line)
    ensures Updated(s, l).time == l.time
    ensures Updated(s, l).isDay == if l.time >= 0.0 then Trunc(l.time) % 600 < 300 else s.isDay
  {}

  // ---------- one hero in the state ----------

  /** What the state holds of a hero is what the log says: team, life, place and last sighting. */
  ghost predicate AgreesOn(root: Root, start: State, log: seq<Line>, s: State, name: string) {
    && (name in s.heroes <==> FirstFiling(log, name).Some?)
    && (name in s.heroes ==>
          (var h := s.heroes[name];
           && h.name == name && InTeam(log, name, h.team) && (h.alive <==> IsAlive(log, name))
           && StandsAt(log, name, h.x, h.y, h.z)
           && Seen(h.lastX, h.lastY, h.lastZ, h.lastTime) == LastSight(root, start, log, name)))
  }

  lemma StateAgrees(root: Root, start: State, log: seq<Line>, name: string)
    requires start.heroes == map[]
    ensures AgreesOn(root, start, log, Watch(root, start, log).state, name)
  {
    HeroesAreLatest(root, start, log, name);
    LastSeenIsLatest(root, start, log, name);
    ReachableStatesKeep(root, start, log);
  }

  /** The whole state: heroes, towers, team and clock. */
  ghost predicate StateIs(root: Root, start: State, log: seq<Line>, s: State) {
    && (forall name :: AgreesOn(root, start, log, s, name))
    && s.towers == start.towers && s.myTeam == start.myTeam && log != [] && s.time == log[|log| - 1].time
  }

  lemma WatchedState(root: Root, start: State, log: seq<Line>)
    requires start.heroes == map[] && log != []
    ensures StateIs(root, start, log, Watch(root, start, log).state)
  {
    forall name
      ensures AgreesOn(root, start, log, Watch(root, start, log).state, name)
    {
      StateAgrees(root, start, log, name);
    }
    ReachableStatesKeep(root, start, log);
    ClockFromLog(root, start, log);
  }

  // ---------- the nearest distances ----------

  function Away(root: Root, x: real, y: real, px: real, py: real): real {
    root((x - px) * (x - px) + (y - py) * (y - py))
  }

  /** A living hero, of my team or not as wanted, at distance `d` from (x, y) and not standing there. */
  ghost predicate HeroAway(root: Root, start: State, log: seq<Line>, x: real, y: real, mine: bool, name: string,
                           d: real)
  {
    && IsAlive(log, name) && (InTeam(log, name, start.myTeam) <==> mine) && FirstFiling(log, name).Some?
    && exists px, py, pz :: StandsAt(log, name, px, py, pz) && !(px == x && py == y) && d == Away(root, x, y, px, py)
  }

  /** The distance to the nearest such hero, 99999 if none is nearer. */
  ghost predicate NearestHero(root: Root, start: State, log: seq<Line>, x: real, y: real, mine: bool, d: real) {
    && d <= 99999.0
    && (forall name, e | HeroAway(root, start, log, x, y, mine, name, e) :: d <= e)
    && (d == 99999.0 || exists name :: HeroAway(root, start, log, x, y, mine, name, d))
  }

  /** The distance to the nearest standing tower of the team, 99999 if none is nearer. */
  ghost predicate NearestTower(root: Root, towers: seq<Tower>, x: real, y: real, team: int, d: real) {
    && d <= 99999.0
    && (forall t | t in towers && t.team == team && t.alive :: d <= Away(root, x, y, t.x, t.y))
    && (d == 99999.0 || exists t | t in towers :: t.team == team && t.alive && d == Away(root, x, y, t.x, t.y))
  }

  lemma DistanceFromLog(root: Root, start: State, log: seq<Line>, s: State, x: real, y: real, mine: bool, name: string,
                        d: real)
    requires StateIs(root, start, log, s)
    ensures HeroAway(root, start, log, x, y, mine, name, d) <==>
              name in s.heroes && Counts(s.heroes[name], x, y, start.myTeam, mine)
              && d == GetDist(root, x, y, s.heroes[name].x, s.heroes[name].y)
  {
    assert AgreesOn(root, start, log, s, name);
    if name in s.heroes {
      var h := s.heroes[name];
      assert StandsAt(log, name, h.x, h.y, h.z);
      assert GetDist(root, x, y, h.x, h.y) == Away(root, x, y, h.x, h.y);
    }
  }

  lemma NearestHeroFromLog(root: Root, start: State, log: seq<Line>, s: State, x: real, y: real, mine: bool)
    requires StateIs(root, start, log, s)
    ensures NearestHero(root, start, log, x, y, mine, Nearest(HeroDists(root, s, x, y, start.myTeam, mine)))
  {
    var dists := HeroDists(root, s, x, y, start.myTeam, mine);
    var d := Nearest(dists);
    forall name, e | HeroAway(root, start, log, x, y, mine, name, e)
      ensures d <= e
    {
      DistanceFromLog(root, start, log, s, x, y, mine, name, e);
      assert e in dists;
    }
    if d != 99999.0 {
      var n :| n in s.heroes && Counts(s.heroes[n], x, y, start.myTeam, mine)
               && d == GetDist(root, x, y, s.heroes[n].x, s.heroes[n].y);
      DistanceFromLog(root, start, log, s, x, y, mine, n, d);
    }
  }

  lemma NearestTowerFromLog(root: Root, s: State, x: real, y: real, team: int)
    ensures NearestTower(root, s.towers, x, y, team, Nearest(TowerDists(root, s, x, y, team)))
  {
    var dists := TowerDists(root, s, x, y, team);
    forall t | t in s.towers && t.team == team && t.alive
      ensures Nearest(dists) <= Away(root, x, y, t.x, t.y)
    {
      assert GetDist(root, x, y, t.x, t.y) in dists;
      assert GetDist(root, x, y, t.x, t.y) == Away(root, x, y, t.x, t.y);
    }
    if Nearest(dists) != 99999.0 {
      var t :| t in s.towers && t.team == team && t.alive && Nearest(dists) == GetDist(root, x, y, t.x, t.y);
      assert GetDist(root, x, y, t.x, t.y) == Away(root, x, y, t.x, t.y);
    }
  }

  // ---------- slots, units and frames ----------

  /** The slot reports the enemy's last sighting as of the last line: name, whole coordinates, grid square, distance
      from (x, y) and whole seconds since, or 99999 for a sighting at time 0. */
  ghost predicate SlotIs(root: Root, start: State, log: seq<Line>, x: real, y: real, name: string, slot: Sighting)
    requires log != []
  {
    var seen := LastSight(root, start, log, name);
    && slot.name == name && slot.x == Trunc(seen.x) && slot.y == Trunc(seen.y)
    && slot.square == Grid.CellId(Grid.Box(-9400.0, 8000.0, -8500.0, 8500.0, 32), seen.x, seen.y)
    && slot.dist == Away(root, x, y, seen.x, seen.y)
    && slot.time == if seen.time == 0.0 then 99999 else Trunc(log[|log| - 1].time - seen.time)
  }

  /** The unit is a hero of my team at its place, with the nearest distances and the first five enemies in the slots. */
  ghost predicate UnitIs(root: Root, start: State, log: seq<Line>, enemies: seq<string>, u: UnitData)
    requires log != []
  {
    && InTeam(log, u.name, start.myTeam) && StandsAt(log, u.name, u.x, u.y, u.z)
    && NearestHero(root, start, log, u.x, u.y, true, u.allyDist)
    && NearestHero(root, start, log, u.x, u.y, false, u.enemyDist)
    && NearestTower(root, start.towers, u.x, u.y, start.myTeam, u.allyTowerDist)
    && NearestTower(root, start.towers, u.x, u.y, if start.myTeam == 2 then 3 else 2, u.enemyTowerDist)
    && |u.enemies| == Min(|enemies|, 5)
    && forall k | 0 <= k < |u.enemies| :: SlotIs(root, start, log, u.x, u.y, enemies[k], u.enemies[k])
  }

  /** The names in ascending order, each once, of the known heroes of my team or of the others. */
  ghost predicate TeamSorted(start: State, log: seq<Line>, mine: bool, names: seq<string>) {
    && Sorting.Ascending(names)
    && forall n :: n in names <==> FirstFiling(log, n).Some? && (InTeam(log, n, start.myTeam) <==> mine)
  }

  /** The frame has one unit for each hero of my team, in ascending order of the names. */
  ghost predicate FrameIs(root: Root, start: State, log: seq<Line>, f: Snapshot)
    requires log != []
  {
    && f.time == Sec(log[|log| - 1])
    && exists allies, enemies :: FrameUnits(root, start, log, f, allies, enemies)
  }

  ghost predicate FrameUnits(root: Root, start: State, log: seq<Line>, f: Snapshot, allies: seq<string>,
                             enemies: seq<string>)
    requires log != []
  {
    && TeamSorted(start, log, true, allies) && TeamSorted(start, log, false, enemies)
    && |f.units| == |allies|
    && forall k | 0 <= k < |allies| :: f.units[k].name == allies[k] && UnitIs(root, start, log, enemies, f.units[k])
  }

  lemma TeamSortedFromLog(root: Root, start: State, log: seq<Line>, s: State, mine: bool)
    requires StateIs(root, start, log, s)
    ensures TeamSorted(start, log, mine, Sorting.SortedNames(TeamNames(s, mine)))
  {
    var names := Sorting.SortedNames(TeamNames(s, mine));
    forall n
      ensures n in names <==> FirstFiling(log, n).Some? && (InTeam(log, n, start.myTeam) <==> mine)
    {
      assert AgreesOn(root, start, log, s, n);
    }
  }

  lemma SlotFromLog(root: Root, start: State, log: seq<Line>, s: State, ally: Hero, name: string)
    requires StateIs(root, start, log, s) && name in s.heroes
    ensures SlotIs(root, start, log, ally.x, ally.y, name, SightingOf(root, s, ally, s.heroes[name]))
  {
    assert AgreesOn(root, start, log, s, name);
    var h := s.heroes[name];
    assert GetDist(root, ally.x, ally.y, h.lastX, h.lastY) == Away(root, ally.x, ally.y, h.lastX, h.lastY);
  }

  lemma UnitFromLog(root: Root, start: State, log: seq<Line>, s: State, name: string, enemies: seq<string>)
    requires StateIs(root, start, log, s) && name in s.heroes && Known(s, enemies) && s.heroes[name].team == s.myTeam
    ensures UnitIs(root, start, log, enemies, UnitOf(root, s, s.heroes[name], enemies))
  {
    var h := s.heroes[name];
    assert AgreesOn(root, start, log, s, name);
    NearestHeroFromLog(root, start, log, s, h.x, h.y, true);
    NearestHeroFromLog(root, start, log, s, h.x, h.y, false);
    NearestTowerFromLog(root, s, h.x, h.y, start.myTeam);
    NearestTowerFromLog(root, s, h.x, h.y, if start.myTeam == 2 then 3 else 2);
    forall k | 0 <= k < Min(|enemies|, 5)
      ensures SlotIs(root, start, log, h.x, h.y, enemies[k], Sightings(root, s, h, enemies)[k])
    {
      SlotFromLog(root, start, log, s, h, enemies[k]);
    }
  }

  lemma FrameFromLog(root: Root, start: State, log: seq<Line>, s: State)
    requires StateIs(root, start, log, s)
    ensures FrameIs(root, start, log, SnapshotOf(root, s, Sec(log[|log| - 1])))
  {
    var (allies, enemies) := (Sorting.SortedNames(TeamNames(s, true)), Sorting.SortedNames(TeamNames(s, false)));
    var f := SnapshotOf(root, s, Sec(log[|log| - 1]));
    TeamSortedFromLog(root, start, log, s, true);
    TeamSortedFromLog(root, start, log, s, false);
    SortedNamesKnown(s, true);
    SortedNamesKnown(s, false);
    forall k | 0 <= k < |allies|
      ensures f.units[k].name == allies[k] && UnitIs(root, start, log, enemies, f.units[k])
    {
      assert allies[k] in TeamNames(s, true);
      assert AgreesOn(root, start, log, s, allies[k]);
      UnitFromLog(root, start, log, s, allies[k], enemies);
    }
    assert FrameUnits(root, start, log, f, allies, enemies);
  }

  /** For every log whose last line takes a snapshot, the last frame is what the log says: the heroes of my team in
      ascending order of their names, each at its latest place with its nearest distances, and in its slots the last
      sightings of the first five enemies. */
  lemma LastFrameFromLog(root: Root, start: State, log: seq<Line>)
    requires start.heroes == map[] && Snaps(log)
    ensures (var frames := Watch(root, start, log).frames;
             frames != [] && FrameIs(root, start, log, frames[|frames| - 1]))
  {
    SnapsExactly(root, start, log);
    WatchedState(root, start, log);
    FrameFromLog(root, start, log, Watch(root, start, log).state);
  }

  // ---------- every frame ----------

  /** Line `j` takes the snapshot of second `t`. */
  predicate SnapsAt(log: seq<Line>, j: nat, t: int) {
    j < |log| && Snaps(log[..j + 1]) && Sec(log[j]) == t
  }

  lemma SnapsAtInPrefix(log: seq<Line>, n: nat, j: nat, t: int)
    requires j < n <= |log|
    ensures SnapsAt(log[..n], j, t) <==> SnapsAt(log, j, t)
  {
    assert log[..n][..j + 1] == log[..j + 1];
  }

  /** The last frame of the log up to line `j`. */
  ghost function FrameOfLine(root: Root, start: State, log: seq<Line>, j: nat): Snapshot
    requires j < |log| && Snaps(log[..j + 1])
  {
    SnapsExactly(root, start, log[..j + 1]);
    var frames := Watch(root, start, log[..j + 1]).frames;
    frames[|frames| - 1]
  }

  /** The frame is that of the line which takes the snapshot of its second; without one it is empty. */
  ghost predicate FrameFits(root: Root, start: State, log: seq<Line>, f: Snapshot) {
    && (forall j: nat | SnapsAt(log, j, f.time) :: f == FrameOfLine(root, start, log, j))
    && ((forall j: nat :: !SnapsAt(log, j, f.time)) ==> f.units == [])
  }

  lemma FrameFitsLonger(root: Root, start: State, log: seq<Line>, f: Snapshot)
    requires log != [] && FrameFits(root, start, log[..|log| - 1], f) && !SnapsAt(log, |log| - 1, f.time)
    ensures FrameFits(root, start, log, f)
  {
    var n := |log| - 1;
    forall j: nat | SnapsAt(log, j, f.time)
      ensures f == FrameOfLine(root, start, log, j)
    {
      SnapsAtInPrefix(log, n, j, f.time);
      assert log[..n][..j + 1] == log[..j + 1];
      assert f == FrameOfLine(root, start, log[..n], j);
    }
    if forall j: nat :: !SnapsAt(log, j, f.time) {
      forall j: nat
        ensures !SnapsAt(log[..n], j, f.time)
      {
        if j < n {
          SnapsAtInPrefix(log, n, j, f.time);
        }
      }
    }
  }

  /** A frame of a second between the latest one and the last line's is an empty filler. */
  lemma FillerFits(root: Root, start: State, log: seq<Line>, t: int)
    requires log != [] && Latest(log[..|log| - 1]) < t < Sec(log[|log| - 1])
    ensures FrameFits(root, start, log, Snapshot(t, []))
  {
    var n := |log| - 1;
    LatestBelow(log[..n], t);
    forall j: nat
      ensures !SnapsAt(log, j, t)
    {
      if j < n {
        assert log[..n][j] == log[j];
      }
    }
  }

  lemma SnapshotFits(root: Root, start: State, log: seq<Line>)
    requires Snaps(log)
    ensures (var frames := Watch(root, start, log).frames;
             && frames != [] && frames[|frames| - 1].time == Sec(log[|log| - 1])
             && FrameFits(root, start, log, frames[|frames| - 1]))
  {
    var n := |log| - 1;
    SnapsExactly(root, start, log);
    assert log[..n + 1] == log;
    assert SnapsAt(log, n, Sec(log[n]));
    forall j: nat | SnapsAt(log, j, Sec(log[n]))
      ensures j == n
    {}
  }

  /** No frame is later than the latest second. */
  lemma {:induction false} FramesNotAfter(root: Root, start: State, log: seq<Line>)
    ensures forall f | f in Watch(root, start, log).frames :: f.time <= Watch(root, start, log).last
    decreases |log|
  {
    if log != [] {
      FramesNotAfter(root, start, log[..|log| - 1]);
    }
  }

  /** Where the frames of a longer log come from. */
  lemma NewFrame(root: Root, r: Run, l: Line, f: Snapshot)
    requires f in Observe(root, r, l).frames
    ensures (var frames := Observe(root, r, l).frames;
             || f in r.frames
             || (r.last < f.time < Sec(l) && f == Snapshot(f.time, []))
             || (r.last < Sec(l) && f == frames[|frames| - 1]))
  {
    var frames := Observe(root, r, l).frames;
    var k :| 0 <= k < |frames| && frames[k] == f;
    var gap := if r.last != UNSET then Gap(r.last + 1, Sec(l)) else [];
    if |r.frames| <= k < |r.frames| + |gap| {
      assert f == gap[k - |r.frames|];
    }
  }

  lemma FrameFitsAfterLine(root: Root, start: State, log: seq<Line>, f: Snapshot)
    requires log != [] && f in Watch(root, start, log).frames
    requires f in Watch(root, start, log[..|log| - 1]).frames ==> FrameFits(root, start, log[..|log| - 1], f)
    ensures FrameFits(root, start, log, f)
  {
    var n := |log| - 1;
    var r := Watch(root, start, log[..n]);
    NewFrame(root, r, log[n], f);
    FramesNotAfter(root, start, log[..n]);
    LastIsLatest(root, start, log[..n]);
    SnapsExactly(root, start, log);
    assert log[..n + 1] == log;
    if f in r.frames {
      FrameFitsLonger(root, start, log, f);
    } else if r.last < f.time < Sec(log[n]) {
      FillerFits(root, start, log, f.time);
    } else {
      SnapshotFits(root, start, log);
    }
  }

  /** For every log, each frame is that of the line which takes the snapshot of its second, or empty if none does. */
  lemma {:induction false} EveryFrameFits(root: Root, start: State, log: seq<Line>)
    ensures forall f | f in Watch(root, start, log).frames :: FrameFits(root, start, log, f)
    decreases |log|
  {
    if log != [] {
      EveryFrameFits(root, start, log[..|log| - 1]);
      forall f | f in Watch(root, start, log).frames
        ensures FrameFits(root, start, log, f)
      {
        FrameFitsAfterLine(root, start, log, f);
      }
    }
  }

  lemma FrameOfLineIs(root: Root, start: State, log: seq<Line>, j: nat)
    requires start.heroes == map[] && j < |log| && Snaps(log[..j + 1])
    ensures FrameIs(root, start, log[..j + 1], FrameOfLine(root, start, log, j))
  {
    LastFrameFromLog(root, start, log[..j + 1]);
  }

  lemma FittingFrame(root: Root, start: State, log: seq<Line>, f: Snapshot, j: nat)
    requires f in Watch(root, start, log).frames && SnapsAt(log, j, f.time)
    ensures f == FrameOfLine(root, start, log, j)
  {
    EveryFrameFits(root, start, log);
    assert FrameFits(root, start, log, f);
  }

  /** The frame of a second reports what the log says up to the line that takes the snapshot. */
  lemma FrameOfSecond(root: Root, start: State, log: seq<Line>, f: Snapshot, j: nat)
    requires start.heroes == map[] && f in Watch(root, start, log).frames && SnapsAt(log, j, f.time)
    ensures FrameIs(root, start, log[..j + 1], f)
  {
    FittingFrame(root, start, log, f, j);
    FrameOfLineIs(root, start, log, j);
  }

  /** By the log the unit is a hero of my team, `enemies` being all other known heroes in ascending order. */
  ghost predicate UnitByLog(root: Root, start: State, log: seq<Line>, enemies: seq<string>, u: UnitData)
    requires log != []
  {
    TeamSorted(start, log, false, enemies) && UnitIs(root, start, log, enemies, u)
  }

  /** Line `j` takes the snapshot of second `t`, and the unit is as the log up to it says. */
  ghost predicate UnitOfSecond(root: Root, start: State, log: seq<Line>, t: int, j: nat, enemies: seq<string>,
                               u: UnitData)
  {
    SnapsAt(log, j, t) && UnitByLog(root, start, log[..j + 1], enemies, u)
  }

  // ---------- who is in sight ----------

  /** A place from which my team has vision at the last line: a living hero of it or a standing tower. */
  ghost predicate VisionFrom(start: State, log: seq<Line>, v: Source) {
    (exists n :: InTeam(log, n, start.myTeam) && IsAlive(log, n) && StandsAt(log, n, v.x, v.y, v.z))
    || TowerFrom(start, v)
  }

  predicate TowerFrom(start: State, v: Source) {
    exists t | t in start.towers :: t.team == start.myTeam && t.alive && v == Source(t.x, t.y, t.z)
  }

  /** A ward of my team, placed less than 360 seconds before the last line, stands there. */
  ghost predicate WardFrom(start: State, log: seq<Line>, observer: bool, v: Source)
    requires log != []
  {
    exists w: Ward :: WardStands(log, w.handle, w) && w.team == start.myTeam && log[|log| - 1].time < w.endTime
                && w.observer == observer && v == Source(w.x, w.y, w.z)
  }

  function SightRadius(start: State, log: seq<Line>): real {
    var isDay := if LatestCounted(log).Some? then Trunc(LatestCounted(log).value.time) % 600 < 300 else start.isDay;
    if isDay then 1800.0 else 800.0
  }

  /** The rules of sight over the log: vision and true sight by heroes, towers and wards as of the last line. */
  ghost predicate InSightByLog(start: State, log: seq<Line>, h: Hero)
    requires log != []
  {
    && IsAlive(log, h.name)
    && if Carries(log, h.name, "modifier_smoke_of_deceit") then
         exists v :: VisionFrom(start, log, v) && NoFarther(v, h, 1025.0)
       else
         && ((forall m | m in INVISIBILITY :: !Carries(log, h.name, m))
             || exists t :: (TowerFrom(start, t) || WardFrom(start, log, false, t)) && NoFarther(t, h, 900.0))
         && ((exists v :: VisionFrom(start, log, v) && HasSight(v, h, SightRadius(start, log), start.trees))
             || exists w :: WardFrom(start, log, true, w) && HasSight(w, h, 1600.0, start.trees))
  }

  /** The checked state as far as sight is concerned. */
  ghost predicate SightState(start: State, log: seq<Line>, s: State)
    requires log != []
  {
    && (forall name :: Remembers(log, name, HeroAt(s.heroes, name))) && GameStates.Named(s)
    && (forall w :: w in s.wards <==> WardStands(log, w.handle, w))
    && s.towers == start.towers && s.trees == start.trees && s.myTeam == start.myTeam && s.time == log[|log| - 1].time
    && s.isDay == (SightRadius(start, log) == 1800.0)
  }

  lemma CheckedSightState(root: Root, start: State, log: seq<Line>)
    requires start.heroes == map[] && start.wards == [] && log != []
    ensures SightState(start, log, Checked(root, start, log))
  {
    var n := |log| - 1;
    var (before, s) := (Watch(root, start, log[..n]).state, Checked(root, start, log));
    forall name
      ensures Remembers(log, name, HeroAt(s.heroes, name))
    {
      HeroesAreLatest(root, start, log[..n], name);
      LineRemembered(log, name, before);
    }
    ReachableStatesKeep(root, start, log[..n]);
    GameStates.UpdateKeepsNames(before, log[n]);
    UpdateKeeps(before, log[n]);
    UpdatedClock(before, log[n]);
    ClockFromLog(root, start, log);
    ObserveKeeps(root, Watch(root, start, log[..n]), log[n]);
    SnapshotKeepsClock(s);
    forall w
      ensures w in s.wards <==> WardStands(log, w.handle, w)
    {
      WardsFromLog(root, start, log, w);
    }
  }

  lemma SnapshotKeepsClock(s: State)
    ensures AllSpotted(s).isDay == s.isDay && AllSpotted(s).time == s.time
  {}

  lemma VisionSourcesFromLog(start: State, log: seq<Line>, s: State, v: Source)
    requires log != [] && SightState(start, log, s)
    ensures v in VisionSources(s) <==> VisionFrom(start, log, v)
    ensures v in TowerPlaces(s) <==> TowerFrom(start, v)
  {
    if n :| n in s.heroes && s.heroes[n].team == s.myTeam && s.heroes[n].alive && PlaceOf(s.heroes[n]) == v {
      assert Remembers(log, n, HeroAt(s.heroes, n));
      assert InTeam(log, n, start.myTeam) && IsAlive(log, n) && StandsAt(log, n, v.x, v.y, v.z);
    }
    if n :| InTeam(log, n, start.myTeam) && IsAlive(log, n) && StandsAt(log, n, v.x, v.y, v.z) {
      assert Remembers(log, n, HeroAt(s.heroes, n));
      assert PlaceOf(s.heroes[n]) == v;
    }
  }

  lemma WardPlacesFromLog(start: State, log: seq<Line>, s: State, observer: bool, v: Source)
    requires log != [] && SightState(start, log, s)
    ensures v in WardPlaces(s, observer) <==> WardFrom(start, log, observer, v)
  {}

  lemma SourcesFromLog(start: State, log: seq<Line>, s: State)
    requires log != [] && SightState(start, log, s)
    ensures forall v :: v in VisionSources(s) <==> VisionFrom(start, log, v)
    ensures forall v :: v in TowerPlaces(s) + WardPlaces(s, false) <==>
                          TowerFrom(start, v) || WardFrom(start, log, false, v)
    ensures forall v :: v in WardPlaces(s, true) <==> WardFrom(start, log, true, v)
  {
    forall v
      ensures v in VisionSources(s) <==> VisionFrom(start, log, v)
      ensures v in TowerPlaces(s) + WardPlaces(s, false) <==> TowerFrom(start, v) || WardFrom(start, log, false, v)
      ensures v in WardPlaces(s, true) <==> WardFrom(start, log, true, v)
    {
      VisionSourcesFromLog(start, log, s, v);
      WardPlacesFromLog(start, log, s, true, v);
      WardPlacesFromLog(start, log, s, false, v);
    }
  }

  lemma SightFromState(start: State, log: seq<Line>, s: State, name: string)
    requires log != [] && SightState(start, log, s) && name in s.heroes
    ensures InSight(s, s.heroes[name]) <==> InSightByLog(start, log, s.heroes[name])
  {
    var h := s.heroes[name];
    assert Remembers(log, name, HeroAt(s.heroes, name));
    SourcesFromLog(start, log, s);
    SeesExactly(h, VisionSources(s), WardPlaces(s, true), TowerPlaces(s) + WardPlaces(s, false), s.isDay, s.trees);
    assert h.modifiers * INVISIBILITY == {} <==> forall m | m in INVISIBILITY :: !Carries(log, name, m) by {
      assert forall m :: m in h.modifiers * INVISIBILITY <==> m in INVISIBILITY && Carries(log, name, m);
    }
  }

  /** For every log: the last line has the hero in sight, as the sightings count it, iff the hero is known and the
      rules over the log's heroes, towers, wards, modifiers and clock say so. */
  lemma SightFromLog(root: Root, start: State, log: seq<Line>, name: string)
    requires start.heroes == map[] && start.wards == [] && log != []
    ensures (var s := Checked(root, start, log);
             && (name in s.heroes <==> FirstFiling(log, name).Some?)
             && (name in s.heroes ==>
                   (var h := s.heroes[name];
                    && h.name == name && StandsAt(log, name, h.x, h.y, h.z)
                    && (SightedBy(root, start, log, name) <==> InSightByLog(start, log, h)))))
  {
    var s := Checked(root, start, log);
    CheckedSightState(root, start, log);
    assert Remembers(log, name, HeroAt(s.heroes, name));
    if name in s.heroes {
      SightFromState(start, log, s, name);
    }
  }
}
