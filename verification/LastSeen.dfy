/** Where and when an enemy was last seen, told from the log: at the latest snapshot that saw it or at the latest creep
    hit that revealed it, whichever is later. */
module LastSeen {
  import opened Numbers
  import opened Options
  import opened ReplayLog
  import opened Vision
  import opened HeroHistory
  import opened VisionTimeline

  datatype Seen = Seen(x: real, y: real, z: real, time: real)

  const NOWHERE := Seen(0.0, 0.0, 0.0, 0.0)

  /** The last line of the log takes a snapshot: it is the first of a new second. */
  predicate Snaps(log: seq<Line>) {
    log != [] && Sec(log[|log| - 1]) > -9999 && forall j | 0 <= j < |log| - 1 :: Sec(log[j]) < Sec(log[|log| - 1])
  }

  /** The latest second so far, if one lies above -9999. */
  function Latest(log: seq<Line>): int {
    if log == [] then UNSET else Max(Latest(log[..|log| - 1]), Sec(log[|log| - 1]))
  }

  lemma {:induction false} LatestBelow(log: seq<Line>, t: int)
    ensures Latest(log) < t <==> UNSET < t && forall j | 0 <= j < |log| :: Sec(log[j]) < t
  {
    if log != [] {
      LatestBelow(log[..|log| - 1], t);
    }
  }

  /** It is the parser's `lastTimeInt`. */
  lemma {:induction false} LastIsLatest(root: Root, start: State, log: seq<Line>)
    ensures Watch(root, start, log).last == Latest(log)
    decreases |log|
  {
    if log != [] {
      LastIsLatest(root, start, log[..|log| - 1]);
    }
  }

  lemma SnapsExactly(root: Root, start: State, log: seq<Line>)
    requires log != []
    ensures Snaps(log) <==> Sec(log[|log| - 1]) > Watch(root, start, log[..|log| - 1]).last
  {
    var n := |log| - 1;
    LastIsLatest(root, start, log[..n]);
    LatestBelow(log[..n], Sec(log[n]));
    assert forall j | 0 <= j < n :: log[..n][j] == log[j];
  }

  /** The state in which the last line's snapshot checks the enemies. */
  ghost function Checked(root: Root, start: State, log: seq<Line>): State
    requires log != []
  {
    Updated(Watch(root, start, log[..|log| - 1]).state, log[|log| - 1])
  }

  /** At the last line the hero is alive and in sight of my team. */
  ghost predicate SightedBy(root: Root, start: State, log: seq<Line>, name: string)
    requires log != []
  {
    var s := Checked(root, start, log);
    name in s.heroes && InSight(s, s.heroes[name])
  }

  lemma {:induction false} FiledIsPlaced(log: seq<Line>, name: string)
    ensures Filed(log, name) <==> LatestPlace(log, name).Some?
  {
    if log != [] {
      FiledIsPlaced(log[..|log| - 1], name);
    }
  }

  function SeenAt(l: Line, time: real): Seen {
    Seen(WorldX(l.x), WorldY(l.y), l.z, time)
  }

  /** The last line reveals the hero by a creep hit. */
  predicate Revealed(log: seq<Line>, name: string) {
    log != []
    && var (n, l) := (|log| - 1, log[|log| - 1]);
       Filed(log[..n], name) && Reveals(l, name, TeamOf(log[..n], name))
  }

  /** Where and when the hero was last seen before the last line's snapshot. */
  ghost function BeforeSnapshot(root: Root, start: State, log: seq<Line>, name: string): Seen
    requires log != []
    decreases |log|, 0
  {
    var (n, l) := (|log| - 1, log[|log| - 1]);
    if Revealed(log, name) then SeenAt(l, l.time) else LastSight(root, start, log[..n], name)
  }

  /** The last line's snapshot counts the hero as seen: it is an enemy, and it is alive and in sight or was last seen
      less than 0.1 seconds before. */
  ghost predicate SnapshotSees(root: Root, start: State, log: seq<Line>, name: string)
    requires log != []
    decreases |log|, 1
  {
    && Snaps(log) && Filed(log, name) && TeamOf(log, name) != start.myTeam
    && (SightedBy(root, start, log, name)
        || log[|log| - 1].time - BeforeSnapshot(root, start, log, name).time < 0.1)
  }

  /** Where and when the hero was last seen: at the place it then had, by the latest snapshot that counted it as seen or
      the latest creep hit that revealed it; the zeros of a new record if there was neither. */
  ghost function LastSight(root: Root, start: State, log: seq<Line>, name: string): Seen
    decreases |log|, 2
  {
    if log == [] then NOWHERE
    else if SnapshotSees(root, start, log, name) then
      FiledIsPlaced(log, name);
      SeenAt(LatestPlace(log, name).value, log[|log| - 1].time)
    else BeforeSnapshot(root, start, log, name)
  }

  predicate ShowsSight(h: Option<Hero>, seen: Seen) {
    if h.Some? then Seen(h.value.lastX, h.value.lastY, h.value.lastZ, h.value.lastTime) == seen else seen == NOWHERE
  }

  /** `Update` itself changes the last sighting at a revealing creep hit only. */
  lemma UpdateSight(log: seq<Line>, name: string, s: State, seen: Seen)
    requires log != [] && Remembers(log[..|log| - 1], name, HeroAt(s.heroes, name))
    requires ShowsSight(HeroAt(s.heroes, name), seen)
    ensures (var l := log[|log| - 1];
             ShowsSight(HeroAt(Updated(s, l).heroes, name), if Revealed(log, name) then SeenAt(l, l.time) else seen))
  {
    var (l, h) := (log[|log| - 1], HeroAt(s.heroes, name));
    if !Files(l, name) && !(h.Some? && (IsModifierLine(l, name) || Reveals(l, name, h.value.team))) {
      NotTouched(s, l, name);
    }
  }

  /** What the snapshot does to one hero. */
  lemma SnapshotSight(s: State, name: string, place: Line, seen: Seen)
    requires name in s.heroes && AtLine(s.heroes[name], place) && ShowsSight(Some(s.heroes[name]), seen)
    ensures (var h := s.heroes[name];
             ShowsSight(HeroAt(AllSpotted(s).heroes, name),
                        if h.team != s.myTeam && (InSight(s, h) || s.time - seen.time < 0.1) then SeenAt(place, s.time)
                        else seen))
  {}

  lemma UpdateKeepsClock(s: State, l: Line)
    ensures Updated(s, l).time == l.time && Updated(s, l).myTeam == s.myTeam
  {}

  lemma {:induction false} TeamNeverChanges(root: Root, start: State, log: seq<Line>)
    ensures Watch(root, start, log).state.myTeam == start.myTeam
    decreases |log|
  {
    if log != [] {
      TeamNeverChanges(root, start, log[..|log| - 1]);
      UpdateKeepsClock(Watch(root, start, log[..|log| - 1]).state, log[|log| - 1]);
    }
  }

  /** The last line, its snapshot included, moves the last sighting as the log says. */
  lemma LineSight(root: Root, start: State, log: seq<Line>, name: string)
    requires log != [] && start.heroes == map[]
    requires (var before := Watch(root, start, log[..|log| - 1]).state;
              ShowsSight(HeroAt(before.heroes, name), LastSight(root, start, log[..|log| - 1], name)))
    ensures ShowsSight(HeroAt(Watch(root, start, log).state.heroes, name), LastSight(root, start, log, name))
  {
    var n := |log| - 1;
    var before := Watch(root, start, log[..n]).state;
    var s := Checked(root, start, log);
    HeroesAreLatest(root, start, log[..n], name);
    LineRemembered(log, name, before);
    UpdateSight(log, name, before, LastSight(root, start, log[..n], name));
    SnapsExactly(root, start, log);
    TeamNeverChanges(root, start, log[..n]);
    UpdateKeepsClock(before, log[n]);
    if name in s.heroes {
      SnapshotSight(s, name, LatestPlace(log, name).value, BeforeSnapshot(root, start, log, name));
    }
  }

  /** For every log and hero: the last seen place and time of the state, which the vision frames report, are those of
      the latest sighting in the log. */
  lemma {:induction false} LastSeenIsLatest(root: Root, start: State, log: seq<Line>, name: string)
    requires start.heroes == map[]
    ensures ShowsSight(HeroAt(Watch(root, start, log).state.heroes, name), LastSight(root, start, log, name))
    decreases |log|
  {
    if log != [] {
      LastSeenIsLatest(root, start, log[..|log| - 1], name);
      LineSight(root, start, log, name);
    }
  }

  // ---------- what the 0.1 seconds do ----------

  /** Exactly when a snapshot counts an enemy not seen before as seen: before second 0.1 always, even dead or hidden;
      from then on only alive and in sight. */
  lemma FirstSightExactly(root: Root, start: State, log: seq<Line>, name: string)
    requires Snaps(log) && Filed(log, name) && TeamOf(log, name) != start.myTeam
    requires BeforeSnapshot(root, start, log, name).time == 0.0
    ensures SnapshotSees(root, start, log, name) <==>
              log[|log| - 1].time < 0.1 || SightedBy(root, start, log, name)
  {}

  /** A log of one line: a dead enemy appears before the game starts and counts as seen where it is. */
  lemma DeadEnemySeenAtStart(root: Root, start: State, l: Line, name: string)
    requires start.heroes == map[] && Files(l, name) && l.lifeState != 0 && TeamOfSlot(l.slot) != start.myTeam
    requires UNSET < Sec(l) && l.time < 0.1
    ensures (var s := Watch(root, start, [l]).state;
             && name in s.heroes && !s.heroes[name].alive && s.heroes[name].visible
             && ShowsSight(HeroAt(s.heroes, name), SeenAt(l, l.time)))
  {
    assert [l][..0] == [];
    assert Watch(root, start, []) == Run(start, UNSET, []);
    var s := Updated(start, l);
    assert s.heroes[name].lastTime == 0.0 && !s.heroes[name].alive;
    NeverSeenIsSeenEarly(s, s.heroes[name]);
    assert Watch(root, start, [l]).state == AllSpotted(s);
  }
}
