/** `GameState`: what one team sees.  Log lines update heroes, modifiers and wards; `CalculateVisibility` walks over
    Go maps, whose order is arbitrary, and must nevertheless produce one definite snapshot and one definite next state.
    The square root of `math.Sqrt` is an arbitrary function parameter. */
module Vision {
  import opened Numbers
  import opened Names
  import opened ReplayLog
  import opened Trees
  import opened Sorting
  import Grid

  const DAY_RADIUS := 1800.0
  const NIGHT_RADIUS := 800.0
  const WARD_RADIUS := 1600.0
  const SENTRY_RADIUS := 900.0
  const SMOKE_BREAK_RADIUS := 1025.0
  const HIGH_GROUND := 150.0
  const FAR := 99999.0
  const NEVER_SEEN := 99999
  const GRID_SCALE := 128.0
  const WARD_LIFE := 360.0
  const SMOKE := "modifier_smoke_of_deceit"
  const INVISIBILITY := {
    "modifier_rune_invis", "modifier_bounty_hunter_wind_walk", "modifier_clinkz_wind_walk",
    "modifier_item_glimmer_cape_fade", "modifier_item_invis_sword", "modifier_item_silver_edge",
    "modifier_invoker_ghost_walk_enemy", "modifier_nyx_assassin_vendetta", "modifier_sandking_sand_storm_invis",
    "modifier_templar_assassin_meld", "modifier_treant_nature_guise", "modifier_weaver_shukuchi",
    "modifier_winter_wyvern_cold_embrace"
  }

  datatype Hero = Hero(name: string, team: int, x: real, y: real, z: real, alive: bool, modifiers: set<string>,
                       visible: bool, lastX: real, lastY: real, lastZ: real, lastTime: real)

  datatype Tower = Tower(team: int, x: real, y: real, z: real, alive: bool)

  datatype Ward = Ward(handle: int, team: int, x: real, y: real, z: real, observer: bool, endTime: real)

  /** A place from which something is seen. */
  datatype Source = Source(x: real, y: real, z: real)

  datatype State = State(time: real, isDay: bool, heroes: map<string, Hero>, wards: seq<Ward>, myTeam: int,
                         towers: seq<Tower>, trees: TreeGrid)

  datatype Sighting = Sighting(name: string, x: int, y: int, square: int, dist: real, time: int)

  datatype UnitData = UnitData(name: string, x: real, y: real, z: real, allyDist: real, enemyDist: real,
                               allyTowerDist: real, enemyTowerDist: real, enemies: seq<Sighting>)

  datatype Snapshot = Snapshot(time: int, units: seq<UnitData>)

  function MapBox(): Grid.Box {
    Grid.Box(X_MIN, X_MAX, Y_MIN, Y_MAX, 32)
  }

  /** `ToWorld`. */
  function WorldX(x: real): real {
    X_MIN + x / GRID_SCALE * (X_MAX - X_MIN) - (X_MAX - X_MIN) / 2.0
  }

  function WorldY(y: real): real {
    Y_MIN + y / GRID_SCALE * (Y_MAX - Y_MIN) - (Y_MAX - Y_MIN) / 2.0
  }

  /** The replay's square from 64 to 192 is mapped linearly onto the map's box. */
  lemma WorldIsLinear(a: real, b: real)
    ensures WorldX(64.0) == -9400.0 && WorldX(192.0) == 8000.0
    ensures WorldY(64.0) == -8500.0 && WorldY(192.0) == 8500.0
    ensures 128.0 * (WorldX(a) - WorldX(b)) == 17400.0 * (a - b)
    ensures 128.0 * (WorldY(a) - WorldY(b)) == 17000.0 * (a - b)
  {}

  function GetDistSq(x1: real, y1: real, x2: real, y2: real): real {
    Sq(x1 - x2) + Sq(y1 - y2)
  }

  // ---------- Update ----------

  function TeamOfSlot(slot: int): int {
    if slot >= 5 then 3 else 2
  }

  function FreshHero(name: string, slot: int): Hero {
    Hero(name, TeamOfSlot(slot), 0.0, 0.0, 0.0, false, {}, false, 0.0, 0.0, 0.0, 0.0)
  }

  function WithClock(s: State, l: Line): State {
    s.(time := l.time, isDay := if l.time >= 0.0 then Trunc(l.time) % 600 < 300 else s.isDay)
  }

  function HeroMoves(s: State, l: Line): State {
    if !Contains(l.unit, "Hero") then s
    else
      var name := NormalizeName(l.unit);
      var h := if name in s.heroes then s.heroes[name] else FreshHero(name, l.slot);
      s.(heroes := s.heroes[name := h.(x := WorldX(l.x), y := WorldY(l.y), z := l.z, alive := l.lifeState == 0)])
  }

  /** Drop the first ward with the handle. */
  function WithoutWard(wards: seq<Ward>, handle: int): seq<Ward> {
    if wards == [] then []
    else if wards[0].handle == handle then wards[1..]
    else [wards[0]] + WithoutWard(wards[1..], handle)
  }

  function WardOf(l: Line): Ward {
    Ward(l.handle, TeamOfSlot(l.slot), WorldX(l.x), WorldY(l.y), l.z, l.kind.Observer?, l.time + WARD_LIFE)
  }

  function WardChanges(s: State, l: Line): State {
    var rest := WithoutWard(s.wards, l.handle);
    s.(wards := if l.entityLeft == 1 then rest else rest + [WardOf(l)])
  }

  /** Hitting the other side's creeps reveals the attacker. */
  function CreepHit(s: State, l: Line): State {
    if l.attackerName !in s.heroes || !Contains(l.targetName, "creep") then s
    else
      var a := s.heroes[l.attackerName];
      var goodTarget := Contains(l.targetName, "goodguys");
      if (goodTarget && a.team == 3) || (!goodTarget && a.team == 2) then
        var (x, y) := (WorldX(l.x), WorldY(l.y));
        s.(heroes := s.heroes[l.attackerName := a.(x := x, y := y, z := l.z,
                                                   lastX := x, lastY := y, lastZ := l.z, lastTime := l.time)])
      else s
  }

  function ModifierChanges(s: State, l: Line): State {
    if l.targetName !in s.heroes then s
    else
      var h := s.heroes[l.targetName];
      var modifiers := if l.kind.ModifierAdd? then h.modifiers + {l.inflictor} else h.modifiers - {l.inflictor};
      s.(heroes := s.heroes[l.targetName := h.(modifiers := modifiers)])
  }

  function Updated(s: State, l: Line): State {
    var s1 := WithClock(s, l);
    match l.kind
    case Interval => HeroMoves(s1, l)
    case Observer => WardChanges(s1, l)
    case Sentry => WardChanges(s1, l)
    case Damage => CreepHit(s1, l)
    case ModifierAdd => ModifierChanges(s1, l)
    case ModifierRemove => ModifierChanges(s1, l)
    case _ => s1
  }

  // ---------- who is seen ----------

  predicate InRange(v: Source, e: Hero, radius: real) {
    GetDistSq(v.x, v.y, e.x, e.y) <= radius * radius
  }

  /** Close enough, not too far above, and no tree in between. */
  ghost predicate ClearSight(v: Source, e: Hero, radius: real, trees: TreeGrid) {
    InRange(v, e, radius) && e.z <= v.z + HIGH_GROUND && !SomeTreeBlocks(trees, v.x, v.y, e.x, e.y)
  }

  predicate Invisible(e: Hero) {
    exists m | m in e.modifiers :: m in INVISIBILITY
  }

  /** `IsUnitVisible`, as a statement about the sources, in whatever order they come. */
  ghost predicate Sees(e: Hero, vision: set<Source>, observers: set<Source>, trueSight: set<Source>, isDay: bool,
                       trees: TreeGrid)
  {
    if SMOKE in e.modifiers then
      exists v | v in vision :: InRange(v, e, SMOKE_BREAK_RADIUS)
    else
      && (Invisible(e) ==> exists t | t in trueSight :: InRange(t, e, SENTRY_RADIUS))
      && ((exists v | v in vision :: ClearSight(v, e, if isDay then DAY_RADIUS else NIGHT_RADIUS, trees))
          || (exists w | w in observers :: ClearSight(w, e, WARD_RADIUS, trees)))
  }

  /** The source is no farther from the hero than `radius`. */
  predicate NoFarther(v: Source, e: Hero, radius: real) {
    (v.x - e.x) * (v.x - e.x) + (v.y - e.y) * (v.y - e.y) <= radius * radius
  }

  /** The source sees the hero: near enough, at most 150 below it, and no stored tree blocks the line between them. */
  ghost predicate HasSight(v: Source, e: Hero, radius: real, trees: TreeGrid) {
    NoFarther(v, e, radius) && e.z <= v.z + 150.0
    && !exists tree :: Stored(trees, tree) && Blocks(tree, v.x, v.y, e.x, e.y)
  }

  /** The rules: a smoked enemy is seen iff a vision source is within 1025; any other is seen iff it is not invisible or
      true sight is within 900, and a vision source has sight of it within 1800 by day and 800 by night, or an observer
      ward within 1600. */
  lemma SeesExactly(e: Hero, vision: set<Source>, observers: set<Source>, trueSight: set<Source>, isDay: bool,
                    trees: TreeGrid)
    ensures "modifier_smoke_of_deceit" in e.modifiers ==>
              (Sees(e, vision, observers, trueSight, isDay, trees) <==>
                 exists v | v in vision :: NoFarther(v, e, 1025.0))
    ensures "modifier_smoke_of_deceit" !in e.modifiers ==>
              (Sees(e, vision, observers, trueSight, isDay, trees) <==>
                 && (e.modifiers * INVISIBILITY == {} || exists t | t in trueSight :: NoFarther(t, e, 900.0))
                 && ((exists v | v in vision :: HasSight(v, e, if isDay then 1800.0 else 800.0, trees))
                     || exists w | w in observers :: HasSight(w, e, 1600.0, trees)))
  {
    assert forall v, radius :: InRange(v, e, radius) <==> NoFarther(v, e, radius);
    assert forall v, radius :: ClearSight(v, e, radius, trees) <==> HasSight(v, e, radius, trees);
    assert Invisible(e) <==> e.modifiers * INVISIBILITY != {} by {
      if Invisible(e) {
        var m :| m in e.modifiers && m in INVISIBILITY;
        assert m in e.modifiers * INVISIBILITY;
      }
    }
  }

  /** In particular: nobody more than 150 above every source is seen unless smoked, and nobody invisible without true
      sight within 900. */
  lemma HiddenAbove(e: Hero, vision: set<Source>, observers: set<Source>, trueSight: set<Source>, isDay: bool,
                    trees: TreeGrid)
    requires "modifier_smoke_of_deceit" !in e.modifiers
    ensures (forall v | v in vision + observers :: e.z > v.z + 150.0) ==>
              !Sees(e, vision, observers, trueSight, isDay, trees)
    ensures e.modifiers * INVISIBILITY != {} && (forall t | t in trueSight :: !NoFarther(t, e, 900.0)) ==>
              !Sees(e, vision, observers, trueSight, isDay, trees)
  {
    SeesExactly(e, vision, observers, trueSight, isDay, trees);
  }

  /** More sources, or day instead of night, never hide a visible enemy. */
  lemma MoreSourcesNeverHide(e: Hero, vision: set<Source>, observers: set<Source>, trueSight: set<Source>, isDay: bool,
                             vision': set<Source>, observers': set<Source>, trueSight': set<Source>, isDay': bool,
                             trees: TreeGrid)
    requires Sees(e, vision, observers, trueSight, isDay, trees)
    requires vision <= vision' && observers <= observers' && trueSight <= trueSight' && (isDay ==> isDay')
    ensures Sees(e, vision', observers', trueSight', isDay', trees)
  {}

  function PlaceOf(h: Hero): Source {
    Source(h.x, h.y, h.z)
  }

  function TowerPlaces(s: State): set<Source> {
    set t | t in s.towers && t.team == s.myTeam && t.alive :: Source(t.x, t.y, t.z)
  }

  function VisionSources(s: State): set<Source> {
    (set n | n in s.heroes && s.heroes[n].team == s.myTeam && s.heroes[n].alive :: PlaceOf(s.heroes[n]))
    + TowerPlaces(s)
  }

  function WardPlaces(s: State, observer: bool): set<Source> {
    set w | w in s.wards && w.team == s.myTeam && s.time < w.endTime && w.observer == observer :: Source(w.x, w.y, w.z)
  }

  /** The enemy is alive and one of my team's sources sees it. */
  ghost predicate InSight(s: State, e: Hero) {
    e.alive
    && Sees(e, VisionSources(s), WardPlaces(s, true), TowerPlaces(s) + WardPlaces(s, false), s.isDay, s.trees)
  }

  ghost predicate SeenNow(s: State, e: Hero) {
    InSight(s, e) || s.time - e.lastTime < 0.1
  }

  /** A dead enemy counts as seen only because its recorded last sighting is less than 0.1 seconds old. */
  lemma DeadSeenOnlyIfRecent(s: State, e: Hero)
    requires !e.alive
    ensures SeenNow(s, e) <==> s.time - e.lastTime < 0.1
  {}

  /** An enemy never seen carries time 0: before second 0.1 every check sees it, dead or hidden; from then on it must be
      alive and in sight. */
  lemma NeverSeenIsSeenEarly(s: State, e: Hero)
    requires e.lastTime == 0.0
    ensures SeenNow(s, e) <==> s.time < 0.1 || InSight(s, e)
  {}

  /** The enemy record after the check: a visible enemy's last known place and time are the present ones. */
  ghost function Spotted(s: State, e: Hero): Hero {
    if SeenNow(s, e) then e.(visible := true, lastX := e.x, lastY := e.y, lastZ := e.z, lastTime := s.time)
    else e.(visible := false)
  }

  ghost function NextHero(s: State, h: Hero): Hero {
    if h.team == s.myTeam then h else Spotted(s, h)
  }

  /** The state after `CalculateVisibility`: every enemy checked, everybody else as before. */
  ghost function AllSpotted(s: State): State {
    s.(heroes := map n | n in s.heroes :: NextHero(s, s.heroes[n]))
  }

  // ---------- the snapshot ----------

  /** The least of a set of distances, or `FAR`. */
  ghost predicate IsNearest(d: real, dists: set<real>) {
    d <= FAR && (forall e | e in dists :: d <= e) && (d == FAR || d in dists)
  }

  lemma NearestUnique(d: real, e: real, dists: set<real>)
    requires IsNearest(d, dists) && IsNearest(e, dists)
    ensures d == e
  {}

  ghost function Nearest(dists: set<real>): (d: real)
    ensures IsNearest(d, dists)
  {
    if exists e :: e in dists then
      var e :| e in dists;
      var d := Nearest(dists - {e});
      assert forall f | f in dists :: f == e || f in dists - {e};
      if e < d then e else d
    else
      FAR
  }

  type Root = real -> real

  function GetDist(root: Root, x1: real, y1: real, x2: real, y2: real): real {
    root(GetDistSq(x1, y1, x2, y2))
  }

  /** The heroes `getNearestHeroDist` looks at. */
  predicate Counts(h: Hero, x: real, y: real, team: int, wantAlly: bool) {
    h.alive && !(h.x == x && h.y == y) && ((h.team == team) == wantAlly)
  }

  function HeroDists(root: Root, s: State, x: real, y: real, team: int, wantAlly: bool): set<real> {
    set n | n in s.heroes && Counts(s.heroes[n], x, y, team, wantAlly) ::
      GetDist(root, x, y, s.heroes[n].x, s.heroes[n].y)
  }

  function TowerDists(root: Root, s: State, x: real, y: real, team: int): set<real> {
    set t | t in s.towers && t.team == team && t.alive :: GetDist(root, x, y, t.x, t.y)
  }

  function TeamNames(s: State, mine: bool): set<string> {
    set n | n in s.heroes && (s.heroes[n].team == s.myTeam) == mine
  }

  function SightingOf(root: Root, s: State, ally: Hero, enemy: Hero): Sighting {
    Sighting(enemy.name, Trunc(enemy.lastX), Trunc(enemy.lastY), Grid.CellId(MapBox(), enemy.lastX, enemy.lastY),
             GetDist(root, ally.x, ally.y, enemy.lastX, enemy.lastY),
             if enemy.lastTime == 0.0 then NEVER_SEEN else Trunc(s.time - enemy.lastTime))
  }

  function EnemyTeam(team: int): int {
    if team == 2 then 3 else 2
  }

  predicate Known(s: State, names: seq<string>) {
    forall i | 0 <= i < |names| :: names[i] in s.heroes
  }

  /** The first five enemies fill the slots. */
  function Sightings(root: Root, s: State, ally: Hero, enemies: seq<string>): seq<Sighting>
    requires Known(s, enemies)
  {
    seq(if |enemies| < 5 then |enemies| else 5,
        i requires 0 <= i < |enemies| => SightingOf(root, s, ally, s.heroes[enemies[i]]))
  }

  ghost function UnitOf(root: Root, s: State, ally: Hero, enemies: seq<string>): UnitData
    requires Known(s, enemies)
  {
    UnitData(ally.name, ally.x, ally.y, ally.z,
             Nearest(HeroDists(root, s, ally.x, ally.y, ally.team, true)),
             Nearest(HeroDists(root, s, ally.x, ally.y, ally.team, false)),
             Nearest(TowerDists(root, s, ally.x, ally.y, ally.team)),
             Nearest(TowerDists(root, s, ally.x, ally.y, EnemyTeam(ally.team))),
             Sightings(root, s, ally, enemies))
  }

  lemma SortedNamesKnown(s: State, mine: bool)
    ensures Known(s, SortedNames(TeamNames(s, mine)))
  {
    var names := SortedNames(TeamNames(s, mine));
    assert forall i | 0 <= i < |names| :: names[i] in names;
  }

  ghost function SnapshotInOrder(root: Root, s: State, second: int, allies: seq<string>, enemies: seq<string>): Snapshot
    requires Known(s, allies) && Known(s, enemies)
  {
    Snapshot(second, seq(|allies|, i requires 0 <= i < |allies| => UnitOf(root, s, s.heroes[allies[i]], enemies)))
  }

  /** The snapshot of a checked state, allies and enemies in the order of their names. */
  ghost function SnapshotOf(root: Root, s: State, second: int): Snapshot {
    SortedNamesKnown(s, true);
    SortedNamesKnown(s, false);
    SnapshotInOrder(root, s, second, SortedNames(TeamNames(s, true)), SortedNames(TeamNames(s, false)))
  }
}
