/** The imperative vision state, proved against the functions of `Vision`.  Wherever `CalculateVisibility` and the
    functions it calls range over a Go map the loops below take the keys in an order chosen freely at every step. */
module GameStates {
  import opened Numbers
  import opened Names
  import opened ReplayLog
  import opened Trees
  import opened Sorting
  import opened Sequences
  import opened Vision

  /** Every hero is filed under its own name. */
  predicate Named(s: State) {
    forall n | n in s.heroes :: s.heroes[n].name == n
  }

  lemma UpdateKeepsNames(s: State, l: Line)
    requires Named(s)
    ensures Named(Updated(s, l))
  {}

  lemma SpottingKeepsNames(s: State)
    requires Named(s)
    ensures Named(AllSpotted(s))
  {}

  lemma {:induction false} WithoutWardAt(wards: seq<Ward>, handle: int, i: nat)
    requires i <= |wards| && forall k | 0 <= k < i :: wards[k].handle != handle
    requires i < |wards| ==> wards[i].handle == handle
    ensures WithoutWard(wards, handle) == if i < |wards| then wards[..i] + wards[i + 1..] else wards
  {
    if i > 0 {
      WithoutWardAt(wards[1..], handle, i - 1);
      assert wards == [wards[0]] + wards[1..];
    }
  }

  /** Every hero outside `rest` has been checked, the others are as before. */
  ghost predicate CheckedBut(s: State, now: map<string, Hero>, rest: set<string>) {
    && now.Keys == s.heroes.Keys
    && forall n | n in now :: now[n] == if n in rest then s.heroes[n] else NextHero(s, s.heroes[n])
  }

  lemma CheckedOneMore(s: State, now: map<string, Hero>, rest: set<string>, n: string)
    requires CheckedBut(s, now, rest) && n in rest && n in now
    ensures CheckedBut(s, if s.heroes[n].team != s.myTeam then now[n := NextHero(s, s.heroes[n])] else now, rest - {n})
  {}

  lemma AllChecked(s: State, now: map<string, Hero>)
    requires CheckedBut(s, now, {})
    ensures now == AllSpotted(s).heroes
  {}

  /** `names` lists, each once, the enemies outside `rest`. */
  ghost predicate EnemiesBut(s: State, names: seq<string>, rest: set<string>) {
    && (forall i, j | 0 <= i < j < |names| :: names[i] != names[j])
    && forall n :: n in names <==> n in s.heroes && n !in rest && s.heroes[n].team != s.myTeam
  }

  lemma EnemyListed(s: State, names: seq<string>, rest: set<string>, n: string)
    requires EnemiesBut(s, names, rest) && n in s.heroes && n in rest
    ensures EnemiesBut(s, if s.heroes[n].team != s.myTeam then names + [n] else names, rest - {n})
  {}

  class GameState {
    var time: real
    var isDay: bool
    var heroes: map<string, Hero>
    var wards: seq<Ward>
    var towers: seq<Tower>
    var trees: TreeGrid
    const myTeam: int

    function View(): State
      reads this
    {
      State(time, isDay, heroes, wards, myTeam, towers, trees)
    }

    predicate Valid()
      reads this
    {
      Named(View()) && Indexed(trees)
    }

    constructor (team: int)
      ensures Valid()
      ensures View() == State(0.0, false, map[], [], team, [], map[])
    {
      time, isDay, heroes, wards, towers, trees, myTeam := 0.0, false, map[], [], [], map[], team;
    }

    /** `InitMap` on decoded positions: towers right of or above the map's origin belong to team 3. */
    method InitMap(towerPositions: seq<(real, real)>, treePositions: seq<Tree>)
      requires Valid() && towers == []
      modifies this`towers, this`trees
      ensures Valid() && View() == old(View()).(towers := towers, trees := trees)
      ensures |towers| == |towerPositions|
      ensures forall i | 0 <= i < |towers| ::
                var (x, y) := (towerPositions[i].0, towerPositions[i].1);
                towers[i] == Tower(if x > 0.0 || y > 0.0 then 3 else 2, x, y, 128.0, true)
      ensures forall tree :: Stored(trees, tree) <==> tree in treePositions
    {
      for k := 0 to |towerPositions|
        invariant |towers| == k
        invariant forall i | 0 <= i < k ::
                    var (x, y) := (towerPositions[i].0, towerPositions[i].1);
                    towers[i] == Tower(if x > 0.0 || y > 0.0 then 3 else 2, x, y, 128.0, true)
      {
        var (x, y) := (towerPositions[k].0, towerPositions[k].1);
        var team := if x > 0.0 || y > 0.0 then 3 else 2;
        towers := towers + [Tower(team, x, y, 128.0, true)];
      }
      trees := LoadTrees(treePositions);
    }

    // ---------- Update ----------

    /** `RemoveWard`: cut the first ward with the handle out of the slice. */
    method RemoveWard(handle: int)
      modifies this`wards
      ensures wards == WithoutWard(old(wards), handle)
    {
      var i := 0;
      while i < |wards| && wards[i].handle != handle
        invariant i <= |wards| && forall k | 0 <= k < i :: wards[k].handle != handle
      {
        i := i + 1;
      }
      WithoutWardAt(wards, handle, i);
      if i < |wards| {
        wards := wards[..i] + wards[i + 1..];
      }
    }

    method Update(l: Line)
      requires Valid()
      modifies this
      ensures Valid() && View() == Updated(old(View()), l)
    {
      UpdateKeepsNames(View(), l);
      time := l.time;
      if l.time >= 0.0 {
        isDay := Trunc(l.time) % 600 < 300;
      }
      match l.kind {
        case Interval => OnInterval(l);
        case Observer => OnWard(l);
        case Sentry => OnWard(l);
        case Damage => OnDamage(l);
        case ModifierAdd => OnModifier(l);
        case ModifierRemove => OnModifier(l);
        case _ =>
      }
    }

    method OnInterval(l: Line)
      modifies this`heroes
      ensures View() == HeroMoves(old(View()), l)
    {
      if Contains(l.unit, "Hero") {
        var name := NormalizeName(l.unit);
        if name !in heroes {
          heroes := heroes[name := FreshHero(name, l.slot)];
        }
        heroes := heroes[name := heroes[name].(x := WorldX(l.x), y := WorldY(l.y), z := l.z,
                                               alive := l.lifeState == 0)];
      }
    }

    method OnWard(l: Line)
      modifies this`wards
      ensures View() == WardChanges(old(View()), l)
    {
      RemoveWard(l.handle);
      if l.entityLeft == 1 {
        return;
      }
      wards := wards + [WardOf(l)];
    }

    method OnDamage(l: Line)
      modifies this`heroes
      ensures View() == CreepHit(old(View()), l)
    {
      if l.attackerName in heroes && Contains(l.targetName, "creep") {
        var attacker := heroes[l.attackerName];
        var goodTarget := Contains(l.targetName, "goodguys");
        if (goodTarget && attacker.team == 3) || (!goodTarget && attacker.team == 2) {
          attacker := attacker.(x := WorldX(l.x), y := WorldY(l.y), z := l.z, lastTime := l.time);
          attacker := attacker.(lastX := attacker.x, lastY := attacker.y, lastZ := attacker.z);
          heroes := heroes[l.attackerName := attacker];
        }
      }
    }

    method OnModifier(l: Line)
      modifies this`heroes
      ensures View() == ModifierChanges(old(View()), l)
    {
      if l.targetName in heroes {
        var hero := heroes[l.targetName];
        var modifiers := if l.kind.ModifierAdd? then hero.modifiers + {l.inflictor} else hero.modifiers - {l.inflictor};
        heroes := heroes[l.targetName := hero.(modifiers := modifiers)];
      }
    }

    // ---------- CalculateVisibility ----------

    /** Range over the heroes in any order: the team's own names, and the places its living heroes see from. */
    method CollectAllies() returns (names: seq<string>, vision: seq<Source>)
      ensures forall i, j | 0 <= i < j < |names| :: names[i] != names[j]
      ensures forall n :: n in names <==> n in TeamNames(View(), true)
      ensures forall v :: v in vision <==> exists n | n in names :: heroes[n].alive && PlaceOf(heroes[n]) == v
    {
      names, vision := [], [];
      var rest := heroes.Keys;
      while rest != {}
        invariant rest <= heroes.Keys
        invariant forall i, j | 0 <= i < j < |names| :: names[i] != names[j]
        invariant forall n :: n in names <==> n in TeamNames(View(), true) && n !in rest
        invariant forall v :: v in vision <==> exists n | n in names :: heroes[n].alive && PlaceOf(heroes[n]) == v
        decreases rest
      {
        var n :| n in rest;
        ghost var namesBefore, visionBefore := names, vision;
        rest := rest - {n};
        var h := heroes[n];
        if h.team == myTeam {
          names := names + [n];
          if h.alive {
            vision := vision + [PlaceOf(h)];
          }
          assert forall m :: m in names <==> m in namesBefore || m == n;
          assert forall v :: v in vision <==> v in visionBefore || (h.alive && v == PlaceOf(h));
        }
      }
    }

    method CollectTowers() returns (places: seq<Source>)
      ensures forall v :: v in places <==> v in TowerPlaces(View())
    {
      places := [];
      for i := 0 to |towers|
        invariant forall v :: v in places <==>
                    exists k | 0 <= k < i :: towers[k].team == myTeam && towers[k].alive
                                             && v == Source(towers[k].x, towers[k].y, towers[k].z)
      {
        var t := towers[i];
        if t.team == myTeam && t.alive {
          places := places + [Source(t.x, t.y, t.z)];
        }
      }
    }

    method CollectWards() returns (observers: seq<Source>, sentries: seq<Source>)
      ensures forall v :: v in observers <==> v in WardPlaces(View(), true)
      ensures forall v :: v in sentries <==> v in WardPlaces(View(), false)
    {
      observers, sentries := [], [];
      for i := 0 to |wards|
        invariant forall v :: v in observers <==> exists k | 0 <= k < i :: ShowsFrom(wards[k], v, true)
        invariant forall v :: v in sentries <==> exists k | 0 <= k < i :: ShowsFrom(wards[k], v, false)
      {
        var w := wards[i];
        if w.team == myTeam && time < w.endTime {
          if w.observer {
            observers := observers + [Source(w.x, w.y, w.z)];
          } else {
            sentries := sentries + [Source(w.x, w.y, w.z)];
          }
        }
      }
    }

    predicate ShowsFrom(w: Ward, v: Source, observer: bool)
      reads this
    {
      w.team == myTeam && time < w.endTime && w.observer == observer && v == Source(w.x, w.y, w.z)
    }

    method IsUnitVisible(enemy: Hero, vision: seq<Source>, observers: seq<Source>, trueSight: seq<Source>)
      returns (visible: bool)
      requires Indexed(trees)
      ensures visible <==> Sees(enemy, Elements(vision), Elements(observers), Elements(trueSight), isDay, trees)
    {
      if SMOKE in enemy.modifiers {
        visible := AnyInRange(vision, enemy, SMOKE_BREAK_RADIUS);
        return;
      }
      var isInvisible := false;
      var rest := enemy.modifiers;
      while rest != {} && !isInvisible
        invariant rest <= enemy.modifiers
        invariant isInvisible ==> Invisible(enemy)
        invariant !isInvisible ==> forall m | m in enemy.modifiers && m !in rest :: m !in INVISIBILITY
        decreases rest
      {
        var m :| m in rest;
        rest := rest - {m};
        if m in INVISIBILITY {
          isInvisible := true;
        }
      }
      if isInvisible {
        var revealed := AnyInRange(trueSight, enemy, SENTRY_RADIUS);
        if !revealed {
          return false;
        }
      }
      visible := AnyClearSight(vision, enemy, if isDay then DAY_RADIUS else NIGHT_RADIUS);
      if !visible {
        visible := AnyClearSight(observers, enemy, WARD_RADIUS);
      }
    }

    method AnyInRange(places: seq<Source>, enemy: Hero, radius: real) returns (found: bool)
      ensures found <==> exists v | v in Elements(places) :: InRange(v, enemy, radius)
    {
      for i := 0 to |places|
        invariant forall k | 0 <= k < i :: !InRange(places[k], enemy, radius)
      {
        if GetDistSq(places[i].x, places[i].y, enemy.x, enemy.y) <= radius * radius {
          assert places[i] in Elements(places);
          return true;
        }
      }
      found := false;
    }

    method AnyClearSight(places: seq<Source>, enemy: Hero, radius: real) returns (found: bool)
      requires Indexed(trees)
      ensures found <==> exists v | v in Elements(places) :: ClearSight(v, enemy, radius, trees)
    {
      for i := 0 to |places|
        invariant forall k | 0 <= k < i :: !ClearSight(places[k], enemy, radius, trees)
      {
        var v := places[i];
        if GetDistSq(v.x, v.y, enemy.x, enemy.y) <= radius * radius {
          var blocked := IsPathBlockedByTrees(trees, v.x, v.y, enemy.x, enemy.y);
          if enemy.z <= v.z + HIGH_GROUND && !blocked {
            assert v in Elements(places);
            return true;
          }
        }
      }
      found := false;
    }

    /** Check one enemy: it must be alive and in sight, or its recorded last sighting less than 0.1 seconds old. */
    method CheckEnemy(e: Hero, vision: seq<Source>, observers: seq<Source>, trueSight: seq<Source>)
      returns (enemy: Hero)
      requires Indexed(trees)
      ensures var seen := (e.alive && Sees(e, Elements(vision), Elements(observers), Elements(trueSight), isDay, trees))
                          || time - e.lastTime < 0.1;
              enemy == if seen then e.(visible := true, lastX := e.x, lastY := e.y, lastZ := e.z, lastTime := time)
                       else e.(visible := false)
    {
      var visibleNow := false;
      if e.alive {
        visibleNow := IsUnitVisible(e, vision, observers, trueSight);
      }
      if time - e.lastTime < 0.1 {
        visibleNow := true;
      }
      enemy := e.(visible := visibleNow);
      if visibleNow {
        enemy := enemy.(lastX := enemy.x, lastY := enemy.y, lastZ := enemy.z, lastTime := time);
      }
    }

    /** Check one enemy in place; `s` is the state before the range. */
    method SpotOne(ghost s: State, n: string, vision: seq<Source>, observers: seq<Source>, trueSight: seq<Source>)
      requires Indexed(trees) && View() == s.(heroes := heroes)
      requires n in s.heroes && n in heroes && heroes[n] == s.heroes[n] && heroes[n].team != myTeam
      requires Elements(vision) == VisionSources(s) && Elements(observers) == WardPlaces(s, true)
      requires Elements(trueSight) == TowerPlaces(s) + WardPlaces(s, false)
      modifies this`heroes
      ensures heroes == old(heroes)[n := NextHero(s, s.heroes[n])]
    {
      var enemy := CheckEnemy(heroes[n], vision, observers, trueSight);
      heroes := heroes[n := enemy];
    }

    /** Range over the heroes in any order and check every enemy, updating it in place. */
    method SpotEnemies(vision: seq<Source>, observers: seq<Source>, trueSight: seq<Source>) returns (names: seq<string>)
      requires Indexed(trees)
      requires Elements(vision) == VisionSources(View()) && Elements(observers) == WardPlaces(View(), true)
      requires Elements(trueSight) == TowerPlaces(View()) + WardPlaces(View(), false)
      modifies this`heroes
      ensures View() == AllSpotted(old(View()))
      ensures forall i, j | 0 <= i < j < |names| :: names[i] != names[j]
      ensures forall n :: n in names <==> n in TeamNames(old(View()), false)
    {
      ghost var s := View();
      names := [];
      var rest := heroes.Keys;
      while rest != {}
        invariant View() == s.(heroes := heroes) && rest <= s.heroes.Keys
        invariant CheckedBut(s, heroes, rest) && EnemiesBut(s, names, rest)
        decreases rest
      {
        var n :| n in rest;
        EnemyListed(s, names, rest, n);
        CheckedOneMore(s, heroes, rest, n);
        rest := rest - {n};
        if heroes[n].team != myTeam {
          names := names + [n];
          SpotOne(s, n, vision, observers, trueSight);
        }
      }
      AllChecked(s, heroes);
    }

    method GetNearestHeroDist(root: Root, x: real, y: real, team: int, wantAlly: bool) returns (d: real)
      ensures d == Nearest(HeroDists(root, View(), x, y, team, wantAlly))
    {
      d := FAR;
      ghost var dists := HeroDists(root, View(), x, y, team, wantAlly);
      var rest := heroes.Keys;
      while rest != {}
        invariant rest <= heroes.Keys
        invariant d <= FAR && (d == FAR || d in dists)
        invariant forall n | n in heroes && n !in rest && Counts(heroes[n], x, y, team, wantAlly) ::
                    d <= GetDist(root, x, y, heroes[n].x, heroes[n].y)
        decreases rest
      {
        var n :| n in rest;
        rest := rest - {n};
        var h := heroes[n];
        if h.alive && !(h.x == x && h.y == y) && ((h.team == team) == wantAlly) {
          var e := GetDist(root, x, y, h.x, h.y);
          assert e in dists;
          if e < d {
            d := e;
          }
        }
      }
      NearestUnique(d, Nearest(dists), dists);
    }

    method GetNearestTowerDist(root: Root, x: real, y: real, team: int) returns (d: real)
      ensures d == Nearest(TowerDists(root, View(), x, y, team))
    {
      d := FAR;
      ghost var dists := TowerDists(root, View(), x, y, team);
      for i := 0 to |towers|
        invariant d <= FAR && (d == FAR || d in dists)
        invariant forall k | 0 <= k < i && towers[k].team == team && towers[k].alive ::
                    d <= GetDist(root, x, y, towers[k].x, towers[k].y)
      {
        var t := towers[i];
        if t.team == team && t.alive {
          var e := GetDist(root, x, y, t.x, t.y);
          assert e in dists;
          if e < d {
            d := e;
          }
        }
      }
      NearestUnique(d, Nearest(dists), dists);
    }

    /** The enemy slots of an ally: the first five enemies. */
    method FillSlots(root: Root, ally: Hero, enemies: seq<string>) returns (sightings: seq<Sighting>)
      requires Known(View(), enemies)
      ensures sightings == Sightings(root, View(), ally, enemies)
    {
      sightings := [];
      for i := 0 to |enemies|
        invariant |sightings| == if i < 5 then i else 5
        invariant forall k | 0 <= k < |sightings| :: sightings[k] == SightingOf(root, View(), ally, heroes[enemies[k]])
      {
        if i < 5 {
          sightings := sightings + [SightingOf(root, View(), ally, heroes[enemies[i]])];
        }
      }
    }

    method DescribeAlly(root: Root, ally: Hero, enemies: seq<string>) returns (data: UnitData)
      requires Known(View(), enemies)
      ensures data == UnitOf(root, View(), ally, enemies)
    {
      var allyDist := GetNearestHeroDist(root, ally.x, ally.y, ally.team, true);
      var enemyDist := GetNearestHeroDist(root, ally.x, ally.y, ally.team, false);
      var allyTower := GetNearestTowerDist(root, ally.x, ally.y, ally.team);
      var enemyTower := GetNearestTowerDist(root, ally.x, ally.y, EnemyTeam(ally.team));
      var sightings := FillSlots(root, ally, enemies);
      data := UnitData(ally.name, ally.x, ally.y, ally.z, allyDist, enemyDist, allyTower, enemyTower, sightings);
    }

    /** Whatever order the map ranges take, the snapshot and the next state are functions of the state before. */
    method CalculateVisibility(root: Root, second: int) returns (snapshot: Snapshot)
      requires Valid()
      modifies this`heroes
      ensures Valid()
      ensures View() == AllSpotted(old(View()))
      ensures snapshot == SnapshotOf(root, View(), second)
    {
      ghost var s := View();
      SpottingKeepsNames(s);
      var allies, vision := CollectAllies();
      var towerPlaces := CollectTowers();
      var observers, sentries := CollectWards();
      SourcesOf(s, allies, vision, towerPlaces);
      assert Elements(towerPlaces + sentries) == TowerPlaces(s) + WardPlaces(s, false);
      assert Elements(observers) == WardPlaces(s, true);
      var enemies := SpotEnemies(vision + towerPlaces, observers, towerPlaces + sentries);
      snapshot := Describe(root, second, allies, enemies);
    }

    /** Sort both teams by name and describe every ally. */
    method Describe(root: Root, second: int, allies: seq<string>, enemies: seq<string>) returns (snapshot: Snapshot)
      requires forall i, j | 0 <= i < j < |allies| :: allies[i] != allies[j]
      requires forall i, j | 0 <= i < j < |enemies| :: enemies[i] != enemies[j]
      requires forall n :: n in allies <==> n in TeamNames(View(), true)
      requires forall n :: n in enemies <==> n in TeamNames(View(), false)
      ensures snapshot == SnapshotOf(root, View(), second)
    {
      var sortedAllies := SortByName(allies);
      var sortedEnemies := SortByName(enemies);
      AscendingUnique(sortedAllies, SortedNames(TeamNames(View(), true)));
      AscendingUnique(sortedEnemies, SortedNames(TeamNames(View(), false)));
      SortedNamesKnown(View(), true);
      SortedNamesKnown(View(), false);
      snapshot := DescribeInOrder(root, second, sortedAllies, sortedEnemies);
    }

    method DescribeInOrder(root: Root, second: int, allies: seq<string>, enemies: seq<string>)
      returns (snapshot: Snapshot)
      requires Known(View(), allies) && Known(View(), enemies)
      ensures snapshot == SnapshotInOrder(root, View(), second, allies, enemies)
    {
      var units: seq<UnitData> := [];
      for i := 0 to |allies|
        invariant |units| == i
        invariant forall k | 0 <= k < i :: units[k] == UnitOf(root, View(), heroes[allies[k]], enemies)
      {
        var data := DescribeAlly(root, heroes[allies[i]], enemies);
        units := units + [data];
      }
      snapshot := Snapshot(second, units);
    }
  }

  lemma SourcesOf(s: State, allies: seq<string>, vision: seq<Source>, towerPlaces: seq<Source>)
    requires forall n :: n in allies <==> n in TeamNames(s, true)
    requires forall v :: v in vision <==>
                           exists n | n in allies :: n in s.heroes && s.heroes[n].alive && PlaceOf(s.heroes[n]) == v
    requires forall v :: v in towerPlaces <==> v in TowerPlaces(s)
    ensures Elements(vision + towerPlaces) == VisionSources(s)
  {}
}
