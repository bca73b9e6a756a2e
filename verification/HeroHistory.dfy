/** What `Update` remembers of a hero, told from the log alone: after any log each hero's team, life, place and
    modifiers are those of certain latest lines. */
module HeroHistory {
  import opened Options
  import opened Names
  import opened ReplayLog
  import opened Vision
  import VisionTimeline

  /** An interval line of the hero. */
  predicate Files(l: Line, name: string) {
    l.kind.Interval? && Contains(l.unit, "Hero") && NormalizeName(l.unit) == name
  }

  /** The hero's first interval line: from here on the hero is known. */
  function FirstFiling(log: seq<Line>, name: string): Option<Line> {
    if log == [] then None
    else
      var (n, l) := (|log| - 1, log[|log| - 1]);
      if FirstFiling(log[..n], name).Some? then FirstFiling(log[..n], name)
      else if Files(l, name) then Some(l) else None
  }

  predicate Filed(log: seq<Line>, name: string) {
    FirstFiling(log, name).Some?
  }

  function TeamOf(log: seq<Line>, name: string): int
    requires Filed(log, name)
  {
    TeamOfSlot(FirstFiling(log, name).value.slot)
  }

  /** The hero's latest interval line. */
  function LatestFiling(log: seq<Line>, name: string): Option<Line> {
    if log == [] then None
    else if Files(log[|log| - 1], name) then Some(log[|log| - 1])
    else LatestFiling(log[..|log| - 1], name)
  }

  /** The hero hits a creep of the other side. */
  predicate Reveals(l: Line, name: string, team: int) {
    && l.kind.Damage? && l.attackerName == name && Contains(l.targetName, "creep")
    && team == if Contains(l.targetName, "goodguys") then 3 else 2
  }

  /** The latest line that places the hero: an interval line, or a creep hit once the hero is known. */
  function LatestPlace(log: seq<Line>, name: string): Option<Line> {
    if log == [] then None
    else
      var (n, l) := (|log| - 1, log[|log| - 1]);
      if Files(l, name) || (Filed(log[..n], name) && Reveals(l, name, TeamOf(log[..n], name))) then Some(l)
      else LatestPlace(log[..n], name)
  }

  /** The latest add or remove line of the modifier since the hero is known is an add. */
  predicate Carries(log: seq<Line>, name: string, modifier: string) {
    log != []
    && var (n, l) := (|log| - 1, log[|log| - 1]);
       if (l.kind.ModifierAdd? || l.kind.ModifierRemove?) && l.targetName == name && l.inflictor == modifier
          && Filed(log[..n], name)
       then l.kind.ModifierAdd?
       else Carries(log[..n], name, modifier)
  }

  /** What the state holds under a name. */
  function HeroAt(heroes: map<string, Hero>, name: string): Option<Hero> {
    if name in heroes then Some(heroes[name]) else None
  }

  /** It is what the log says. */
  ghost predicate Remembers(log: seq<Line>, name: string, h: Option<Hero>) {
    && (h.Some? <==> Filed(log, name))
    && (forall m :: Carries(log, name, m) <==> h.Some? && m in h.value.modifiers)
    && (h.Some? ==>
          && h.value.team == TeamOf(log, name)
          && LatestFiling(log, name).Some? && h.value.alive == (LatestFiling(log, name).value.lifeState == 0)
          && LatestPlace(log, name).Some? && AtLine(h.value, LatestPlace(log, name).value))
  }

  predicate AtLine(h: Hero, l: Line) {
    h.x == WorldX(l.x) && h.y == WorldY(l.y) && h.z == l.z
  }

  // ---------- one line ----------

  predicate IsModifierLine(l: Line, name: string) {
    (l.kind.ModifierAdd? || l.kind.ModifierRemove?) && l.targetName == name
  }

  lemma OtherLine(log: seq<Line>, name: string, h: Option<Hero>)
    requires log != [] && Remembers(log[..|log| - 1], name, h)
    requires (var l := log[|log| - 1];
              !Files(l, name) && !(h.Some? && (IsModifierLine(l, name) || Reveals(l, name, h.value.team))))
    ensures Remembers(log, name, h)
  {}

  function Moved(h: Hero, l: Line): Hero {
    h.(x := WorldX(l.x), y := WorldY(l.y), z := l.z)
  }

  lemma FilingLine(log: seq<Line>, name: string, h: Option<Hero>)
    requires log != [] && Remembers(log[..|log| - 1], name, h) && Files(log[|log| - 1], name)
    ensures (var l := log[|log| - 1];
             var g := if h.Some? then h.value else FreshHero(name, l.slot);
             Remembers(log, name, Some(Moved(g, l).(alive := l.lifeState == 0))))
  {
    assert forall m :: Carries(log, name, m) <==> Carries(log[..|log| - 1], name, m);
  }

  lemma RevealingLine(log: seq<Line>, name: string, h: Hero, seen: Hero)
    requires log != [] && Remembers(log[..|log| - 1], name, Some(h)) && Reveals(log[|log| - 1], name, h.team)
    requires SameButSeen(Moved(h, log[|log| - 1]), seen)
    ensures Remembers(log, name, Some(seen))
  {
    assert forall m :: Carries(log, name, m) <==> Carries(log[..|log| - 1], name, m);
  }

  lemma ModifierLine(log: seq<Line>, name: string, h: Hero)
    requires log != [] && Remembers(log[..|log| - 1], name, Some(h)) && IsModifierLine(log[|log| - 1], name)
    ensures (var l := log[|log| - 1];
             Remembers(log, name, Some(h.(modifiers := if l.kind.ModifierAdd? then h.modifiers + {l.inflictor}
                                                        else h.modifiers - {l.inflictor}))))
  {
    var l := log[|log| - 1];
    assert forall m :: Carries(log, name, m) <==> if m == l.inflictor then l.kind.ModifierAdd? else m in h.modifiers;
  }

  /** The heroes differ at most in when and where they were seen last. */
  predicate SameButSeen(h: Hero, g: Hero) {
    g == h.(visible := g.visible, lastX := g.lastX, lastY := g.lastY, lastZ := g.lastZ, lastTime := g.lastTime)
  }

  lemma LineRemembered(log: seq<Line>, name: string, s: State)
    requires log != [] && Remembers(log[..|log| - 1], name, HeroAt(s.heroes, name))
    ensures Remembers(log, name, HeroAt(Updated(s, log[|log| - 1]).heroes, name))
  {
    var (l, h) := (log[|log| - 1], HeroAt(s.heroes, name));
    if Files(l, name) {
      FilingLine(log, name, h);
    } else if h.Some? && IsModifierLine(l, name) {
      ModifierLine(log, name, h.value);
    } else if h.Some? && Reveals(l, name, h.value.team) {
      RevealingLine(log, name, h.value, HeroAt(Updated(s, l).heroes, name).value);
    } else {
      OtherLine(log, name, h);
      NotTouched(s, l, name);
    }
  }

  lemma NotTouched(s: State, l: Line, name: string)
    requires (var h := HeroAt(s.heroes, name);
              && !Files(l, name) && !(h.Some? && (IsModifierLine(l, name) || Reveals(l, name, h.value.team))))
    ensures HeroAt(Updated(s, l).heroes, name) == HeroAt(s.heroes, name)
  {}

  lemma SightingChangesNothing(log: seq<Line>, name: string, s: State)
    requires Remembers(log, name, HeroAt(s.heroes, name))
    ensures Remembers(log, name, HeroAt(AllSpotted(s).heroes, name))
  {
    if name in s.heroes {
      assert SameButSeen(s.heroes[name], AllSpotted(s).heroes[name]);
    }
  }

  /** For every log and name: a hero is known once it had an interval line; its team is that of its first such line, its
      life that of the latest, its place that of the latest line that places it, and it carries exactly the modifiers
      whose latest add or remove line since then is an add.  Snapshots taken in between change none of this. */
  lemma {:induction false} HeroesAreLatest(root: Root, start: State, log: seq<Line>, name: string)
    requires start.heroes == map[]
    ensures Remembers(log, name, HeroAt(VisionTimeline.Watch(root, start, log).state.heroes, name))
    decreases |log|
  {
    if log != [] {
      var n := |log| - 1;
      var before := VisionTimeline.Watch(root, start, log[..n]).state;
      HeroesAreLatest(root, start, log[..n], name);
      LineRemembered(log, name, before);
      SightingChangesNothing(log, name, Updated(before, log[n]));
    }
  }
}
