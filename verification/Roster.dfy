/** What the general parser remembers of heroes between lines, told from the log alone: the name a slot stands for, the
    side of a hero and the items it holds. */
module Roster {
  import opened Options
  import opened Names
  import opened ReplayLog
  import opened GeneralTimeline
  import opened LogOrder

  predicate NamesHero(l: Line) {
    l.unit != "" && Contains(l.unit, "Hero")
  }

  /** The hero of the slot: the unit of the latest kept interval line that names a hero in it, "" before that. */
  function SlotName(log: seq<Line>, slot: int): string {
    if log == [] then ""
    else
      var (n, l) := (|log| - 1, log[|log| - 1]);
      if Kept(log, n) && NamesSlot(l, slot) then NormalizeHeroName(l.unit) else SlotName(log[..n], slot)
  }

  predicate NamesSlot(l: Line, slot: int) {
    l.kind.Interval? && NamesHero(l) && l.slot == slot
  }

  /** The hero an interval line behind `log` is about: its own unit, or else the hero of its slot. */
  function NameOf(log: seq<Line>, l: Line): string {
    if NamesHero(l) then NormalizeHeroName(l.unit) else SlotName(log, l.slot)
  }

  /** The side of the hero: that of the latest kept interval line about it, none before that. */
  function SideOf(log: seq<Line>, hero: string): Option<bool> {
    if log == [] then None
    else
      var (n, l) := (|log| - 1, log[|log| - 1]);
      if Kept(log, n) && ShowsSide(l, NameOf(log[..n], l), hero) then Some(l.slot < 5) else SideOf(log[..n], hero)
  }

  /** An interval line about the hero called `name` shows the side of `hero`. */
  predicate ShowsSide(l: Line, name: string, hero: string) {
    l.kind.Interval? && name != "" && NormalizeHeroName(name) == hero
  }

  /** The side a hero death behind `log` is credited to: the killer's side if it is known, otherwise the side opposite
      to the one named in the victim. */
  function CreditOf(log: seq<Line>, l: Line): Side {
    match SideOf(log, NormalizeHeroName(l.attackerName))
    case Some(isRadiant) => if isRadiant then Radiant else Dire
    case None =>
      if Contains(l.targetName, "goodguys") then Dire
      else if Contains(l.targetName, "badguys") then Radiant
      else Nobody
  }

  /** The items of the hero: each kept purchase appends one, each kept use of a consumable drops its first copy. */
  function ItemsOf(log: seq<Line>, hero: string): seq<string> {
    if log == [] then []
    else
      var (n, l) := (|log| - 1, log[|log| - 1]);
      var before := ItemsOf(log[..n], hero);
      if !Kept(log, n) then before
      else if BuysFor(l, hero) then before + [TrimPrefix(l.valueName, "item_")]
      else if UsesFor(l, hero) then RemoveFirst(before, TrimPrefix(l.inflictor, "item_"))
      else before
  }

  predicate BuysFor(l: Line, hero: string) {
    l.kind.Purchase? && l.targetName != "" && l.valueName != "" && NormalizeHeroName(l.targetName) == hero
  }

  predicate UsesFor(l: Line, hero: string) {
    && l.kind.ItemUsed? && l.attackerName != "" && l.inflictor != "" && TrimPrefix(l.inflictor, "item_") in CONSUMABLES
    && NormalizeHeroName(l.attackerName) == hero
  }

  // ---------- the parser's variables ----------

  /** What the parser's variables say about a slot and about a hero's side. */
  function SlotIn(s: State, slot: int): string {
    if slot in s.slotHero then s.slotHero[slot] else ""
  }

  function SideIn(s: State, hero: string): Option<bool> {
    if hero in s.heroSide then Some(s.heroSide[hero]) else None
  }

  lemma OpenFrameKeepsRoster(s: State, l: Line)
    ensures (var t := OpenFrame(s, l);
             && t.slotHero == s.slotHero && t.heroSide == s.heroSide && t.inventory == s.inventory
             && (Typed(l) ==> t.current.Some?))
  {}

  lemma OthersKeepRoster(s: State, l: Line)
    requires !l.kind.Interval?
    ensures Dispatch(s, l).slotHero == s.slotHero && Dispatch(s, l).heroSide == s.heroSide
  {}

  lemma IntervalSlot(s: State, l: Line, slot: int)
    ensures SlotIn(HeroInterval(s, l), slot) ==
            if NamesHero(l) && l.slot == slot then NormalizeHeroName(l.unit) else SlotIn(s, slot)
  {}

  lemma IntervalSide(s: State, l: Line, hero: string)
    requires s.current.Some?
    ensures SideIn(HeroInterval(s, l), hero) ==
            if HeroOf(s, l) != "" && NormalizeHeroName(HeroOf(s, l)) == hero then Some(l.slot < 5) else SideIn(s, hero)
  {}

  lemma LineSlot(s: State, l: Line, slot: int)
    ensures SlotIn(Dispatch(s, l), slot) == if NamesSlot(l, slot) then NormalizeHeroName(l.unit) else SlotIn(s, slot)
  {
    if l.kind.Interval? {
      IntervalSlot(s, l, slot);
    } else {
      OthersKeepRoster(s, l);
    }
  }

  lemma LineSide(s: State, l: Line, hero: string)
    requires Typed(l) ==> s.current.Some?
    ensures SideIn(Dispatch(s, l), hero) ==
            if ShowsSide(l, HeroOf(s, l), hero) then Some(l.slot < 5) else SideIn(s, hero)
  {
    if l.kind.Interval? {
      assert Dispatch(s, l) == HeroInterval(s, l);
      IntervalSide(s, l, hero);
    } else {
      OthersKeepRoster(s, l);
    }
  }

  lemma ItemsRoster(s: State, l: Line, hero: string)
    ensures Held(Dispatch(s, l), hero) ==
            if BuysFor(l, hero) then Held(s, hero) + [TrimPrefix(l.valueName, "item_")]
            else if UsesFor(l, hero) then RemoveFirst(Held(s, hero), TrimPrefix(l.inflictor, "item_"))
            else Held(s, hero)
  {
    if UsesFor(l, hero) {
      AbsentStays(Held(s, hero), TrimPrefix(l.inflictor, "item_"));
    }
  }

  lemma {:induction false} AbsentStays(items: seq<string>, item: string)
    ensures item !in items ==> RemoveFirst(items, item) == items
  {
    if items != [] {
      AbsentStays(items[1..], item);
    }
  }

  /** The parser's variables hold what the log says. */
  ghost predicate RosterIs(log: seq<Line>, s: State) {
    && (forall slot :: SlotIn(s, slot) == SlotName(log, slot))
    && (forall hero :: SideIn(s, hero) == SideOf(log, hero))
    && (forall hero :: Held(s, hero) == ItemsOf(log, hero))
  }

  lemma KeptLineRoster(log: seq<Line>, s: State)
    requires log != [] && Kept(log, |log| - 1) && RosterIs(log[..|log| - 1], s)
    requires Typed(log[|log| - 1]) ==> s.current.Some?
    ensures RosterIs(log, Dispatch(s, log[|log| - 1]))
  {
    var l := log[|log| - 1];
    var t := Dispatch(s, l);
    assert HeroOf(s, l) == NameOf(log[..|log| - 1], l) by {
      assert SlotIn(s, l.slot) == SlotName(log[..|log| - 1], l.slot);
    }
    forall slot
      ensures SlotIn(t, slot) == SlotName(log, slot)
    {
      LineSlot(s, l, slot);
    }
    forall hero
      ensures SideIn(t, hero) == SideOf(log, hero) && Held(t, hero) == ItemsOf(log, hero)
    {
      LineSide(s, l, hero);
      ItemsRoster(s, l, hero);
    }
  }

  lemma StepRoster(log: seq<Line>, s: State)
    requires log != [] && RosterIs(log[..|log| - 1], s) && (Kept(log, |log| - 1) <==> !Skips(s, log[|log| - 1]))
    ensures RosterIs(log, Step(s, log[|log| - 1]))
  {
    var l := log[|log| - 1];
    var s1 := s.(last := Started(s, l));
    assert RosterIs(log[..|log| - 1], s1);
    if Kept(log, |log| - 1) {
      OpenFrameKeepsRoster(s1, l);
      KeptLineRoster(log, OpenFrame(s1, l));
    }
  }

  /** For every log: slots, sides and items are as of the latest kept lines concerned. */
  lemma {:induction false} RosterIsLatest(id: int, log: seq<Line>)
    ensures RosterIs(log, Run(id, log))
    decreases |log|
  {
    if log != [] {
      var n := |log| - 1;
      RosterIsLatest(id, log[..n]);
      KeptMeansNotSkipped(id, log, n);
      StepRoster(log, Run(id, log[..n]));
    }
  }

  /** So the credit of a death and the hero of an interval line are those the log calls for. */
  lemma {:induction false} CreditFromLog(id: int, log: seq<Line>, l: Line)
    ensures Credit(Run(id, log), l) == CreditOf(log, l)
    ensures HeroOf(Run(id, log), l) == NameOf(log, l)
  {
    RosterIsLatest(id, log);
    assert SideIn(Run(id, log), NormalizeHeroName(l.attackerName)) == SideOf(log, NormalizeHeroName(l.attackerName));
    assert SlotIn(Run(id, log), l.slot) == SlotName(log, l.slot);
  }

  lemma HeldFromLog(id: int, log: seq<Line>, hero: string)
    ensures Held(Run(id, log), hero) == ItemsOf(log, hero)
  {
    RosterIsLatest(id, log);
  }
}
