/** The item lists the general parser keeps are counters per hero and item, and a hero's record shows the list
    as it stood at the line that produced the record. */
module Inventory {
  import opened Options
  import opened Names
  import opened ReplayLog
  import opened GeneralTimeline
  import opened LogOrder
  import opened Roster

  predicate Buys(l: Line, hero: string, item: string) {
    BuysFor(l, hero) && TrimPrefix(l.valueName, "item_") == item
  }

  predicate Consumes(l: Line, hero: string, item: string) {
    UsesFor(l, hero) && TrimPrefix(l.inflictor, "item_") == item
  }

  /** A counter: up at each kept purchase, down at each kept use of a consumable, never below zero. */
  function Stock(log: seq<Line>, hero: string, item: string): nat {
    if log == [] then 0
    else
      var (n, l) := (|log| - 1, log[|log| - 1]);
      var before := Stock(log[..n], hero, item);
      if !Kept(log, n) then before
      else if Buys(l, hero, item) then before + 1
      else if Consumes(l, hero, item) && before > 0 then before - 1
      else before
  }

  lemma {:induction false} RemoveFirstTakesOne(items: seq<string>, item: string)
    ensures multiset(RemoveFirst(items, item)) == multiset(items) - multiset{item}
  {
    if items != [] {
      assert items == [items[0]] + items[1..];
      if items[0] != item {
        RemoveFirstTakesOne(items[1..], item);
      }
    }
  }

  /** Opening a frame and the other line kinds leave the inventories alone. */
  lemma InventoryTouchedByItems(s: State, l: Line)
    ensures OpenFrame(s, l).inventory == s.inventory
    ensures !l.kind.Purchase? && !l.kind.ItemUsed? ==> Dispatch(s, l).inventory == s.inventory
  {}

  lemma PurchaseCounts(s: State, l: Line, hero: string, item: string)
    requires l.kind.Purchase?
    ensures multiset(Held(ItemPurchase(s, l), hero))[item]
         == multiset(Held(s, hero))[item] + if Buys(l, hero, item) then 1 else 0
  {}

  lemma UseCounts(s: State, l: Line, hero: string, item: string)
    requires l.kind.ItemUsed?
    ensures var a := multiset(Held(s, hero))[item];
            multiset(Held(ItemUse(s, l), hero))[item] == if Consumes(l, hero, item) && a > 0 then a - 1 else a
  {
    RemoveFirstTakesOne(Held(s, NormalizeHeroName(l.attackerName)), TrimPrefix(l.inflictor, "item_"));
  }

  /** One line moves the number of copies of an item as the counter says. */
  lemma ItemLineCounts(s: State, l: Line, hero: string, item: string)
    ensures var (a, b) := (multiset(Held(s, hero))[item], multiset(Held(Dispatch(s, l), hero))[item]);
            b == if Buys(l, hero, item) then a + 1 else if Consumes(l, hero, item) && a > 0 then a - 1 else a
  {
    match l.kind
    case Purchase => PurchaseCounts(s, l, hero, item);
    case ItemUsed => UseCounts(s, l, hero, item);
    case _ => InventoryTouchedByItems(s, l);
  }

  /** For every log, hero and item: the number of copies in the hero's list is the counter's value. */
  lemma {:induction false} InventoryIsStock(id: int, log: seq<Line>, hero: string, item: string)
    ensures multiset(Held(Run(id, log), hero))[item] == Stock(log, hero, item)
    decreases |log|
  {
    if log != [] {
      var n := |log| - 1;
      var s, l := Run(id, log[..n]), log[n];
      InventoryIsStock(id, log[..n], hero, item);
      RunTicks(id, log[..n]);
      var s1 := s.(last := Started(s, l));
      InventoryTouchedByItems(s1, l);
      ItemLineCounts(OpenFrame(s1, l), l, hero, item);
    }
  }

  // ---------- where records come from ----------

  /** Record `r`, leaving its flags aside, stems from line `j`: a kept interval line of second `t` that names the hero,
      directly or by its slot.  It shows the hero's side and the hero's items at that line. */
  predicate StemsFrom(log: seq<Line>, t: int, r: Record, j: nat) {
    && Kept(log, j) && log[j].kind.Interval? && Sec(log[j]) == t
    && r.heroName == NameOf(log[..j], log[j]) && r.heroName != ""
    && r.isRadiant == (log[j].slot < 5)
    && r.items == ItemsOf(log[..j], r.heroName)
  }

  ghost predicate Stems(log: seq<Line>, t: int, r: Record) {
    exists j: nat :: StemsFrom(log, t, r, j)
  }

  ghost predicate AllStem(log: seq<Line>, frames: seq<Frame>) {
    forall i, r | 0 <= i < |frames| && 0 <= r < |frames[i].heroes| :: Stems(log, frames[i].time, frames[i].heroes[r])
  }

  lemma AllStemInLongerLog(log: seq<Line>, n: nat, frames: seq<Frame>)
    requires n <= |log| && AllStem(log[..n], frames)
    ensures AllStem(log, frames)
  {
    forall i, r | 0 <= i < |frames| && 0 <= r < |frames[i].heroes|
      ensures Stems(log, frames[i].time, frames[i].heroes[r])
    {
      var j: nat :| StemsFrom(log[..n], frames[i].time, frames[i].heroes[r], j);
      KeptInPrefix(log, n, j);
      assert log[..n][..j] == log[..j];
      assert StemsFrom(log, frames[i].time, frames[i].heroes[r], j);
    }
  }

  /** `g` has the frames of `f`, with other labels, scores or match ids at most. */
  predicate SameRecords(f: seq<Frame>, g: seq<Frame>) {
    && |g| == |f|
    && forall i | 0 <= i < |f| ::
         && g[i].time == f[i].time && |g[i].heroes| == |f[i].heroes|
         && forall r | 0 <= r < |f[i].heroes| :: g[i].heroes[r] == f[i].heroes[r].(flags := g[i].heroes[r].flags)
  }

  lemma SameRecordsStem(log: seq<Line>, f: seq<Frame>, g: seq<Frame>)
    requires AllStem(log, f) && SameRecords(f, g)
    ensures AllStem(log, g)
  {
    forall i, r | 0 <= i < |g| && 0 <= r < |g[i].heroes|
      ensures Stems(log, g[i].time, g[i].heroes[r])
    {
      assert Stems(log, f[i].time, f[i].heroes[r]);
      var j: nat :| StemsFrom(log, f[i].time, f[i].heroes[r], j);
      assert StemsFrom(log, g[i].time, g[i].heroes[r], j);
    }
  }

  lemma OpenFrameAddsNoRecord(log: seq<Line>, s: State, l: Line)
    requires AllStem(log, Flushed(s))
    ensures AllStem(log, Flushed(OpenFrame(s, l)))
  {
    if OpensFrame(s, l) {
      var t := OpenFrame(s, l);
      var last := if s.current.Some? then s.current.value.time else s.last;
      var gap := Gap(s, last + 1, Sec(l));
      assert forall k | 0 <= k < |gap| :: gap[k] == Filler(s, last + 1 + k);
      assert Flushed(t) == Flushed(s) + gap + [t.current.value];
    }
  }

  lemma DeathKeepsRecords(s: State, l: Line)
    ensures SameRecords(Flushed(s), Flushed(HeroDeath(s, l)))
  {
    var t := HeroDeath(s, l);
    LabelKeepsRecords(s.results, l.targetName, Sec(l));
    assert SameRecords(s.results, t.results);
    assert forall i | 0 <= i < |s.results| :: Flushed(t)[i] == t.results[i] && Flushed(s)[i] == s.results[i];
  }

  lemma LabelKeepsRecords(results: seq<Frame>, name: string, d: int)
    ensures SameRecords(results, Label(results, name, d))
  {}

  lemma DispatchKeepsRecords(s: State, l: Line)
    requires !l.kind.Interval?
    ensures SameRecords(Flushed(s), Flushed(Dispatch(s, l)))
  {
    if l.kind.Death? && l.targetHero {
      DeathKeepsRecords(s, l);
    }
  }

  lemma AppendedRecordStems(log: seq<Line>, s: State, t: State, record: Record)
    requires AllStem(log, Flushed(s)) && s.current.Some? && t.results == s.results
    requires t.current == Some(s.current.value.(heroes := s.current.value.heroes + [record]))
    requires Stems(log, s.current.value.time, record)
    ensures AllStem(log, Flushed(t))
  {
    var (f, g) := (Flushed(s), Flushed(t));
    forall i, r | 0 <= i < |g| && 0 <= r < |g[i].heroes|
      ensures Stems(log, g[i].time, g[i].heroes[r])
    {
      if r < |f[i].heroes| {
        assert Stems(log, f[i].time, f[i].heroes[r]);
      }
    }
  }

  /** The interval's own record stems from the interval line: opening a frame changes neither slots nor inventories. */
  lemma IntervalRecordStems(id: int, log: seq<Line>, s1: State)
    requires log != [] && Kept(log, |log| - 1)
    requires var (s, l) := (Run(id, log[..|log| - 1]), log[|log| - 1]);
             l.kind.Interval? && s1 == s.(last := Started(s, l)) && HeroOf(OpenFrame(s1, l), l) != ""
    ensures var (l, s2) := (log[|log| - 1], OpenFrame(s1, log[|log| - 1]));
            Stems(log, Sec(l), Record(HeroOf(s2, l), l.slot < 5, Held(s2, HeroOf(s2, l)), NO_FLAGS))
  {
    var (l, s2) := (log[|log| - 1], OpenFrame(s1, log[|log| - 1]));
    assert s2.slotHero == s1.slotHero && s2.inventory == s1.inventory;
    CreditFromLog(id, log[..|log| - 1], l);
    HeldFromLog(id, log[..|log| - 1], HeroOf(s2, l));
    assert StemsFrom(log, Sec(l), Record(HeroOf(s2, l), l.slot < 5, Held(s2, HeroOf(s2, l)), NO_FLAGS), |log| - 1);
  }

  lemma KeptLineStems(id: int, log: seq<Line>, s1: State)
    requires log != [] && Kept(log, |log| - 1)
    requires var (s, l) := (Run(id, log[..|log| - 1]), log[|log| - 1]); s1 == s.(last := Started(s, l))
    requires AllStem(log, Flushed(s1))
    ensures var l := log[|log| - 1]; AllStem(log, Flushed(Dispatch(OpenFrame(s1, l), l)))
  {
    var l := log[|log| - 1];
    OpenFrameAddsNoRecord(log, s1, l);
    var s2 := OpenFrame(s1, l);
    if !l.kind.Interval? {
      DispatchKeepsRecords(s2, l);
      SameRecordsStem(log, Flushed(s2), Flushed(Dispatch(s2, l)));
    } else if HeroOf(s2, l) == "" {
      assert Flushed(HeroInterval(s2, l)) == Flushed(s2);
    } else {
      IntervalRecordStems(id, log, s1);
      AppendedRecordStems(log, s2, HeroInterval(s2, l),
                          Record(HeroOf(s2, l), l.slot < 5, Held(s2, HeroOf(s2, l)), NO_FLAGS));
    }
  }

  /** For every log, ordered or not: every record of the returned frames stems from a line of the frame's second. */
  lemma {:induction false} RecordsStemFromLines(id: int, log: seq<Line>)
    ensures AllStem(log, Timeline(id, log))
    decreases |log|
  {
    if log != [] {
      var n := |log| - 1;
      var s, l := Run(id, log[..n]), log[n];
      RecordsStemFromLines(id, log[..n]);
      AllStemInLongerLog(log, n, Flushed(s));
      RunTicks(id, log[..n]);
      var s1 := s.(last := Started(s, l));
      assert Flushed(s1) == Flushed(s);
      if Kept(log, n) {
        KeptLineStems(id, log, s1);
      }
    }
  }
}
