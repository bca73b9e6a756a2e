/** `ParseGeneralWorker`: one pass over the log that keeps one frame per second, the running scores, and, on each
    hero death, writes labels into the frames already stored. */
module GeneralTimeline {
  import opened Numbers
  import opened Options
  import opened Names
  import opened ReplayLog

  /** The five death flags of a hero record. */
  datatype Flags = Flags(in1: bool, in5: bool, in10: bool, in15: bool, in20: bool)

  const NO_FLAGS := Flags(false, false, false, false, false)

  datatype Record = Record(heroName: string, isRadiant: bool, items: seq<string>, flags: Flags)

  datatype Frame = Frame(matchId: int, time: int, isDay: bool, radiant: nat, dire: nat, heroes: seq<Record>)

  /** The parser's variables; `results` holds the finished frames, `current` the frame of the current second. */
  datatype State = State(
    results: seq<Frame>,
    current: Option<Frame>,
    heroSide: map<string, bool>,
    slotHero: map<int, string>,
    inventory: map<string, seq<string>>,
    radiant: nat,
    dire: nat,
    last: int,
    matchId: int
  )

  const UNSET := -99999
  const REACH := 20

  function Daylight(time: real): bool {
    time < 0.0 || Trunc(time) % 600 < 300
  }

  // ---------- labelling ----------

  /** Set every flag whose horizon covers a death `i` seconds ahead. */
  function Mark(f: Flags, i: int): Flags {
    Flags(f.in1 || i <= 1, f.in5 || i <= 5, f.in10 || i <= 10, f.in15 || i <= 15, f.in20 || i <= 20)
  }

  /** Record `r` is the first of its hero in the frame. */
  predicate IsFirst(hs: seq<Record>, r: nat)
    requires r < |hs|
  {
    forall q | 0 <= q < r :: hs[q].heroName != hs[r].heroName
  }

  /** Only the first record of the hero is labelled. */
  function LabelHeroes(hs: seq<Record>, name: string, i: int): seq<Record> {
    seq(|hs|, r requires 0 <= r < |hs| =>
      if hs[r].heroName == name && IsFirst(hs, r) then hs[r].(flags := Mark(hs[r].flags, i)) else hs[r])
  }

  function LabelFrame(f: Frame, name: string, i: int): Frame {
    f.(heroes := LabelHeroes(f.heroes, name, i))
  }

  /** The frames whose index lies 1 to 20 places before the index computed for the death are labelled. */
  function Label(results: seq<Frame>, name: string, deathTime: int): seq<Frame> {
    if results == [] then [] else LabelUpTo(results, name, deathTime - results[0].time, REACH)
  }

  function LabelUpTo(results: seq<Frame>, name: string, deathIndex: int, reach: nat): seq<Frame> {
    seq(|results|, k requires 0 <= k < |results| =>
      if 1 <= deathIndex - k <= reach then LabelFrame(results[k], name, deathIndex - k) else results[k])
  }

  // ---------- one line ----------

  /** `lastProcessedTime` once the line has been looked at. */
  function StartedAt(last: int, l: Line): int {
    if last == UNSET then Sec(l) else last
  }

  function Started(s: State, l: Line): int {
    StartedAt(s.last, l)
  }

  /** Lines with negative seconds after a positive second are skipped. */
  predicate SkipsAt(last: int, l: Line) {
    Sec(l) < 0 && StartedAt(last, l) > 0
  }

  predicate Skips(s: State, l: Line) {
    SkipsAt(s.last, l)
  }

  function Filler(s: State, t: int): Frame {
    Frame(s.matchId, t, Daylight(t as real), s.radiant, s.dire, [])
  }

  /** The gap fillers for the seconds from `from` up to, but not including, `to`. */
  function Gap(s: State, from: int, to: int): seq<Frame> {
    if from < to then seq(to - from, i => Filler(s, from + i)) else []
  }

  predicate OpensFrame(s: State, l: Line) {
    Typed(l) && (s.current.None? || s.current.value.time != Sec(l))
  }

  function Flushed(s: State): seq<Frame> {
    if s.current.Some? then s.results + [s.current.value] else s.results
  }

  function OpenFrame(s: State, l: Line): State {
    if !OpensFrame(s, l) then s
    else
      var t := Sec(l);
      var last := if s.current.Some? then s.current.value.time else s.last;
      s.(results := Flushed(s) + Gap(s, last + 1, t),
         current := Some(Frame(s.matchId, t, Daylight(l.time), s.radiant, s.dire, [])),
         last := t)
  }

  datatype Side = Radiant | Dire | Nobody

  /** The side a hero death is credited to: the killer's side if the killer is a known hero,
      otherwise the side opposite to the one named in the victim. */
  function Credit(s: State, l: Line): Side {
    var attacker := NormalizeHeroName(l.attackerName);
    if attacker in s.heroSide then
      if s.heroSide[attacker] then Radiant else Dire
    else if Contains(l.targetName, "goodguys") then Dire
    else if Contains(l.targetName, "badguys") then Radiant
    else Nobody
  }

  function HeroDeath(s: State, l: Line): State {
    var radiant := s.radiant + if Credit(s, l).Radiant? then 1 else 0;
    var dire := s.dire + if Credit(s, l).Dire? then 1 else 0;
    s.(radiant := radiant,
       dire := dire,
       current := if s.current.Some? then Some(s.current.value.(radiant := radiant, dire := dire)) else None,
       results := Label(s.results, l.targetName, Sec(l)))
  }

  /** The name the line's unit or slot stands for; "" when there is none. */
  function HeroOf(s: State, l: Line): string {
    if l.unit != "" && Contains(l.unit, "Hero") then NormalizeHeroName(l.unit)
    else if l.slot in s.slotHero then s.slotHero[l.slot] else ""
  }

  function HeroInterval(s: State, l: Line): State {
    var name := HeroOf(s, l);
    var s1 := if l.unit != "" && Contains(l.unit, "Hero") then s.(slotHero := s.slotHero[l.slot := name]) else s;
    if name == "" || s.current.None? then s1
    else
      var isRadiant := l.slot < 5;
      var record := Record(name, isRadiant, Held(s, name), NO_FLAGS);
      s1.(current := Some(s.current.value.(heroes := s.current.value.heroes + [record])),
          heroSide := s.heroSide[NormalizeHeroName(name) := isRadiant])
  }

  /** The items a hero holds; a hero without an entry holds none. */
  function Held(s: State, hero: string): seq<string> {
    if hero in s.inventory then s.inventory[hero] else []
  }

  const CONSUMABLES := {
    "tango", "clarity", "enchanted_mango", "faerie_fire", "flask", "ward_observer", "ward_sentry",
    "smoke_of_deceit", "dust", "tpscroll", "cheese", "refresher_shard", "aegis"
  }

  function ItemPurchase(s: State, l: Line): State {
    if l.targetName == "" || l.valueName == "" then s
    else
      var hero := NormalizeHeroName(l.targetName);
      s.(inventory := s.inventory[hero := Held(s, hero) + [TrimPrefix(l.valueName, "item_")]])
  }

  /** Drop the first copy of an item, if there is one. */
  function RemoveFirst(items: seq<string>, item: string): seq<string> {
    if items == [] then [] else if items[0] == item then items[1..] else [items[0]] + RemoveFirst(items[1..], item)
  }

  function ItemUse(s: State, l: Line): State {
    var hero := NormalizeHeroName(l.attackerName);
    var item := TrimPrefix(l.inflictor, "item_");
    if l.attackerName == "" || l.inflictor == "" || item !in CONSUMABLES || item !in Held(s, hero) then s
    else s.(inventory := s.inventory[hero := RemoveFirst(Held(s, hero), item)])
  }

  function Dispatch(s: State, l: Line): State {
    match l.kind
    case MatchId =>
      s.(matchId := l.matchId,
         current := if s.current.Some? then Some(s.current.value.(matchId := l.matchId)) else None)
    case Death => if l.targetHero then HeroDeath(s, l) else s
    case Purchase => ItemPurchase(s, l)
    case ItemUsed => ItemUse(s, l)
    case Interval => HeroInterval(s, l)
    case _ => s
  }

  function Step(s: State, l: Line): State {
    var s1 := s.(last := Started(s, l));
    if Skips(s, l) then s1 else Dispatch(OpenFrame(s1, l), l)
  }

  // ---------- the whole log ----------

  /** The variables before the first line; `matchId` comes from the epilogue scan. */
  function Initial(matchId: int): State {
    State([], None, map[], map[], map[], 0, 0, UNSET, matchId)
  }

  function Run(matchId: int, log: seq<Line>): State {
    if log == [] then Initial(matchId) else Step(Run(matchId, log[..|log| - 1]), log[|log| - 1])
  }

  /** The frames the parser returns. */
  function Timeline(matchId: int, log: seq<Line>): seq<Frame> {
    Flushed(Run(matchId, log))
  }

  // ---------- the parser ----------

  class GeneralParser {
    var results: seq<Frame>
    var current: Option<Frame>
    var heroSide: map<string, bool>
    var slotHero: map<int, string>
    var inventory: map<string, seq<string>>
    var radiant: nat
    var dire: nat
    var last: int
    var matchId: int

    function View(): State
      reads this
    {
      State(results, current, heroSide, slotHero, inventory, radiant, dire, last, matchId)
    }

    constructor (epilogueId: int)
      ensures View() == Initial(epilogueId)
    {
      results, current, heroSide, slotHero, inventory := [], None, map[], map[], map[];
      radiant, dire, last, matchId := 0, 0, UNSET, epilogueId;
    }

    /** `appendDeathPredict`: walk back from the death, one frame at a time, and label the hero's first record. */
    method AppendDeathPredict(name: string, deathTime: int)
      modifies this`results
      ensures results == Label(old(results), name, deathTime)
    {
      if |results| == 0 {
        return;
      }
      var deathIndex := deathTime - results[0].time;
      for i := 1 to REACH + 1
        invariant results == LabelUpTo(old(results), name, deathIndex, i - 1)
      {
        var idx := deathIndex - i;
        if 0 <= idx < |results| {
          var h := 0;
          while h < |results[idx].heroes| && results[idx].heroes[h].heroName != name
            invariant h <= |results[idx].heroes|
            invariant forall q | 0 <= q < h :: results[idx].heroes[q].heroName != name
          {
            h := h + 1;
          }
          var f := results[idx];
          if h < |f.heroes| {
            var hero := f.heroes[h];
            var marked := hero.(flags := Mark(hero.flags, i));
            assert f.heroes[h := marked] == LabelHeroes(f.heroes, name, i);
            results := results[idx := f.(heroes := f.heroes[h := marked])];
          } else {
            assert f.heroes == LabelHeroes(f.heroes, name, i);
          }
        }
      }
    }

    /** The body of the parser's loop for one decoded line. */
    method Feed(l: Line)
      modifies this
      ensures View() == Step(old(View()), l)
    {
      var t := Sec(l);
      if last == UNSET {
        last := t;
      }
      if t < 0 && last > 0 {
        return;
      }
      if Typed(l) && (current.None? || current.value.time != t) {
        OpenFrameFor(l);
      }
      Handle(l);
    }

    /** The switch over the line's type. */
    method Handle(l: Line)
      modifies this
      ensures View() == Dispatch(old(View()), l)
    {
      match l.kind {
        case MatchId =>
          matchId := l.matchId;
          if current.Some? {
            current := Some(current.value.(matchId := matchId));
          }
        case Death =>
          if l.targetHero {
            OnHeroDeath(l);
          }
        case Purchase =>
          OnPurchase(l);
        case ItemUsed =>
          OnItemUsed(l);
        case Interval =>
          OnInterval(l);
        case _ =>
      }
    }

    /** Credit the kill, update the current frame's scores, and label the frames before the death. */
    method OnHeroDeath(l: Line)
      modifies this
      ensures View() == HeroDeath(old(View()), l)
    {
      var attacker := NormalizeHeroName(l.attackerName);
      if attacker in heroSide {
        if heroSide[attacker] { radiant := radiant + 1; } else { dire := dire + 1; }
      } else if Contains(l.targetName, "goodguys") {
        dire := dire + 1;
      } else if Contains(l.targetName, "badguys") {
        radiant := radiant + 1;
      }
      if current.Some? {
        current := Some(current.value.(radiant := radiant, dire := dire));
      }
      AppendDeathPredict(l.targetName, Sec(l));
    }

    /** A purchased item is appended to the buyer's inventory. */
    method OnPurchase(l: Line)
      modifies this
      ensures View() == ItemPurchase(old(View()), l)
    {
      if l.targetName != "" && l.valueName != "" {
        var target := NormalizeHeroName(l.targetName);
        var held := if target in inventory then inventory[target] else [];
        inventory := inventory[target := held + [TrimPrefix(l.valueName, "item_")]];
      }
    }

    /** A used consumable leaves the user's inventory: the first copy is cut out. */
    method OnItemUsed(l: Line)
      modifies this
      ensures View() == ItemUse(old(View()), l)
    {
      if l.attackerName == "" || l.inflictor == "" {
        return;
      }
      var hero := NormalizeHeroName(l.attackerName);
      var item := TrimPrefix(l.inflictor, "item_");
      if item !in CONSUMABLES || hero !in inventory {
        return;
      }
      var held := inventory[hero];
      var i := 0;
      while i < |held| && held[i] != item
        invariant i <= |held|
        invariant item !in held[..i]
        invariant RemoveFirst(held, item) == held[..i] + RemoveFirst(held[i..], item)
      {
        assert held[i..][1..] == held[i + 1..];
        i := i + 1;
      }
      if i < |held| {
        assert held[i..][1..] == held[i + 1..];
        inventory := inventory[hero := held[..i] + held[i + 1..]];
      }
    }

    /** Append the hero's record to the current frame and remember the hero's slot and side. */
    method OnInterval(l: Line)
      modifies this
      ensures View() == HeroInterval(old(View()), l)
    {
      var name := "";
      if l.unit != "" && Contains(l.unit, "Hero") {
        name := NormalizeHeroName(l.unit);
        slotHero := slotHero[l.slot := name];
      } else if l.slot in slotHero {
        name := slotHero[l.slot];
      }
      if name != "" && current.Some? {
        var isRadiant := l.slot < 5;
        var items := if name in inventory then inventory[name] else [];
        current := Some(current.value.(heroes := current.value.heroes + [Record(name, isRadiant, items, NO_FLAGS)]));
        heroSide := heroSide[NormalizeHeroName(name) := isRadiant];
      }
    }

    /** Store the current frame, fill the seconds in between, and start the frame of the line's second. */
    method OpenFrameFor(l: Line)
      requires OpensFrame(View(), l)
      modifies this
      ensures View() == OpenFrame(old(View()), l)
    {
      var t := Sec(l);
      if current.Some? {
        results := results + [current.value];
        last := current.value.time;
      }
      ghost var stored := results;
      if t > last + 1 {
        var u := last + 1;
        while u < t
          invariant last + 1 <= u <= t
          invariant results == stored + Gap(old(View()), last + 1, u)
          modifies this`results
        {
          results := results + [Frame(matchId, u, Daylight(u as real), radiant, dire, [])];
          u := u + 1;
          assert Gap(old(View()), last + 1, u) == Gap(old(View()), last + 1, u - 1) + [Filler(old(View()), u - 1)];
        }
      }
      current := Some(Frame(matchId, t, Daylight(l.time), radiant, dire, []));
      last := t;
    }
  }

  /** `ParseGeneralWorker` on a decoded log. */
  method ParseGeneral(epilogueId: int, log: seq<Line>) returns (frames: seq<Frame>)
    ensures frames == Timeline(epilogueId, log)
  {
    var p := new GeneralParser(epilogueId);
    for i := 0 to |log|
      invariant p.View() == Run(epilogueId, log[..i])
      invariant fresh(p)
    {
      p.Feed(log[i]);
      assert log[..i + 1][..i] == log[..i];
    }
    assert log[..|log|] == log;
    frames := p.results;
    if p.current.Some? {
      frames := frames + [p.current.value];
    }
  }
}
