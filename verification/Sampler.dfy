/** The tick selection of `saveMatch`: for every hero the ticks before a death fall into five horizon bands, each closed
    dying episode contributes one random tick per band, and at most 50 random safe ticks are added for the match. */
module Sampler {
  import opened Numbers
  import opened Sequences
  import opened GeneralTimeline

  const BANDS := 5
  const SAFE_ROWS := 50

  /** What a frame says about a hero: not eligible, safe, or dying within the horizon of a band (1, 5, 10, 15, 20). */
  datatype Mark = Absent | Safe | Dying(band: nat)

  datatype Candidate = Candidate(tick: nat, hero: string)

  /** The index of the hero's first record, or the number of records. */
  function FirstRecord(hs: seq<Record>, hero: string): (r: nat)
    ensures r <= |hs|
    ensures r < |hs| ==> hs[r].heroName == hero && IsFirst(hs, r)
    ensures r == |hs| ==> forall q | 0 <= q < |hs| :: hs[q].heroName != hero
  {
    if hs == [] || hs[0].heroName == hero then 0 else 1 + FirstRecord(hs[1..], hero)
  }

  /** The smallest horizon whose flag is set. */
  function MarkOfFlags(f: Flags): Mark {
    if f.in1 then Dying(0) else if f.in5 then Dying(1) else if f.in10 then Dying(2)
    else if f.in15 then Dying(3) else if f.in20 then Dying(4) else Safe
  }

  function MarkOf(f: Frame, hero: string): Mark {
    var r := FirstRecord(f.heroes, hero);
    if f.time < 0 || r == |f.heroes| then Absent else MarkOfFlags(f.heroes[r].flags)
  }

  /** One hero's marks along the match. */
  function MarksOf(frames: seq<Frame>, hero: string): seq<Mark> {
    seq(|frames|, i requires 0 <= i < |frames| => MarkOf(frames[i], hero))
  }

  predicate SafeAt(marks: seq<Mark>, i: int) {
    0 <= i < |marks| && marks[i].Safe?
  }

  /** Tick `i` is dying and its episode is still open at tick `n`: no safe tick lies in between. */
  predicate StillOpen(marks: seq<Mark>, n: nat, i: nat) {
    i < n <= |marks| && marks[i].Dying? && forall j | i < j < n :: !SafeAt(marks, j)
  }

  /** The ticks of band `b` of the episode that a safe tick at `n` would close. */
  function Open(marks: seq<Mark>, n: nat, b: nat): set<nat> {
    set i: nat | i < n && StillOpen(marks, n, i) && marks[i] == Dying(b)
  }

  /** A safe tick at `c` closes a dying episode. */
  predicate Closes(marks: seq<Mark>, c: nat) {
    SafeAt(marks, c) && exists i: nat | i < c :: StillOpen(marks, c, i)
  }

  /** The ticks before `n` that close a dying episode. */
  function Closing(marks: seq<Mark>, n: nat): set<nat> {
    set c: nat | c < n && Closes(marks, c)
  }

  predicate BandsInRange(marks: seq<Mark>) {
    forall i | 0 <= i < |marks| && marks[i].Dying? :: marks[i].band < BANDS
  }

  lemma MarksInRange(frames: seq<Frame>, hero: string)
    ensures BandsInRange(MarksOf(frames, hero))
  {}

  /** The picks made for a hero when the ticks before `n` have been walked: one from each nonempty band of each closed
      episode, nothing else. */
  ghost predicate Fair(marks: seq<Mark>, n: nat, picks: set<nat>) {
    && (forall c: nat | c < n && SafeAt(marks, c) :: EpisodePicked(marks, c, picks))
    && (forall i | i in picks :: PickedFromClosed(marks, n, i))
    && |picks| <= BANDS * |Closing(marks, n)|
  }

  /** One pick from each nonempty band of the episode that ends before `c`. */
  ghost predicate EpisodePicked(marks: seq<Mark>, c: nat, picks: set<nat>) {
    forall b: nat | b < BANDS :: OneOf(picks, Open(marks, c, b))
  }

  /** Exactly one member of `band` is picked, none if it is empty. */
  predicate OneOf(picks: set<nat>, band: set<nat>) {
    |picks * band| == if band == {} then 0 else 1
  }

  ghost predicate PickedFromClosed(marks: seq<Mark>, n: nat, i: nat) {
    i < n <= |marks| && marks[i].Dying? && exists c | i < c < n :: SafeAt(marks, c)
  }

  // ---------- one tick ----------

  /** At a tick that is not safe the open bands gain the tick if it is dying. */
  lemma OpenGrows(marks: seq<Mark>, n: nat, b: nat)
    requires n < |marks| && !marks[n].Safe?
    ensures Open(marks, n + 1, b) == Open(marks, n, b) + if marks[n] == Dying(b) then {n} else {}
  {}

  lemma FairAtOtherTick(marks: seq<Mark>, n: nat, picks: set<nat>)
    requires n < |marks| && Fair(marks, n, picks) && !marks[n].Safe?
    ensures Fair(marks, n + 1, picks)
  {
    NothingCloses(marks, n);
    PicksStayClosed(marks, n, picks);
    forall c: nat | c < n + 1 && SafeAt(marks, c)
      ensures EpisodePicked(marks, c, picks)
    {
      assert c < n;
    }
  }

  lemma NothingCloses(marks: seq<Mark>, n: nat)
    requires n < |marks| && !marks[n].Safe?
    ensures Closing(marks, n + 1) == Closing(marks, n)
  {}

  lemma PicksStayClosed(marks: seq<Mark>, n: nat, picks: set<nat>)
    requires n < |marks| && forall i | i in picks :: PickedFromClosed(marks, n, i)
    ensures forall i | i in picks :: PickedFromClosed(marks, n + 1, i)
  {}

  /** The picks made when a safe tick at `n` closes an episode: one from each nonempty open band. */
  ghost predicate OnePerBand(marks: seq<Mark>, n: nat, picks: set<nat>) {
    && EpisodePicked(marks, n, picks)
    && (forall i | i in picks :: StillOpen(marks, n, i))
    && |picks| <= BANDS
  }

  /** Picks of the closing episode do not touch earlier episodes, and earlier picks do not touch the closing one. */
  lemma EpisodesDisjoint(marks: seq<Mark>, n: nat, picks: set<nat>, more: set<nat>, c: nat, b: nat)
    requires SafeAt(marks, n) && SafeAt(marks, c) && c <= n
    requires forall i | i in picks :: PickedFromClosed(marks, n, i)
    requires forall i | i in more :: StillOpen(marks, n, i)
    ensures (picks + more) * Open(marks, c, b) == (if c < n then picks else more) * Open(marks, c, b)
  {}

  lemma EpisodesStayPicked(marks: seq<Mark>, n: nat, picks: set<nat>, more: set<nat>, c: nat)
    requires SafeAt(marks, n) && Fair(marks, n, picks) && OnePerBand(marks, n, more)
    requires c <= n && SafeAt(marks, c)
    ensures EpisodePicked(marks, c, picks + more)
  {
    assert EpisodePicked(marks, c, if c < n then picks else more);
    forall b: nat | b < BANDS
      ensures OneOf(picks + more, Open(marks, c, b))
    {
      EpisodesDisjoint(marks, n, picks, more, c, b);
      assert OneOf(if c < n then picks else more, Open(marks, c, b));
    }
  }

  lemma {:induction false} FairAtSafeTick(marks: seq<Mark>, n: nat, picks: set<nat>, more: set<nat>)
    requires BandsInRange(marks) && SafeAt(marks, n) && Fair(marks, n, picks) && OnePerBand(marks, n, more)
    ensures Fair(marks, n + 1, picks + more)
  {
    forall c: nat | c < n + 1 && SafeAt(marks, c)
      ensures EpisodePicked(marks, c, picks + more)
    {
      EpisodesStayPicked(marks, n, picks, more, c);
    }
    forall i | i in picks + more
      ensures PickedFromClosed(marks, n + 1, i)
    {
      if i in more {
        assert StillOpen(marks, n, i) && SafeAt(marks, n);
      } else {
        assert PickedFromClosed(marks, n, i);
      }
    }
    ClosingGrows(marks, n, more);
    UnionSize(picks, more);
  }

  lemma UnionSize<T>(a: set<T>, b: set<T>)
    ensures |a + b| <= |a| + |b|
  {}

  lemma ClosingGrows(marks: seq<Mark>, n: nat, more: set<nat>)
    requires BandsInRange(marks) && SafeAt(marks, n) && OnePerBand(marks, n, more)
    ensures |Closing(marks, n + 1)| == |Closing(marks, n)| + if more == {} then 0 else 1
  {
    if more == {} {
      NothingOpenClosesNothing(marks, n, more);
    } else {
      var i :| i in more;
      assert StillOpen(marks, n, i);
      assert Closing(marks, n + 1) == Closing(marks, n) + {n};
    }
  }

  lemma NothingOpenClosesNothing(marks: seq<Mark>, n: nat, more: set<nat>)
    requires BandsInRange(marks) && SafeAt(marks, n) && EpisodePicked(marks, n, more) && more == {}
    ensures Closing(marks, n + 1) == Closing(marks, n)
  {
    forall b: nat | b < BANDS
      ensures Open(marks, n, b) == {}
    {
      assert OneOf(more, Open(marks, n, b));
    }
    assert forall i: nat :: StillOpen(marks, n, i) ==> i in Open(marks, n, marks[i].band);
  }

  // ---------- the match ----------

  /** A hero's safe ticks before `n`, in order. */
  function SafeOf(marks: seq<Mark>, n: nat, hero: string): seq<Candidate>
    requires n <= |marks|
  {
    if n == 0 then [] else SafeOf(marks, n - 1, hero) + if marks[n - 1].Safe? then [Candidate(n - 1, hero)] else []
  }

  /** The hero names of the first frame with a nonnegative second. */
  function HeroNames(frames: seq<Frame>): seq<string> {
    if frames == [] then []
    else if frames[0].time >= 0 then
      seq(|frames[0].heroes|, i requires 0 <= i < |frames[0].heroes| => frames[0].heroes[i].heroName)
    else HeroNames(frames[1..])
  }

  /** `saveMap` of `saveMatch`: for each tick the set of hero names to save. */
  type SaveMap = map<nat, set<string>>

  function Named(ticks: set<nat>, hero: string): set<Candidate> {
    set t | t in ticks :: Candidate(t, hero)
  }

  function Pairs(m: SaveMap): set<Candidate> {
    set i, h | i in m && h in m[i] :: Candidate(i, h)
  }

  /** The row selection of one match; the closure `pickOneRandomTick` and the loops share these variables. */
  class RowSampler {
    const frames: seq<Frame>
    var saveMap: SaveMap
    var safeCandidates: seq<Candidate>

    constructor (general: seq<Frame>, visionDire: nat, visionRadiant: nat)
      ensures frames == general[..Min(Min(|general|, visionDire), visionRadiant)]
      ensures Ready() && Pairs(saveMap) == {} && safeCandidates == []
    {
      var maxTicks := |general|;
      if visionDire < maxTicks {
        maxTicks := visionDire;
      }
      if visionRadiant < maxTicks {
        maxTicks := visionRadiant;
      }
      frames := general[..maxTicks];
      saveMap := map[];
      safeCandidates := [];
      new;
      for i := 0 to maxTicks
        invariant forall k: nat :: k in saveMap <==> k < i
        invariant forall k: nat | k < i :: saveMap[k] == {}
        modifies this`saveMap
      {
        saveMap := saveMap[i := {}];
      }
    }

    /** Every tick has an entry, so no write meets a missing inner map. */
    ghost predicate Ready()
      reads this
    {
      forall i: nat :: i in saveMap <==> i < |frames|
    }

    method Save(tick: nat, hero: string)
      requires Ready() && tick < |frames|
      modifies this`saveMap
      ensures Ready() && Pairs(saveMap) == old(Pairs(saveMap)) + {Candidate(tick, hero)}
    {
      saveMap := saveMap[tick := saveMap[tick] + {hero}];
    }

    /** `pickOneRandomTick`: any tick of the list may be chosen. */
    method PickOneRandomTick(ticks: seq<nat>, hero: string) returns (ghost picks: set<nat>)
      requires Ready() && forall t | t in ticks :: t < |frames|
      modifies this`saveMap
      ensures Ready() && Pairs(saveMap) == old(Pairs(saveMap)) + Named(picks, hero)
      ensures if ticks == [] then picks == {} else exists t | t in ticks :: picks == {t}
    {
      picks := {};
      if |ticks| > 0 {
        var r: nat :| r < |ticks|;
        assert ticks[r] in ticks;
        Save(ticks[r], hero);
        picks := {ticks[r]};
      }
    }

    /** Close the episode: one pick from each nonempty band, from the farthest horizon to the nearest. */
    method PickEachBand(ghost marks: seq<Mark>, ghost n: nat, ticks: seq<seq<nat>>, hero: string)
      returns (ghost picks: set<nat>)
      requires Ready() && |marks| == |frames| && n <= |marks|
      requires BandsHold(marks, n, ticks)
      modifies this`saveMap
      ensures Ready() && Pairs(saveMap) == old(Pairs(saveMap)) + Named(picks, hero)
      ensures OnePerBand(marks, n, picks)
    {
      ghost var base := Pairs(saveMap);
      picks := PickBand(marks, n, ticks[4], hero, 4, {}, base);
      picks := PickBand(marks, n, ticks[3], hero, 3, picks, base);
      picks := PickBand(marks, n, ticks[2], hero, 2, picks, base);
      picks := PickBand(marks, n, ticks[1], hero, 1, picks, base);
      picks := PickBand(marks, n, ticks[0], hero, 0, picks, base);
    }

    /** Pick from band `b`, the bands of farther horizons being done. */
    method PickBand(ghost marks: seq<Mark>, ghost n: nat, band: seq<nat>, hero: string, ghost b: nat,
                    ghost before: set<nat>, ghost base: set<Candidate>)
      returns (ghost picks: set<nat>)
      requires Ready() && |marks| == |frames| && n <= |marks| && b < BANDS
      requires Elements(band) == Open(marks, n, b) && BandsDone(marks, n, b + 1, before)
      requires Pairs(saveMap) == base + Named(before, hero)
      modifies this`saveMap
      ensures Ready() && BandsDone(marks, n, b, picks)
      ensures Pairs(saveMap) == base + Named(picks, hero)
    {
      assert forall t | t in band :: t in Open(marks, n, b);
      ghost var one := PickOneRandomTick(band, hero);
      assert if Open(marks, n, b) == {} then one == {} else exists t | t in Open(marks, n, b) :: one == {t} by {
        if band != [] {
          assert band[0] in Open(marks, n, b);
        }
      }
      PickKeepsBands(marks, n, before, one, b);
      UnionSize(before, one);
      picks := before + one;
      NamedUnion(before, one, hero);
    }

    method FindRecord(hs: seq<Record>, hero: string) returns (r: nat)
      ensures r == FirstRecord(hs, hero)
    {
      r := 0;
      while r < |hs| && hs[r].heroName != hero
        invariant r <= |hs| && FirstRecord(hs, hero) == r + FirstRecord(hs[r..], hero)
      {
        r := r + 1;
      }
    }

    /** A safe tick closes an open episode and becomes a safe candidate. */
    method OnSafeTick(ghost marks: seq<Mark>, i: nat, ticks: seq<seq<nat>>, wasDying: bool, hero: string,
                      ghost picks: set<nat>)
      returns (ghost more: set<nat>)
      requires Ready() && |marks| == |frames| && BandsInRange(marks) && SafeAt(marks, i)
      requires Walked(marks, i, ticks, wasDying, picks)
      modifies this
      ensures Ready() && Pairs(saveMap) == old(Pairs(saveMap)) + Named(more, hero)
      ensures Walked(marks, i + 1, NO_TICKS, false, picks + more)
      ensures safeCandidates == old(safeCandidates) + [Candidate(i, hero)]
    {
      more := {};
      if wasDying {
        more := PickEachBand(marks, i, ticks, hero);
      } else {
        assert forall b: nat | b < BANDS :: Open(marks, i, b) == {} by {
          assert forall b: nat | b < BANDS :: ticks[b] == [];
        }
      }
      FairAtSafeTick(marks, i, picks, more);
      BandsCleared(marks, i);
      safeCandidates := safeCandidates + [Candidate(i, hero)];
    }

    /** The inner loop of `saveMatch`: walk the match for one hero. */
    method WalkHero(hero: string) returns (ghost picks: set<nat>)
      requires Ready()
      modifies this
      ensures Ready() && Pairs(saveMap) == old(Pairs(saveMap)) + Named(picks, hero)
      ensures Fair(MarksOf(frames, hero), |frames|, picks)
      ensures safeCandidates == old(safeCandidates) + SafeOf(MarksOf(frames, hero), |frames|, hero)
    {
      ghost var marks := MarksOf(frames, hero);
      ghost var pairs, safe := Pairs(saveMap), safeCandidates;
      MarksInRange(frames, hero);
      picks := {};
      var ticks: seq<seq<nat>> := NO_TICKS;
      var wasDying := false;
      NothingWalked(marks, hero);
      for i := 0 to |frames|
        invariant WalkedTo(marks, i, hero, ticks, wasDying, picks, pairs, safe)
      {
        ticks, wasDying, picks := WalkTick(marks, i, hero, ticks, wasDying, picks, pairs, safe);
      }
    }

    /** The first `n` ticks of the hero have been walked, starting from the given pairs and safe candidates. */
    ghost predicate WalkedTo(marks: seq<Mark>, n: nat, hero: string, ticks: seq<seq<nat>>, wasDying: bool,
                             picks: set<nat>, pairs: set<Candidate>, safe: seq<Candidate>)
      reads this
    {
      && Ready() && marks == MarksOf(frames, hero) && n <= |frames|
      && Walked(marks, n, ticks, wasDying, picks)
      && Pairs(saveMap) == pairs + Named(picks, hero)
      && safeCandidates == safe + SafeOf(marks, n, hero)
    }

    /** One tick of the walk. */
    method WalkTick(ghost marks: seq<Mark>, i: nat, hero: string, ticksBefore: seq<seq<nat>>, dyingBefore: bool,
                    ghost picksBefore: set<nat>, ghost pairs: set<Candidate>, ghost safe: seq<Candidate>)
      returns (ticks: seq<seq<nat>>, wasDying: bool, ghost picks: set<nat>)
      requires i < |frames| && WalkedTo(marks, i, hero, ticksBefore, dyingBefore, picksBefore, pairs, safe)
      modifies this
      ensures WalkedTo(marks, i + 1, hero, ticks, wasDying, picks, pairs, safe)
    {
      MarksInRange(frames, hero);
      ticks, wasDying, picks := ticksBefore, dyingBefore, picksBefore;
      var mark := Inspect(frames[i], hero);
      assert mark == marks[i];
      if mark.Safe? {
        picks := WalkSafeTick(marks, i, hero, ticks, wasDying, picks, pairs, safe);
        ticks, wasDying := NO_TICKS, false;
      } else {
        FairAtOtherTick(marks, i, picks);
        BandsGrow(marks, i, ticks);
        if mark.Dying? {
          ticks := ticks[mark.band := ticks[mark.band] + [i]];
          wasDying := true;
        }
      }
    }

    method WalkSafeTick(ghost marks: seq<Mark>, i: nat, hero: string, ticks: seq<seq<nat>>, wasDying: bool,
                        ghost before: set<nat>, ghost pairs: set<Candidate>, ghost safe: seq<Candidate>)
      returns (ghost picks: set<nat>)
      requires i < |frames| && WalkedTo(marks, i, hero, ticks, wasDying, before, pairs, safe) && marks[i].Safe?
      modifies this
      ensures WalkedTo(marks, i + 1, hero, NO_TICKS, false, picks, pairs, safe)
    {
      MarksInRange(frames, hero);
      ghost var more := OnSafeTick(marks, i, ticks, wasDying, hero, before);
      PairsUnion(pairs, before, more, hero);
      SafeOneMore(safe, marks, i, hero);
      picks := before + more;
    }

    /** `rand.Shuffle`: swap each element with an arbitrary one at or before it. */
    method Shuffle()
      modifies this`safeCandidates
      ensures multiset(safeCandidates) == multiset(old(safeCandidates))
      ensures NoDuplicates(old(safeCandidates)) ==> NoDuplicates(safeCandidates)
    {
      var i := |safeCandidates|;
      while i > 1
        invariant i <= |safeCandidates|
        invariant multiset(safeCandidates) == multiset(old(safeCandidates))
        invariant NoDuplicates(old(safeCandidates)) ==> NoDuplicates(safeCandidates)
      {
        i := i - 1;
        var j: nat :| j <= i;
        SwapKeepsElements(safeCandidates, i, j);
        if NoDuplicates(safeCandidates) {
          SwapKeepsDistinct(safeCandidates, i, j);
        }
        safeCandidates := safeCandidates[i := safeCandidates[j]][j := safeCandidates[i]];
      }
    }

    /** Save the first 50 candidates of the shuffled list. */
    method SaveSafe()
      requires Ready() && forall c | c in safeCandidates :: c.tick < |frames|
      modifies this`saveMap
      ensures Ready()
      ensures Pairs(saveMap) == old(Pairs(saveMap)) + Elements(safeCandidates[..Min(SAFE_ROWS, |safeCandidates|)])
    {
      var k := 0;
      while k < SAFE_ROWS && k < |safeCandidates|
        invariant k <= Min(SAFE_ROWS, |safeCandidates|) && Ready()
        invariant Pairs(saveMap) == old(Pairs(saveMap)) + Elements(safeCandidates[..k])
      {
        var c := safeCandidates[k];
        assert c in safeCandidates;
        ElementsOfPrefix(safeCandidates, k);
        Save(c.tick, c.hero);
        assert c == Candidate(c.tick, c.hero);
        k := k + 1;
      }
    }

    /** Read the hero's flags in one frame and place the tick. */
    method Inspect(f: Frame, hero: string) returns (mark: Mark)
      ensures mark == MarkOf(f, hero)
    {
      if f.time < 0 {
        return Absent;
      }
      var r := FindRecord(f.heroes, hero);
      if r == |f.heroes| {
        return Absent;
      }
      var flags := f.heroes[r].flags;
      var willDie := flags.in1 || flags.in5 || flags.in10 || flags.in15 || flags.in20;
      if !willDie {
        return Safe;
      }
      var band :=
        if flags.in1 then 0 else if flags.in5 then 1 else if flags.in10 then 2 else if flags.in15 then 3 else 4;
      mark := Dying(band);
    }
  }

  /** The five band slices, from the nearest horizon to the farthest. */
  const NO_TICKS: seq<seq<nat>> := [[], [], [], [], []]

  /** The band slices hold the open ticks of their bands. */
  predicate BandsHold(marks: seq<Mark>, n: nat, ticks: seq<seq<nat>>) {
    |ticks| == BANDS && forall b: nat | b < BANDS :: Elements(ticks[b]) == Open(marks, n, b)
  }

  /** The variables of the walk fit the ticks before `n`. */
  ghost predicate Walked(marks: seq<Mark>, n: nat, ticks: seq<seq<nat>>, wasDying: bool, picks: set<nat>) {
    BandsHold(marks, n, ticks) && (!wasDying ==> ticks == NO_TICKS) && Fair(marks, n, picks)
  }

  lemma NothingWalked(marks: seq<Mark>, hero: string)
    ensures Walked(marks, 0, NO_TICKS, false, {}) && Named({}, hero) == {}
  {}

  lemma BandsCleared(marks: seq<Mark>, n: nat)
    requires SafeAt(marks, n)
    ensures BandsHold(marks, n + 1, NO_TICKS)
  {}

  lemma BandsGrow(marks: seq<Mark>, n: nat, ticks: seq<seq<nat>>)
    requires n < |marks| && !marks[n].Safe? && BandsInRange(marks) && BandsHold(marks, n, ticks)
    ensures BandsHold(marks, n + 1,
                      if marks[n].Dying? then ticks[marks[n].band := ticks[marks[n].band] + [n]] else ticks)
  {
    var after := if marks[n].Dying? then ticks[marks[n].band := ticks[marks[n].band] + [n]] else ticks;
    forall b: nat | b < BANDS
      ensures Elements(after[b]) == Open(marks, n + 1, b)
    {
      OpenGrows(marks, n, b);
      assert Elements(after[b]) == Elements(ticks[b]) + if marks[n] == Dying(b) then {n} else {};
    }
  }

  /** The bands from `b` on have their picks, and there are no others. */
  ghost predicate BandsDone(marks: seq<Mark>, n: nat, b: nat, picks: set<nat>) {
    && (forall c: nat | b <= c < BANDS :: OneOf(picks, Open(marks, n, c)))
    && (forall i | i in picks :: StillOpen(marks, n, i) && marks[i].band >= b)
    && |picks| + b <= BANDS
  }

  /** A pick from band `b` is the only one in that band and is in no other band. */
  lemma PickKeepsBands(marks: seq<Mark>, n: nat, picks: set<nat>, one: set<nat>, b: nat)
    requires b < BANDS && n <= |marks|
    requires forall c: nat | b < c < BANDS :: OneOf(picks, Open(marks, n, c))
    requires forall i | i in picks :: StillOpen(marks, n, i) && marks[i].band > b
    requires if Open(marks, n, b) == {} then one == {} else exists t | t in Open(marks, n, b) :: one == {t}
    ensures forall c: nat | b <= c < BANDS :: OneOf(picks + one, Open(marks, n, c))
  {
    assert (picks + one) * Open(marks, n, b) == one;
    forall c: nat | b < c < BANDS
      ensures OneOf(picks + one, Open(marks, n, c))
    {
      assert (picks + one) * Open(marks, n, c) == picks * Open(marks, n, c);
    }
  }

  // ---------- the whole selection ----------

  predicate NoDuplicates<T(==)>(s: seq<T>) {
    forall i, j | 0 <= i < j < |s| :: s[i] != s[j]
  }

  lemma ElementsOfPrefix<T>(s: seq<T>, k: nat)
    requires k < |s|
    ensures Elements(s[..k + 1]) == Elements(s[..k]) + {s[k]}
  {}

  lemma SwapKeepsElements<T>(s: seq<T>, i: nat, j: nat)
    requires i < |s| && j < |s|
    ensures multiset(s[i := s[j]][j := s[i]]) == multiset(s)
  {}

  lemma SwapKeepsDistinct<T>(s: seq<T>, i: nat, j: nat)
    requires i < |s| && j < |s| && NoDuplicates(s)
    ensures NoDuplicates(s[i := s[j]][j := s[i]])
  {}

  /** The frames of the match that both vision timelines cover. */
  function Covered(general: seq<Frame>, visionDire: nat, visionRadiant: nat): seq<Frame> {
    general[..Min(Min(|general|, visionDire), visionRadiant)]
  }

  /** The number of dying episodes closed by a later safe tick, over all listed heroes. */
  function ClosedEpisodes(frames: seq<Frame>, heroes: seq<string>): nat {
    if heroes == [] then 0
    else
      ClosedEpisodes(frames, heroes[..|heroes| - 1])
      + |Closing(MarksOf(frames, heroes[|heroes| - 1]), |frames|)|
  }

  /** A listed hero's tick that is not absent. */
  predicate Eligible(frames: seq<Frame>, heroes: seq<string>, c: Candidate) {
    c.hero in heroes && c.tick < |frames| && !MarkOf(frames[c.tick], c.hero).Absent?
  }

  predicate IsSafe(frames: seq<Frame>, c: Candidate) {
    SafeAt(MarksOf(frames, c.hero), c.tick)
  }

  /** The saved dying ticks of a hero. */
  function DyingSaved(frames: seq<Frame>, saved: set<Candidate>, hero: string): set<nat> {
    set c | c in saved && c.hero == hero && c.tick < |frames| && MarkOf(frames[c.tick], hero).Dying? :: c.tick
  }

  /** All safe ticks of the listed heroes. */
  function AllSafe(frames: seq<Frame>, heroes: seq<string>): seq<Candidate> {
    if heroes == [] then []
    else
      var last := heroes[|heroes| - 1];
      AllSafe(frames, heroes[..|heroes| - 1]) + SafeOf(MarksOf(frames, last), |frames|, last)
  }

  lemma {:induction false} SafeOfHolds(marks: seq<Mark>, n: nat, hero: string)
    requires n <= |marks|
    ensures forall c :: c in SafeOf(marks, n, hero) <==> c.hero == hero && c.tick < n && SafeAt(marks, c.tick)
    ensures NoDuplicates(SafeOf(marks, n, hero))
  {
    if n > 0 {
      SafeOfHolds(marks, n - 1, hero);
      var before := SafeOf(marks, n - 1, hero);
      assert forall k | 0 <= k < |before| :: before[k] in before;
    }
  }

  lemma {:induction false} AllSafeHolds(frames: seq<Frame>, heroes: seq<string>)
    ensures forall c :: c in AllSafe(frames, heroes) <==> c.hero in heroes && IsSafe(frames, c)
    ensures NoDuplicates(heroes) ==> NoDuplicates(AllSafe(frames, heroes))
    decreases |heroes|
  {
    if heroes != [] {
      var n := |heroes| - 1;
      var last := heroes[n];
      AllSafeHolds(frames, heroes[..n]);
      SafeOfHolds(MarksOf(frames, last), |frames|, last);
      var (before, more) := (AllSafe(frames, heroes[..n]), SafeOf(MarksOf(frames, last), |frames|, last));
      assert heroes == heroes[..n] + [last];
      assert forall k | 0 <= k < |before| :: before[k] in before;
      assert forall k | 0 <= k < |more| :: more[k] in more;
    }
  }

  lemma {:induction false} SetOfDistinct<T>(s: seq<T>)
    requires NoDuplicates(s)
    ensures |Elements(s)| == |s|
  {
    if s != [] {
      var n := |s| - 1;
      SetOfDistinct(s[..n]);
      assert s[..n + 1] == s;
      ElementsOfPrefix(s, n);
    }
  }

  lemma {:induction false} SetNoLarger<T>(s: seq<T>)
    ensures |Elements(s)| <= |s|
  {
    if s != [] {
      var n := |s| - 1;
      SetNoLarger(s[..n]);
      assert s[..n + 1] == s;
      ElementsOfPrefix(s, n);
    }
  }

  /** What the walks over the heroes have saved so far: dying ticks only, few, and fair to each hero. */
  ghost predicate HeroesWalked(frames: seq<Frame>, heroes: seq<string>, saved: set<Candidate>) {
    && (forall c | c in saved :: c.hero in heroes && c.tick < |frames| && MarkOf(frames[c.tick], c.hero).Dying?)
    && |saved| <= BANDS * ClosedEpisodes(frames, heroes)
    && (NoDuplicates(heroes) ==>
          forall h | h in heroes :: Fair(MarksOf(frames, h), |frames|, DyingSaved(frames, saved, h)))
  }

  lemma NamedUnion(a: set<nat>, b: set<nat>, hero: string)
    ensures Named(a + b, hero) == Named(a, hero) + Named(b, hero)
  {}

  lemma PairsUnion(pairs: set<Candidate>, a: set<nat>, b: set<nat>, hero: string)
    ensures pairs + Named(a, hero) + Named(b, hero) == pairs + Named(a + b, hero)
  {}

  lemma SafeOneMore(safe: seq<Candidate>, marks: seq<Mark>, i: nat, hero: string)
    requires SafeAt(marks, i)
    ensures safe + SafeOf(marks, i, hero) + [Candidate(i, hero)] == safe + SafeOf(marks, i + 1, hero)
  {}

  lemma NamedSize(picks: set<nat>, hero: string)
    ensures |Named(picks, hero)| == |picks|
  {
    if t :| t in picks {
      NamedSize(picks - {t}, hero);
      assert Named(picks, hero) == Named(picks - {t}, hero) + {Candidate(t, hero)};
    } else {
      assert Named(picks, hero) == {};
    }
  }

  /** Adding the picks of a hero not walked before leaves every other hero's saved ticks as they are. */
  lemma OtherHeroesKept(frames: seq<Frame>, saved: set<Candidate>, picks: set<nat>, hero: string, other: string)
    requires other != hero
    ensures DyingSaved(frames, saved + Named(picks, hero), other) == DyingSaved(frames, saved, other)
  {}

  lemma OwnPicksSaved(frames: seq<Frame>, saved: set<Candidate>, picks: set<nat>, hero: string)
    requires forall c | c in saved :: c.hero != hero
    requires forall i | i in picks :: i < |frames| && MarkOf(frames[i], hero).Dying?
    ensures DyingSaved(frames, saved + Named(picks, hero), hero) == picks
  {}

  lemma PicksAreDying(frames: seq<Frame>, hero: string, picks: set<nat>)
    requires Fair(MarksOf(frames, hero), |frames|, picks)
    ensures forall i | i in picks :: i < |frames| && MarkOf(frames[i], hero).Dying?
  {}

  lemma FairToAll(frames: seq<Frame>, heroes: seq<string>, hero: string, saved: set<Candidate>, picks: set<nat>)
    requires forall h | h in heroes :: Fair(MarksOf(frames, h), |frames|, DyingSaved(frames, saved, h))
    requires Fair(MarksOf(frames, hero), |frames|, picks)
    requires hero !in heroes && forall c | c in saved :: c.hero in heroes
    ensures forall h | h in heroes || h == hero ::
              Fair(MarksOf(frames, h), |frames|, DyingSaved(frames, saved + Named(picks, hero), h))
  {
    PicksAreDying(frames, hero, picks);
    OwnPicksSaved(frames, saved, picks, hero);
    forall h | h in heroes
      ensures Fair(MarksOf(frames, h), |frames|, DyingSaved(frames, saved + Named(picks, hero), h))
    {
      OtherHeroesKept(frames, saved, picks, hero, h);
    }
  }

  lemma WalkedOneMore(frames: seq<Frame>, heroes: seq<string>, hero: string, saved: set<Candidate>, picks: set<nat>)
    requires HeroesWalked(frames, heroes, saved) && Fair(MarksOf(frames, hero), |frames|, picks)
    ensures HeroesWalked(frames, heroes + [hero], saved + Named(picks, hero))
  {
    var all := heroes + [hero];
    assert all[..|heroes|] == heroes;
    PicksAreDying(frames, hero, picks);
    NamedSize(picks, hero);
    UnionSize(saved, Named(picks, hero));
    if NoDuplicates(all) {
      assert hero !in heroes by {
        assert forall k | 0 <= k < |heroes| :: all[k] != all[|heroes|];
      }
      assert NoDuplicates(heroes) by {
        assert forall k | 0 <= k < |heroes| :: all[k] == heroes[k];
      }
      FairToAll(frames, heroes, hero, saved, picks);
    }
  }

  // ---------- the result ----------

  /** The rows saved for a match.  With pairwise different hero names every hero's dying ticks are picked fairly and
      there are exactly 50 safe rows, or all of them if there are fewer. */
  ghost predicate WellSelected(frames: seq<Frame>, heroes: seq<string>, saved: set<Candidate>) {
    && (forall c | c in saved :: Eligible(frames, heroes, c))
    && |saved| <= BANDS * ClosedEpisodes(frames, heroes) + SAFE_ROWS
    && (NoDuplicates(heroes) ==>
          && (forall h | h in heroes :: Fair(MarksOf(frames, h), |frames|, DyingSaved(frames, saved, h)))
          && |SafeRows(frames, saved)| == Min(SAFE_ROWS, |AllSafe(frames, heroes)|))
  }

  function SafeRows(frames: seq<Frame>, saved: set<Candidate>): set<Candidate> {
    set c | c in saved && IsSafe(frames, c)
  }

  /** Saving `m` of the safe candidates adds that many safe rows and no dying one. */
  lemma SafeRowsAdded(frames: seq<Frame>, heroes: seq<string>, saved: set<Candidate>, rows: set<Candidate>)
    requires HeroesWalked(frames, heroes, saved) && |rows| <= SAFE_ROWS
    requires forall c | c in rows :: c.hero in heroes && IsSafe(frames, c)
    requires NoDuplicates(heroes) ==> |rows| == Min(SAFE_ROWS, |AllSafe(frames, heroes)|)
    ensures WellSelected(frames, heroes, saved + rows)
  {
    UnionSize(saved, rows);
    SafeRowsAmong(frames, heroes, saved, rows);
    SafeRowsKeepDying(frames, saved, rows);
  }

  lemma SafeRowsAmong(frames: seq<Frame>, heroes: seq<string>, saved: set<Candidate>, rows: set<Candidate>)
    requires HeroesWalked(frames, heroes, saved)
    requires forall c | c in rows :: c.hero in heroes && IsSafe(frames, c)
    ensures SafeRows(frames, saved + rows) == rows
    ensures forall c | c in saved + rows :: Eligible(frames, heroes, c)
  {
    forall c | c in saved + rows
      ensures Eligible(frames, heroes, c) && (c in rows <==> IsSafe(frames, c))
    {
      if c in rows {
        assert IsSafe(frames, c);
      }
    }
  }

  lemma SafeRowsKeepDying(frames: seq<Frame>, saved: set<Candidate>, rows: set<Candidate>)
    requires forall c | c in rows :: IsSafe(frames, c)
    ensures forall h :: DyingSaved(frames, saved + rows, h) == DyingSaved(frames, saved, h)
  {}

  /** The first 50 of the shuffled candidates. */
  lemma {:induction false} ShuffledRows(frames: seq<Frame>, heroes: seq<string>, shuffled: seq<Candidate>)
    requires multiset(shuffled) == multiset(AllSafe(frames, heroes))
    requires NoDuplicates(heroes) ==> NoDuplicates(shuffled)
    ensures (var rows := Elements(shuffled[..Min(SAFE_ROWS, |shuffled|)]);
             && |rows| <= SAFE_ROWS
             && (forall c | c in rows :: c.hero in heroes && IsSafe(frames, c))
             && (NoDuplicates(heroes) ==> |rows| == Min(SAFE_ROWS, |AllSafe(frames, heroes)|)))
  {
    var m := Min(SAFE_ROWS, |shuffled|);
    AllSafeHolds(frames, heroes);
    SameMembers(shuffled, AllSafe(frames, heroes));
    SetNoLarger(shuffled[..m]);
    assert forall c | c in Elements(shuffled[..m]) :: c in shuffled;
    if NoDuplicates(heroes) {
      SetOfDistinct(shuffled[..m]);
    }
  }

  lemma SameMembers<T>(a: seq<T>, b: seq<T>)
    requires multiset(a) == multiset(b)
    ensures |a| == |b| && forall x :: x in a <==> x in b
  {
    assert |multiset(a)| == |a| && |multiset(b)| == |b|;
    forall x
      ensures x in a <==> x in b
    {
      assert x in a <==> x in multiset(a);
      assert x in b <==> x in multiset(b);
    }
  }

  /** The tick selection of `saveMatch`, for all random choices. */
  method SelectRows(general: seq<Frame>, visionDire: nat, visionRadiant: nat) returns (saveMap: SaveMap)
    ensures var frames := Covered(general, visionDire, visionRadiant);
            WellSelected(frames, HeroNames(frames), Pairs(saveMap))
  {
    var sampler := new RowSampler(general, visionDire, visionRadiant);
    var frames := sampler.frames;
    var heroes := CollectHeroes(frames);
    for k := 0 to |heroes|
      invariant sampler.frames == frames && fresh(sampler)
      invariant WalkedSoFar(sampler, heroes[..k])
    {
      AddHero(sampler, heroes[..k], heroes[k]);
      assert heroes[..k + 1] == heroes[..k] + [heroes[k]];
    }
    assert heroes[..|heroes|] == heroes;
    AddSafeRows(sampler, heroes);
    saveMap := sampler.saveMap;
  }

  ghost predicate WalkedSoFar(sampler: RowSampler, heroes: seq<string>)
    reads sampler
  {
    && sampler.Ready()
    && HeroesWalked(sampler.frames, heroes, Pairs(sampler.saveMap))
    && sampler.safeCandidates == AllSafe(sampler.frames, heroes)
  }

  method AddHero(sampler: RowSampler, ghost before: seq<string>, hero: string)
    requires WalkedSoFar(sampler, before)
    modifies sampler
    ensures WalkedSoFar(sampler, before + [hero])
  {
    ghost var saved := Pairs(sampler.saveMap);
    ghost var picks := sampler.WalkHero(hero);
    assert (before + [hero])[..|before|] == before;
    WalkedOneMore(sampler.frames, before, hero, saved, picks);
  }

  method AddSafeRows(sampler: RowSampler, ghost heroes: seq<string>)
    requires WalkedSoFar(sampler, heroes)
    modifies sampler
    ensures WellSelected(sampler.frames, heroes, Pairs(sampler.saveMap))
  {
    AllSafeHolds(sampler.frames, heroes);
    ghost var saved := Pairs(sampler.saveMap);
    sampler.Shuffle();
    SameMembers(sampler.safeCandidates, AllSafe(sampler.frames, heroes));
    sampler.SaveSafe();
    ShuffledRows(sampler.frames, heroes, sampler.safeCandidates);
    var m := Min(SAFE_ROWS, |sampler.safeCandidates|);
    SafeRowsAdded(sampler.frames, heroes, saved, Elements(sampler.safeCandidates[..m]));
  }

  /** Take the hero names from the first frame that is not before the start of the game. */
  method CollectHeroes(frames: seq<Frame>) returns (heroes: seq<string>)
    ensures heroes == HeroNames(frames)
  {
    heroes := [];
    for i := 0 to |frames|
      invariant heroes == [] && HeroNames(frames) == HeroNames(frames[i..])
    {
      if frames[i].time >= 0 {
        for r := 0 to |frames[i].heroes|
          invariant heroes == HeroNames(frames[i..])[..r]
        {
          heroes := heroes + [frames[i].heroes[r].heroName];
        }
        return;
      }
      assert frames[i..][1..] == frames[i + 1..];
    }
  }

  // ---------- the selection over the frames ----------

  /** Frame `i` is the first of a nonnegative second. */
  predicate IsFirstCounted(frames: seq<Frame>, i: nat) {
    i < |frames| && frames[i].time >= 0 && forall j | 0 <= j < i :: frames[j].time < 0
  }

  /** The listed heroes are those of the records of that frame, in order; none if no second counts. */
  lemma {:induction false} HeroNamesExactly(frames: seq<Frame>, i: nat)
    requires i <= |frames| && forall j | 0 <= j < i :: frames[j].time < 0
    requires i < |frames| ==> frames[i].time >= 0
    ensures i == |frames| ==> HeroNames(frames) == []
    ensures i < |frames| ==>
              && |HeroNames(frames)| == |frames[i].heroes|
              && forall r | 0 <= r < |frames[i].heroes| :: HeroNames(frames)[r] == frames[i].heroes[r].heroName
  {
    if i > 0 {
      HeroNamesExactly(frames[1..], i - 1);
    }
  }

  /** The covered frames are those with an index below all three lengths. */
  lemma CoveredExactly(general: seq<Frame>, visionDire: nat, visionRadiant: nat, i: nat)
    ensures (var frames := Covered(general, visionDire, visionRadiant);
             && (i < |frames| <==> i < |general| && i < visionDire && i < visionRadiant)
             && (i < |frames| ==> frames[i] == general[i]))
  {}

  predicate NamesDiffer(f: Frame) {
    forall q, r | 0 <= q < r < |f.heroes| :: f.heroes[q].heroName != f.heroes[r].heroName
  }

  /** The selection in terms of the frames, `i` being the first of a nonnegative second.  Every saved pair names a hero
      of that frame, and there are at most 5 per closed episode and 50 more.  If its names differ, the dying ticks of
      every hero with a record in it are picked fairly, and of all safe pairs of these heroes 50 are saved, or all. */
  lemma SelectedExactly(frames: seq<Frame>, saved: set<Candidate>, i: nat)
    requires WellSelected(frames, HeroNames(frames), saved) && IsFirstCounted(frames, i)
    ensures forall c | c in saved :: c.tick < |frames| && frames[c.tick].time >= 0 && ListedIn(frames[i], c.hero)
    ensures |saved| <= 5 * ClosedEpisodes(frames, HeroNames(frames)) + 50
    ensures NamesDiffer(frames[i]) ==>
              && (forall r | 0 <= r < |frames[i].heroes| ::
                    (var hero := frames[i].heroes[r].heroName;
                     Fair(MarksOf(frames, hero), |frames|, DyingSaved(frames, saved, hero))))
              && exists all :: SafePairs(frames, frames[i], all) && |SafeRows(frames, saved)| == Min(50, |all|)
  {
    var names := HeroNames(frames);
    HeroNamesExactly(frames, i);
    forall c | c in saved
      ensures c.tick < |frames| && frames[c.tick].time >= 0 && ListedIn(frames[i], c.hero)
    {
      assert Eligible(frames, names, c);
      var r :| 0 <= r < |names| && names[r] == c.hero;
      assert frames[i].heroes[r].heroName == c.hero;
    }
    if NamesDiffer(frames[i]) {
      assert NoDuplicates(names);
      assert forall r | 0 <= r < |frames[i].heroes| :: frames[i].heroes[r].heroName == names[r] && names[r] in names;
      SafePairsListed(frames, i);
    }
  }

  /** The hero has a record in the frame. */
  predicate ListedIn(f: Frame, hero: string) {
    exists r | 0 <= r < |f.heroes| :: f.heroes[r].heroName == hero
  }

  /** `all` is the set of all safe pairs of the frame's heroes. */
  ghost predicate SafePairs(frames: seq<Frame>, f: Frame, all: set<Candidate>) {
    forall c :: c in all <==> ListedIn(f, c.hero) && IsSafe(frames, c)
  }

  lemma SafePairsListed(frames: seq<Frame>, i: nat)
    requires IsFirstCounted(frames, i) && NamesDiffer(frames[i])
    ensures SafePairs(frames, frames[i], Elements(AllSafe(frames, HeroNames(frames))))
    ensures |Elements(AllSafe(frames, HeroNames(frames)))| == |AllSafe(frames, HeroNames(frames))|
  {
    var names := HeroNames(frames);
    HeroNamesExactly(frames, i);
    assert NoDuplicates(names);
    AllSafeHolds(frames, names);
    SetOfDistinct(AllSafe(frames, names));
    forall hero
      ensures hero in names <==> ListedIn(frames[i], hero)
    {
      if hero in names {
        var r :| 0 <= r < |names| && names[r] == hero;
        assert frames[i].heroes[r].heroName == hero;
      }
      if r :| 0 <= r < |frames[i].heroes| && frames[i].heroes[r].heroName == hero {
        assert names[r] == hero;
      }
    }
  }

  // ---------- fairness in terms of the flags ----------

  /** The frame counts and the hero's first record in it has these flags. */
  predicate Shows(f: Frame, hero: string, flags: Flags) {
    f.time >= 0
    && exists r | 0 <= r < |f.heroes| ::
         f.heroes[r].heroName == hero && f.heroes[r].flags == flags
         && forall q | 0 <= q < r :: f.heroes[q].heroName != hero
  }

  /** At tick `c` the hero shows no flag. */
  predicate Unthreatened(frames: seq<Frame>, hero: string, c: nat) {
    c < |frames| && Shows(frames[c], hero, Flags(false, false, false, false, false))
  }

  /** Of the horizons 1, 5, 10, 15, 20 the one with index `b` is the smallest set. */
  predicate SmallestSet(f: Flags, b: nat) {
    match b
    case 0 => f.in1
    case 1 => !f.in1 && f.in5
    case 2 => !f.in1 && !f.in5 && f.in10
    case 3 => !f.in1 && !f.in5 && !f.in10 && f.in15
    case 4 => !f.in1 && !f.in5 && !f.in10 && !f.in15 && f.in20
    case _ => false
  }

  ghost predicate Threatened(frames: seq<Frame>, hero: string, i: nat, b: nat) {
    i < |frames| && exists flags :: Shows(frames[i], hero, flags) && SmallestSet(flags, b)
  }

  /** Tick `i` is one of horizon `b` before tick `c`, and the hero shows a flag or no record all the way in between. */
  ghost predicate LeadsTo(frames: seq<Frame>, hero: string, i: nat, b: nat, c: nat) {
    i < c && Threatened(frames, hero, i, b) && forall j: nat | i < j < c :: !Unthreatened(frames, hero, j)
  }

  lemma MarkFromFlags(frames: seq<Frame>, hero: string, i: nat, b: nat)
    requires i < |frames|
    ensures MarkOf(frames[i], hero).Safe? <==> Unthreatened(frames, hero, i)
    ensures MarkOf(frames[i], hero) == Dying(b) <==> Threatened(frames, hero, i, b)
  {
    var (f, r) := (frames[i], FirstRecord(frames[i].heroes, hero));
    if f.time >= 0 && r < |f.heroes| {
      assert Shows(f, hero, f.heroes[r].flags);
      forall flags | Shows(f, hero, flags)
        ensures flags == f.heroes[r].flags
      {}
    }
  }

  lemma OpenFromFlags(frames: seq<Frame>, hero: string, i: nat, b: nat, c: nat)
    requires c <= |frames|
    ensures i in Open(MarksOf(frames, hero), c, b) <==> LeadsTo(frames, hero, i, b, c)
  {
    forall j: nat | j < |frames|
      ensures SafeAt(MarksOf(frames, hero), j) <==> Unthreatened(frames, hero, j)
    {
      MarkFromFlags(frames, hero, j, b);
    }
    if i < c {
      MarkFromFlags(frames, hero, i, b);
    }
  }

  /** Fair picks, told from the flags: whenever the hero shows no flag at `c`, exactly one of the ticks of each horizon
      leading to `c` is saved, if there are any. */
  lemma OneOfEachHorizon(frames: seq<Frame>, saved: set<Candidate>, hero: string, b: nat, c: nat)
    requires Fair(MarksOf(frames, hero), |frames|, DyingSaved(frames, saved, hero))
    requires Unthreatened(frames, hero, c) && b < 5 && exists i :: LeadsTo(frames, hero, i, b, c)
    ensures exists i :: LeadsTo(frames, hero, i, b, c) && Candidate(i, hero) in saved
    ensures forall i, j | LeadsTo(frames, hero, i, b, c) && LeadsTo(frames, hero, j, b, c)
                          && Candidate(i, hero) in saved && Candidate(j, hero) in saved :: i == j
  {
    var (marks, picks) := (MarksOf(frames, hero), DyingSaved(frames, saved, hero));
    MarkFromFlags(frames, hero, c, b);
    assert EpisodePicked(marks, c, picks) && OneOf(picks, Open(marks, c, b));
    forall i: nat
      ensures i in Open(marks, c, b) <==> LeadsTo(frames, hero, i, b, c)
      ensures i in picks * Open(marks, c, b) <==> LeadsTo(frames, hero, i, b, c) && Candidate(i, hero) in saved
    {
      OpenFromFlags(frames, hero, i, b, c);
    }
    var i :| LeadsTo(frames, hero, i, b, c);
    assert i in Open(marks, c, b);
    SingleMember(picks * Open(marks, c, b));
  }

  lemma SingleMember(s: set<nat>)
    requires |s| == 1
    ensures exists i :: i in s
    ensures forall i, j | i in s && j in s :: i == j
  {
    var i :| i in s;
    forall j | j in s
      ensures j == i
    {
      if j != i {
        assert |{i, j}| == 2 && {i, j} <= s;
        SmallerSet({i, j}, s);
      }
    }
  }

  lemma SmallerSet(a: set<nat>, b: set<nat>)
    requires a <= b
    ensures |a| <= |b|
  {
    assert b == a + (b - a);
  }

  /** A saved tick of a horizon is followed by a tick without a flag: episodes still open at the end give none. */
  lemma PickIsFollowed(frames: seq<Frame>, saved: set<Candidate>, hero: string, i: nat, b: nat)
    requires Fair(MarksOf(frames, hero), |frames|, DyingSaved(frames, saved, hero))
    requires Candidate(i, hero) in saved && Threatened(frames, hero, i, b) && b < 5
    ensures exists c :: i < c && Unthreatened(frames, hero, c)
  {
    var marks := MarksOf(frames, hero);
    MarkFromFlags(frames, hero, i, b);
    assert i in DyingSaved(frames, saved, hero);
    assert PickedFromClosed(marks, |frames|, i);
    var c: nat :| i < c < |frames| && SafeAt(marks, c);
    MarkFromFlags(frames, hero, c, b);
  }
}
