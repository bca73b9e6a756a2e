/** The labels written backwards in one pass agree with looking ahead in the log. */
module DeathLabels {
  import opened Names
  import opened ReplayLog
  import opened GeneralTimeline
  import opened LogOrder

  // ---------- what is to be foreseen ----------

  predicate IsHeroDeath(l: Line) {
    l.kind.Death? && l.targetHero
  }

  /** Line `j` is kept and reports the death of `hero` at second `d`. */
  predicate Reports(log: seq<Line>, j: nat, hero: string, d: int) {
    Kept(log, j) && IsHeroDeath(log[j]) && log[j].targetName == hero && Sec(log[j]) == d
  }

  /** A kept line reports the death of `hero` at second `d`. */
  ghost predicate DiesAt(log: seq<Line>, hero: string, d: int) {
    exists j: nat :: Reports(log, j, hero, d)
  }

  /** A kept line reports the death of `hero` between 1 and `horizon` seconds after second `t`. */
  ghost predicate DiesWithin(log: seq<Line>, hero: string, t: int, horizon: int) {
    exists d | t + 1 <= d <= t + horizon :: DiesAt(log, hero, d)
  }

  /** What looking ahead from second `t` sees of the hero's deaths. */
  ghost function LookAhead(log: seq<Line>, hero: string, t: int): Flags {
    Flags(DiesWithin(log, hero, t, 1), DiesWithin(log, hero, t, 5), DiesWithin(log, hero, t, 10),
          DiesWithin(log, hero, t, 15), DiesWithin(log, hero, t, 20))
  }

  /** The flags a record gets: looked ahead for the first record of a hero in a frame, none for later ones. */
  ghost function Foreseen(log: seq<Line>, f: Frame, r: nat): Flags
    requires r < |f.heroes|
  {
    var (hero, t) := (f.heroes[r].heroName, f.time);
    if forall q | 0 <= q < r :: f.heroes[q].heroName != hero then LookAhead(log, hero, t)
    else Flags(false, false, false, false, false)
  }

  ghost predicate FrameLabelled(log: seq<Line>, f: Frame) {
    forall r | 0 <= r < |f.heroes| :: f.heroes[r].flags == Foreseen(log, f, r)
  }

  // ---------- the same over a set of deaths ----------

  /** The hero deaths the parser has handled, as pairs of name and second. */
  function Deaths(log: seq<Line>): set<(string, int)> {
    if log == [] then {}
    else
      var (n, l) := (|log| - 1, log[|log| - 1]);
      Deaths(log[..n]) + if Kept(log, n) && IsHeroDeath(l) then {(l.targetName, Sec(l))} else {}
  }

  lemma {:induction false} DeathsAreDiesAt(log: seq<Line>, hero: string, d: int)
    ensures (hero, d) in Deaths(log) <==> DiesAt(log, hero, d)
    decreases |log|
  {
    if log != [] {
      DeathsAreDiesAt(log[..|log| - 1], hero, d);
      DiesAtExtended(log, hero, d);
    }
  }

  lemma DiesAtExtended(log: seq<Line>, hero: string, d: int)
    requires log != []
    ensures DiesAt(log, hero, d) <==> DiesAt(log[..|log| - 1], hero, d) || Reports(log, |log| - 1, hero, d)
  {
    var n := |log| - 1;
    if j: nat :| Reports(log, j, hero, d) && j < n {
      KeptInPrefix(log, n, j);
      assert Reports(log[..n], j, hero, d);
    }
    if j: nat :| Reports(log[..n], j, hero, d) {
      KeptInPrefix(log, n, j);
      assert Reports(log, j, hero, d);
    }
  }

  predicate InReach(deaths: set<(string, int)>, hero: string, t: int, horizon: int) {
    exists d | t + 1 <= d <= t + horizon :: (hero, d) in deaths
  }

  function Reached(deaths: set<(string, int)>, hero: string, t: int): Flags {
    Flags(InReach(deaths, hero, t, 1), InReach(deaths, hero, t, 5), InReach(deaths, hero, t, 10),
          InReach(deaths, hero, t, 15), InReach(deaths, hero, t, 20))
  }

  predicate Labelled(deaths: set<(string, int)>, f: Frame) {
    forall r | 0 <= r < |f.heroes| ::
      f.heroes[r].flags == if IsFirst(f.heroes, r) then Reached(deaths, f.heroes[r].heroName, f.time) else NO_FLAGS
  }

  predicate AllLabelled(deaths: set<(string, int)>, frames: seq<Frame>) {
    forall i | 0 <= i < |frames| :: Labelled(deaths, frames[i])
  }

  lemma LabelledMeansForeseen(log: seq<Line>, f: Frame)
    requires Labelled(Deaths(log), f)
    ensures FrameLabelled(log, f)
  {
    forall hero: string, d: int
      ensures (hero, d) in Deaths(log) <==> DiesAt(log, hero, d)
    {
      DeathsAreDiesAt(log, hero, d);
    }
    forall hero: string, t: int, k: int
      ensures InReach(Deaths(log), hero, t, k) <==> DiesWithin(log, hero, t, k)
    {
      if d :| t + 1 <= d <= t + k && (hero, d) in Deaths(log) {
        assert DiesAt(log, hero, d);
      }
      if d :| t + 1 <= d <= t + k && DiesAt(log, hero, d) {
        assert (hero, d) in Deaths(log);
      }
    }
  }

  // ---------- one frame ----------

  /** One more death, `i` seconds ahead, adds exactly the flags whose horizon covers it. */
  lemma ReachedWithOneMore(deaths: set<(string, int)>, hero: string, victim: string, t: int, i: int)
    ensures Reached(deaths + {(victim, t + i)}, hero, t)
         == if hero == victim && 1 <= i <= REACH then Mark(Reached(deaths, hero, t), i) else Reached(deaths, hero, t)
  {}

  /** A frame's labels stay right when the death that lies `i` seconds ahead of it is handled. */
  lemma DeathMarksFrame(deaths: set<(string, int)>, f: Frame, victim: string, i: int)
    requires Labelled(deaths, f)
    ensures Labelled(deaths + {(victim, f.time + i)}, if 1 <= i <= REACH then LabelFrame(f, victim, i) else f)
  {
    var g := if 1 <= i <= REACH then LabelFrame(f, victim, i) else f;
    assert |g.heroes| == |f.heroes| && forall q | 0 <= q < |f.heroes| :: g.heroes[q].heroName == f.heroes[q].heroName;
    forall r | 0 <= r < |g.heroes|
      ensures g.heroes[r].flags
           == if IsFirst(g.heroes, r) then Reached(deaths + {(victim, f.time + i)}, g.heroes[r].heroName, g.time)
              else NO_FLAGS
    {
      ReachedWithOneMore(deaths, f.heroes[r].heroName, victim, f.time, i);
    }
  }

  /** Labels depend only on the second and on the records of a frame. */
  lemma LabelledCarriesOver(deaths: set<(string, int)>, f: Frame, g: Frame)
    requires Labelled(deaths, f) && g.time == f.time && g.heroes == f.heroes
    ensures Labelled(deaths, g)
  {}

  /** A further record without flags is right as long as no death after the frame's second is known. */
  lemma NewRecordLabelled(deaths: set<(string, int)>, f: Frame, record: Record)
    requires Labelled(deaths, f) && record.flags == NO_FLAGS
    requires forall x | x in deaths :: x.1 <= f.time
    ensures Labelled(deaths, f.(heroes := f.heroes + [record]))
  {}

  // ---------- one line ----------

  lemma NoRecordsLabelled(deaths: set<(string, int)>, frames: seq<Frame>)
    requires forall k | 0 <= k < |frames| :: frames[k].heroes == []
    ensures AllLabelled(deaths, frames)
  {}

  lemma LabelledConcat(deaths: set<(string, int)>, a: seq<Frame>, b: seq<Frame>)
    requires AllLabelled(deaths, a) && AllLabelled(deaths, b)
    ensures AllLabelled(deaths, a + b)
  {}

  /** Opening a frame only adds frames without records. */
  lemma OpenFrameLabels(deaths: set<(string, int)>, s: State, l: Line)
    requires AllLabelled(deaths, Flushed(s))
    ensures AllLabelled(deaths, Flushed(OpenFrame(s, l)))
  {
    if OpensFrame(s, l) {
      var t := OpenFrame(s, l);
      var last := if s.current.Some? then s.current.value.time else s.last;
      var gap := Gap(s, last + 1, Sec(l));
      var added := gap + [t.current.value];
      assert forall k | 0 <= k < |gap| :: gap[k] == Filler(s, last + 1 + k);
      assert t.current.value.heroes == [] && Flushed(t) == Flushed(s) + added;
      NoRecordsLabelled(deaths, added);
      LabelledConcat(deaths, Flushed(s), added);
    }
  }

  /** What a hero death does to the frame at index `k`. */
  lemma DeathLabelsAt(s: State, l: Line, k: nat)
    requires Contiguous(s) && s.current.Some? && s.current.value.time == Sec(l) && k < |Flushed(s)|
    ensures |Flushed(HeroDeath(s, l))| == |Flushed(s)|
    ensures var (f, g, i) := (Flushed(s)[k], Flushed(HeroDeath(s, l))[k], |s.results| - k);
            && g.time == f.time
            && g.heroes == if 1 <= i <= REACH then LabelFrame(f, l.targetName, i).heroes else f.heroes
  {}

  lemma MarkedCarriesOver(deaths: set<(string, int)>, f: Frame, g: Frame, victim: string, i: int)
    requires Labelled(deaths, f) && g.time == f.time
    requires g.heroes == if 1 <= i <= REACH then LabelFrame(f, victim, i).heroes else f.heroes
    ensures Labelled(deaths + {(victim, f.time + i)}, g)
  {
    DeathMarksFrame(deaths, f, victim, i);
    LabelledCarriesOver(deaths + {(victim, f.time + i)}, if 1 <= i <= REACH then LabelFrame(f, victim, i) else f, g);
  }

  lemma DeathLabelledAt(deaths: set<(string, int)>, s: State, l: Line, k: nat)
    requires Contiguous(s) && s.current.Some? && s.current.value.time == Sec(l) && k < |Flushed(s)|
    requires Labelled(deaths, Flushed(s)[k])
    ensures |Flushed(HeroDeath(s, l))| == |Flushed(s)|
    ensures Labelled(deaths + {(l.targetName, Sec(l))}, Flushed(HeroDeath(s, l))[k])
  {
    DeathLabelsAt(s, l, k);
    assert Flushed(s)[k].time + (|s.results| - k) == Sec(l);
    MarkedCarriesOver(deaths, Flushed(s)[k], Flushed(HeroDeath(s, l))[k], l.targetName, |s.results| - k);
  }

  /** At a hero death every stored frame is labelled by its distance to the current second. */
  lemma DeathLabels(deaths: set<(string, int)>, s: State, l: Line)
    requires AllLabelled(deaths, Flushed(s)) && Contiguous(s)
    requires s.current.Some? && s.current.value.time == Sec(l)
    ensures AllLabelled(deaths + {(l.targetName, Sec(l))}, Flushed(HeroDeath(s, l)))
  {
    var more := deaths + {(l.targetName, Sec(l))};
    var frames := Flushed(HeroDeath(s, l));
    assert |frames| == |Flushed(s)|;
    forall k | 0 <= k < |frames|
      ensures Labelled(more, frames[k])
    {
      DeathLabelledAt(deaths, s, l, k);
    }
  }

  lemma IntervalLabels(deaths: set<(string, int)>, s: State, l: Line)
    requires AllLabelled(deaths, Flushed(s)) && s.current.Some?
    requires forall x | x in deaths :: x.1 <= s.current.value.time
    ensures AllLabelled(deaths, Flushed(HeroInterval(s, l)))
  {
    var t := HeroInterval(s, l);
    assert t.results == s.results;
    assert Labelled(deaths, Flushed(s)[|s.results|]);
    if t.current != s.current {
      var f := s.current.value;
      var record := t.current.value.heroes[|f.heroes|];
      assert t.current.value == f.(heroes := f.heroes + [record]);
      NewRecordLabelled(deaths, f, record);
    }
    forall k | 0 <= k < |Flushed(t)|
      ensures Labelled(deaths, Flushed(t)[k])
    {
      if k < |s.results| {
        assert Flushed(t)[k] == Flushed(s)[k];
      }
    }
  }

  /** The other line kinds change at most the current frame's match id. */
  lemma OtherLabels(deaths: set<(string, int)>, s: State, l: Line)
    requires AllLabelled(deaths, Flushed(s)) && !IsHeroDeath(l) && !l.kind.Interval?
    ensures AllLabelled(deaths, Flushed(Dispatch(s, l)))
  {
    var t := Dispatch(s, l);
    assert t.results == s.results;
    forall k | 0 <= k < |Flushed(t)|
      ensures Labelled(deaths, Flushed(t)[k])
    {
      LabelledCarriesOver(deaths, Flushed(s)[k], Flushed(t)[k]);
    }
  }

  lemma DispatchLabels(deaths: set<(string, int)>, s: State, l: Line)
    requires AllLabelled(deaths, Flushed(s)) && Contiguous(s)
    requires Typed(l) ==> s.current.Some? && s.current.value.time == Sec(l)
    requires forall x | x in deaths :: x.1 <= Sec(l)
    ensures AllLabelled(deaths + if IsHeroDeath(l) then {(l.targetName, Sec(l))} else {}, Flushed(Dispatch(s, l)))
  {
    assert deaths + {} == deaths;
    if IsHeroDeath(l) {
      DeathLabels(deaths, s, l);
    } else if l.kind.Interval? {
      IntervalLabels(deaths, s, l);
    } else {
      OtherLabels(deaths, s, l);
    }
  }

  lemma KeptStepLabels(deaths: set<(string, int)>, s: State, l: Line)
    requires AllLabelled(deaths, Flushed(s)) && Contiguous(s) && !Skips(s, l)
    requires s.current.Some? ==> s.current.value.time <= Sec(l)
    requires forall x | x in deaths :: x.1 <= Sec(l)
    ensures AllLabelled(deaths + if IsHeroDeath(l) then {(l.targetName, Sec(l))} else {}, Flushed(Step(s, l)))
  {
    var s1 := s.(last := Started(s, l));
    assert Flushed(s1) == Flushed(s);
    OpenFrameTimes(s1, l);
    OpenFrameLabels(deaths, s1, l);
    DispatchLabels(deaths, OpenFrame(s1, l), l);
  }

  // ---------- the whole log ----------

  /** The deaths handled so far are not after a kept last line. */
  lemma DeathsAreBehind(log: seq<Line>)
    requires log != [] && Ordered(log) && Kept(log, |log| - 1)
    ensures forall x | x in Deaths(log[..|log| - 1]) :: x.1 <= Sec(log[|log| - 1])
  {
    var n := |log| - 1;
    forall x | x in Deaths(log[..n])
      ensures x.1 <= Sec(log[n])
    {
      DeathsAreDiesAt(log[..n], x.0, x.1);
      var j: nat :| Reports(log[..n], j, x.0, x.1);
      KeptInPrefix(log, n, j);
    }
  }

  lemma SkippedLineKeepsFrames(s: State, l: Line)
    requires Skips(s, l)
    ensures Flushed(Step(s, l)) == Flushed(s)
  {}

  lemma LineLabels(id: int, log: seq<Line>)
    requires log != [] && Ordered(log)
    requires AllLabelled(Deaths(log[..|log| - 1]), Flushed(Run(id, log[..|log| - 1])))
    ensures AllLabelled(Deaths(log), Flushed(Step(Run(id, log[..|log| - 1]), log[|log| - 1])))
  {
    var n := |log| - 1;
    var s := Run(id, log[..n]);
    KeptMeansNotSkipped(id, log, n);
    if Kept(log, n) {
      OrderedPrefix(log, n);
      OnePerSecond(id, log[..n]);
      CurrentNotAhead(id, log);
      DeathsAreBehind(log);
      KeptStepLabels(Deaths(log[..n]), s, log[n]);
    } else {
      SkippedLineKeepsFrames(s, log[n]);
    }
  }

  lemma {:induction false} RunLabels(id: int, log: seq<Line>)
    requires Ordered(log)
    ensures AllLabelled(Deaths(log), Flushed(Run(id, log)))
    decreases |log|
  {
    if log != [] {
      OrderedPrefix(log, |log| - 1);
      RunLabels(id, log[..|log| - 1]);
      LineLabels(id, log);
    }
  }

  /** One-pass labelling equals look-ahead: for every log whose kept lines are in order, in every returned frame the
      first record of a hero carries flag K exactly when the log reports a death of that hero 1 to K seconds later,
      for K in 1, 5, 10, 15, 20, and a hero's further records in the frame carry no flag. */
  lemma LabelsAreLookAhead(id: int, log: seq<Line>)
    requires Ordered(log)
    ensures forall i | 0 <= i < |Timeline(id, log)| :: FrameLabelled(log, Timeline(id, log)[i])
  {
    RunLabels(id, log);
    var frames := Timeline(id, log);
    forall i | 0 <= i < |frames|
      ensures FrameLabelled(log, frames[i])
    {
      LabelledMeansForeseen(log, frames[i]);
    }
  }

  /** Exactly when a record's flags are true of the log: it is the hero's first record in the frame, or the hero does
      not die within 20 seconds. */
  lemma RecordLabelledExactly(id: int, log: seq<Line>, i: nat, r: nat)
    requires Ordered(log) && i < |Timeline(id, log)| && r < |Timeline(id, log)[i].heroes|
    ensures (var f := Timeline(id, log)[i];
             var hero := f.heroes[r].heroName;
             f.heroes[r].flags == LookAhead(log, hero, f.time) <==>
               (forall q | 0 <= q < r :: f.heroes[q].heroName != hero) || !DiesWithin(log, hero, f.time, 20))
  {
    var f := Timeline(id, log)[i];
    LabelsAreLookAhead(id, log);
    assert FrameLabelled(log, f);
    assert f.heroes[r].flags == Foreseen(log, f, r);
    NothingAhead(log, f.heroes[r].heroName, f.time);
  }

  lemma NothingAhead(log: seq<Line>, hero: string, t: int)
    ensures LookAhead(log, hero, t) == NO_FLAGS <==> !DiesWithin(log, hero, t, REACH)
  {}

  // ---------- a record that is not true of the log ----------

  /** An interval line of the unit "Hero" at second 0. */
  function HeroLine(): Line {
    Line(Interval, 0.0, 0, false, "", "", "", "", 0, "Hero", 0.0, 0.0, 0.0, 0, 0, 0)
  }

  /** The death of "hero" at second 1. */
  function DeathLine(): Line {
    Line(Death, 1.0, 0, true, "hero", "", "", "", 0, "", 0.0, 0.0, 0.0, 0, 0, 0)
  }

  lemma HeroLineNames(s: State)
    ensures HeroOf(s, HeroLine()) == "hero"
  {
    assert OccursAt("Hero", "Hero", 0);
    assert IndexFrom("Hero", "Hero", 0) == 0;
    assert ToLower("Hero") == "hero";
    assert IndexFrom("hero", "cdota_unit_hero_", 0) == -1;
  }

  /** Each interval line appends a record of the hero to the frame of second 0. */
  lemma HeroLineAppends(s: State)
    requires s.results == [] && (s.current.Some? ==> s.current.value.time == 0)
    requires s.last == 0 || (s.current.None? && s.last == UNSET)
    ensures (var t := Step(s, HeroLine());
             var before := if s.current.Some? then s.current.value.heroes else [];
             && t.results == [] && t.last == 0 && t.current.Some? && t.current.value.time == 0
             && exists r: Record :: r.heroName == "hero" && t.current.value.heroes == before + [r])
  {
    var s2 := OpenFrame(s.(last := Started(s, HeroLine())), HeroLine());
    HeroLineNames(s2);
    var r := Record("hero", true, Held(s2, "hero"), NO_FLAGS);
    assert s2.results == [] && s2.last == 0 && s2.current.Some? && s2.current.value.time == 0;
    assert HeroInterval(s2, HeroLine()).current.value.heroes == s2.current.value.heroes + [r];
  }

  lemma DeathLineKeepsRecords(s: State)
    requires s.results == [] && s.current.Some? && s.current.value.time == 0 && s.last == 0
    ensures (var frames := Flushed(Step(s, DeathLine()));
             && |frames| == 2 && frames[0].time == 0 && |frames[0].heroes| == |s.current.value.heroes|
             && forall r | 0 <= r < |frames[0].heroes| ::
                  frames[0].heroes[r].heroName == s.current.value.heroes[r].heroName)
  {
    var s2 := OpenFrame(s, DeathLine());
    assert s2.results == [s.current.value];
    assert Step(s, DeathLine()) == HeroDeath(s2, DeathLine());
  }

  /** Two interval lines of one hero at second 0 and its death at second 1. */
  function TwoRecords(): seq<Line> {
    [HeroLine(), HeroLine(), DeathLine()]
  }

  lemma TwoRecordsInFrame(id: int)
    ensures |Timeline(id, TwoRecords())| == 2
    ensures (var f := Timeline(id, TwoRecords())[0];
             f.time == 0 && |f.heroes| == 2 && f.heroes[0].heroName == f.heroes[1].heroName == "hero")
  {
    var log := TwoRecords();
    assert log[..1] == [HeroLine()] && log[..2][..1] == log[..1] && log[..1][..0] == [];
    HeroLineAppends(Run(id, []));
    assert Run(id, log[..1]) == Step(Run(id, []), HeroLine());
    HeroLineAppends(Run(id, log[..1]));
    assert Run(id, log[..2]) == Step(Run(id, log[..1]), HeroLine());
    DeathLineKeepsRecords(Run(id, log[..2]));
  }

  /** In this log, which is in order, the hero dies one second after the frame of second 0, and the hero's second record
      there carries no label. */
  lemma SecondRecordUnlabelled(id: int)
    ensures Ordered(TwoRecords()) && DiesWithin(TwoRecords(), "hero", 0, 1)
    ensures |Timeline(id, TwoRecords())| == 2
    ensures (var f := Timeline(id, TwoRecords())[0];
             |f.heroes| == 2 && f.heroes[1].heroName == "hero" && f.time == 0 && f.heroes[1].flags == NO_FLAGS)
  {
    TwoRecordsInFrame(id);
    assert Reports(TwoRecords(), 2, "hero", 1);
    assert DiesAt(TwoRecords(), "hero", 1);
    LabelsAreLookAhead(id, TwoRecords());
    assert FrameLabelled(TwoRecords(), Timeline(id, TwoRecords())[0]);
  }
}
