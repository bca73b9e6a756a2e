/** The match id and the daylight flag of every frame, told from the log alone. */
module Frames {
  import opened ReplayLog
  import opened GeneralTimeline
  import opened LogOrder
  import opened Scores

  // ---------- daylight ----------

  /** Day and night take turns every 300 seconds, beginning with day; it is day before second 0. */
  predicate DayRight(f: Frame) {
    f.isDay <==> f.time < 0 || f.time % 600 < 300
  }

  predicate AllDayRight(frames: seq<Frame>) {
    forall i | 0 <= i < |frames| :: DayRight(frames[i])
  }

  lemma OpenFrameDays(s: State, l: Line)
    requires AllDayRight(Flushed(s))
    ensures AllDayRight(Flushed(OpenFrame(s, l)))
  {
    if OpensFrame(s, l) {
      var t := OpenFrame(s, l);
      var last := if s.current.Some? then s.current.value.time else s.last;
      var gap := Gap(s, last + 1, Sec(l));
      assert Flushed(t) == Flushed(s) + gap + [t.current.value];
      forall k | 0 <= k < |gap|
        ensures DayRight(gap[k])
      {
        assert gap[k] == Filler(s, last + 1 + k);
      }
      assert DayRight(t.current.value);
    }
  }

  /** The second, the flag and the id of every frame are as before, but for the id of the current frame. */
  predicate SameHeaders(s: State, t: State) {
    && SameTimes(s, t)
    && (s.current.Some? ==> t.current.value.isDay == s.current.value.isDay)
    && forall i | 0 <= i < |s.results| ::
         t.results[i].isDay == s.results[i].isDay && t.results[i].matchId == s.results[i].matchId
  }

  /** The running id is `running`, the current frame's `shown`. */
  predicate ShowsId(s: State, running: int, shown: int) {
    s.matchId == running && (s.current.Some? ==> s.current.value.matchId == shown)
  }

  lemma DeathHeaders(s: State, l: Line, shown: int)
    requires ShowsId(s, s.matchId, shown)
    ensures SameHeaders(s, HeroDeath(s, l)) && ShowsId(HeroDeath(s, l), s.matchId, shown)
  {
    DeathTimes(s, l);
  }

  lemma IntervalHeaders(s: State, l: Line, shown: int)
    requires ShowsId(s, s.matchId, shown)
    ensures SameHeaders(s, HeroInterval(s, l)) && ShowsId(HeroInterval(s, l), s.matchId, shown)
  {
    IntervalTimes(s, l);
  }

  /** Only a match line changes the running id and that of the current frame. */
  lemma DispatchHeaders(s: State, l: Line, shown: int)
    requires ShowsId(s, s.matchId, shown)
    ensures SameHeaders(s, Dispatch(s, l))
    ensures l.kind.MatchId? ==> ShowsId(Dispatch(s, l), l.matchId, l.matchId)
    ensures !l.kind.MatchId? ==> ShowsId(Dispatch(s, l), s.matchId, shown)
  {
    match l.kind
    case Death => DeathHeaders(s, l, shown);
    case Interval => IntervalHeaders(s, l, shown);
    case _ =>
  }

  lemma DaysStayRight(s: State, t: State)
    requires SameHeaders(s, t) && AllDayRight(Flushed(s))
    ensures AllDayRight(Flushed(t))
  {
    forall i | 0 <= i < |Flushed(t)|
      ensures DayRight(Flushed(t)[i])
    {
      assert DayRight(Flushed(s)[i]);
    }
  }

  /** For every log the flag of each frame, gap fillers included, is told by the frame's second. */
  lemma {:induction false} DaylightByClock(id: int, log: seq<Line>)
    ensures forall i | 0 <= i < |Timeline(id, log)| :: DayRight(Timeline(id, log)[i])
  {
    RunDays(id, log);
  }

  lemma {:induction false} RunDays(id: int, log: seq<Line>)
    ensures AllDayRight(Flushed(Run(id, log)))
    decreases |log|
  {
    if log != [] {
      var n := |log| - 1;
      var s, l := Run(id, log[..n]), log[n];
      RunDays(id, log[..n]);
      StepDays(s, l);
    }
  }

  lemma StepDays(s: State, l: Line)
    requires AllDayRight(Flushed(s))
    ensures AllDayRight(Flushed(Step(s, l)))
  {
    var s1 := s.(last := Started(s, l));
    assert Flushed(s1) == Flushed(s);
    if !Skips(s, l) {
      var s2 := OpenFrame(s1, l);
      OpenFrameDays(s1, l);
      DispatchHeaders(s2, l, if s2.current.Some? then s2.current.value.matchId else 0);
      DaysStayRight(s2, Dispatch(s2, l));
    }
  }

  // ---------- match id ----------

  /** Line `j` is a kept match line of a second up to `t`. */
  predicate NamesMatch(log: seq<Line>, j: nat, t: int) {
    Kept(log, j) && log[j].kind.MatchId? && Sec(log[j]) <= t
  }

  ghost predicate IsLatestMatch(log: seq<Line>, j: nat, t: int) {
    NamesMatch(log, j, t) && forall k: nat | NamesMatch(log, k, t) :: k <= j
  }

  /** The latest match line up to second `t` gives the id, and `id` holds if there is none. */
  ghost predicate IdentifiedBy(id: int, log: seq<Line>, t: int, matchId: int) {
    && (forall j: nat | IsLatestMatch(log, j, t) :: matchId == log[j].matchId)
    && ((forall j: nat :: !NamesMatch(log, j, t)) ==> matchId == id)
  }

  /** The same by recursion: each kept match line gives its id to the seconds from its own on. */
  function IdAt(id: int, log: seq<Line>, t: int): int {
    if log == [] then id
    else if NamesMatch(log, |log| - 1, t) then log[|log| - 1].matchId
    else IdAt(id, log[..|log| - 1], t)
  }

  lemma NamedInPrefix(log: seq<Line>, t: int, j: nat)
    requires log != []
    ensures j < |log| - 1 ==> (NamesMatch(log[..|log| - 1], j, t) <==> NamesMatch(log, j, t))
    ensures NamesMatch(log, j, t) ==> j < |log|
  {
    if j < |log| - 1 {
      KeptInPrefix(log, |log| - 1, j);
    }
  }

  lemma {:induction false} LatestGivesId(id: int, log: seq<Line>, t: int, j: nat)
    requires IsLatestMatch(log, j, t)
    ensures IdAt(id, log, t) == log[j].matchId
    decreases |log|
  {
    var n := |log| - 1;
    if j < n {
      assert !NamesMatch(log, n, t);
      forall k: nat | NamesMatch(log[..n], k, t)
        ensures k <= j
      {
        NamedInPrefix(log, t, k);
      }
      NamedInPrefix(log, t, j);
      LatestGivesId(id, log[..n], t, j);
    }
  }

  lemma {:induction false} NoneGivesId(id: int, log: seq<Line>, t: int)
    requires forall j: nat :: !NamesMatch(log, j, t)
    ensures IdAt(id, log, t) == id
    decreases |log|
  {
    if log != [] {
      var before := log[..|log| - 1];
      forall j: nat
        ensures !NamesMatch(before, j, t)
      {
        NamedInPrefix(log, t, j);
      }
      NoneGivesId(id, before, t);
    }
  }

  lemma IdAtExactly(id: int, log: seq<Line>, t: int)
    ensures IdentifiedBy(id, log, t, IdAt(id, log, t))
  {
    forall j: nat | IsLatestMatch(log, j, t)
      ensures IdAt(id, log, t) == log[j].matchId
    {
      LatestGivesId(id, log, t, j);
    }
    if forall j: nat :: !NamesMatch(log, j, t) {
      NoneGivesId(id, log, t);
    }
  }

  predicate Identified(id: int, log: seq<Line>, f: Frame) {
    f.matchId == IdAt(id, log, f.time)
  }

  predicate AllIdentified(id: int, log: seq<Line>, frames: seq<Frame>) {
    forall i | 0 <= i < |frames| :: Identified(id, log, frames[i])
  }

  /** The running id is right for every second that nothing follows, and the current frame shows it. */
  ghost predicate RunningIdentified(id: int, log: seq<Line>, s: State) {
    && (forall t | QuietAfter(log, t) :: s.matchId == IdAt(id, log, t))
    && (s.current.Some? ==> s.current.value.matchId == s.matchId)
  }

  lemma FillersIdentified(id: int, log: seq<Line>, s: State, from: int, to: int)
    requires RunningIdentified(id, log, s) && forall t | from <= t :: QuietAfter(log, t)
    ensures AllIdentified(id, log, Gap(s, from, to))
  {
    var gap := Gap(s, from, to);
    forall k | 0 <= k < |gap|
      ensures Identified(id, log, gap[k])
    {
      assert gap[k] == Filler(s, from + k);
      assert QuietAfter(log, from + k);
    }
  }

  lemma ConcatIdentified(id: int, log: seq<Line>, a: seq<Frame>, b: seq<Frame>, c: Frame)
    requires AllIdentified(id, log, a) && AllIdentified(id, log, b) && Identified(id, log, c)
    ensures AllIdentified(id, log, a + b + [c])
  {}

  /** Opening a frame copies the running id into the gap fillers and the new frame. */
  lemma OpenFrameShape(s: State, l: Line)
    requires OpensFrame(s, l)
    ensures (var (t, last) := (OpenFrame(s, l), if s.current.Some? then s.current.value.time else s.last);
             && t.matchId == s.matchId && t.current.Some?
             && t.current.value.time == Sec(l) && t.current.value.matchId == s.matchId
             && Flushed(t) == Flushed(s) + Gap(s, last + 1, Sec(l)) + [t.current.value])
  {}

  lemma OpenFrameIds(id: int, log: seq<Line>, s: State, l: Line)
    requires OpensFrame(s, l) && AllIdentified(id, log, Flushed(s)) && RunningIdentified(id, log, s)
    requires forall t | (if s.current.Some? then s.current.value.time < t else true) :: QuietAfter(log, t)
    requires QuietAfter(log, Sec(l))
    ensures AllIdentified(id, log, Flushed(OpenFrame(s, l))) && RunningIdentified(id, log, OpenFrame(s, l))
  {
    var (f, last) := (OpenFrame(s, l).current.value, if s.current.Some? then s.current.value.time else s.last);
    OpenFrameShape(s, l);
    FillersIdentified(id, log, s, last + 1, Sec(l));
    assert Identified(id, log, f);
    ConcatIdentified(id, log, Flushed(s), Gap(s, last + 1, Sec(l)), f);
  }

  /** The frames before the line's second keep their id; a frame at that second takes the line's. */
  lemma IdentifiedAfterLine(id: int, log: seq<Line>, s: State, t: State)
    requires log != [] && Kept(log, |log| - 1) && t == Dispatch(s, log[|log| - 1])
    requires Contiguous(s) && (s.current.Some? ==> s.current.value.time <= Sec(log[|log| - 1]))
    requires Typed(log[|log| - 1]) ==> s.current.Some? && s.current.value.time == Sec(log[|log| - 1])
    requires AllIdentified(id, log[..|log| - 1], Flushed(s)) && RunningIdentified(id, log[..|log| - 1], s)
    ensures AllIdentified(id, log, Flushed(t))
  {
    var (n, l) := (|log| - 1, log[|log| - 1]);
    DispatchHeaders(s, l, s.matchId);
    forall i | 0 <= i < |Flushed(t)|
      ensures Identified(id, log, Flushed(t)[i])
    {
      assert Identified(id, log[..n], Flushed(s)[i]);
    }
  }

  /** A second nothing follows takes the id of the last line if that is a kept match line. */
  lemma RunningIdAfterLine(id: int, log: seq<Line>, s: State, t: State)
    requires log != [] && RunningIdentified(id, log[..|log| - 1], s)
    requires t.matchId == if Kept(log, |log| - 1) && log[|log| - 1].kind.MatchId? then log[|log| - 1].matchId
                          else s.matchId
    requires t.current.Some? ==> t.current.value.matchId == t.matchId
    ensures RunningIdentified(id, log, t)
  {
    var n := |log| - 1;
    AllKeptInPrefix(log, n);
    forall u | QuietAfter(log, u)
      ensures t.matchId == IdAt(id, log, u)
    {
      assert QuietAfter(log[..n], u);
    }
  }

  /** In an ordered log each frame, gap fillers included, bears the id of the latest match line up to its second,
      and the epilogue's id before the first one. */
  lemma {:induction false} FramesIdentified(id: int, log: seq<Line>)
    requires Ordered(log)
    ensures forall i | 0 <= i < |Timeline(id, log)| ::
              IdentifiedBy(id, log, Timeline(id, log)[i].time, Timeline(id, log)[i].matchId)
  {
    RunIdentified(id, log);
    forall i | 0 <= i < |Timeline(id, log)|
      ensures IdentifiedBy(id, log, Timeline(id, log)[i].time, Timeline(id, log)[i].matchId)
    {
      IdAtExactly(id, log, Timeline(id, log)[i].time);
      assert Identified(id, log, Timeline(id, log)[i]);
    }
  }

  lemma {:induction false} RunIdentified(id: int, log: seq<Line>)
    requires Ordered(log)
    ensures AllIdentified(id, log, Flushed(Run(id, log))) && RunningIdentified(id, log, Run(id, log))
    decreases |log|
  {
    if log != [] {
      var n := |log| - 1;
      var s, l := Run(id, log[..n]), log[n];
      OrderedPrefix(log, n);
      RunIdentified(id, log[..n]);
      RunTicks(id, log[..n]);
      var s1 := s.(last := Started(s, l));
      assert Flushed(s1) == Flushed(s);
      if Kept(log, n) {
        OnePerSecond(id, log[..n]);
        CurrentNotAhead(id, log);
        KeptIdentified(id, log, s1);
      } else {
        SkippedIdentified(id, log, s, s1);
      }
    }
  }

  lemma SkippedIdentified(id: int, log: seq<Line>, s: State, t: State)
    requires log != [] && !Kept(log, |log| - 1)
    requires AllIdentified(id, log[..|log| - 1], Flushed(s)) && RunningIdentified(id, log[..|log| - 1], s)
    requires t.matchId == s.matchId && t.current == s.current && t.results == s.results
    ensures AllIdentified(id, log, Flushed(t)) && RunningIdentified(id, log, t)
  {
    forall i | 0 <= i < |Flushed(t)|
      ensures Identified(id, log, Flushed(t)[i])
    {
      assert Identified(id, log[..|log| - 1], Flushed(s)[i]);
    }
    RunningIdAfterLine(id, log, s, t);
  }

  lemma KeptIdentified(id: int, log: seq<Line>, s1: State)
    requires log != [] && Ordered(log) && Kept(log, |log| - 1)
    requires var (s, l) := (Run(id, log[..|log| - 1]), log[|log| - 1]);
             && s1 == s.(last := Started(s, l))
             && (s.current.Some? ==> s.current.value.time <= Sec(l))
    requires Contiguous(s1)
    requires AllIdentified(id, log[..|log| - 1], Flushed(s1)) && RunningIdentified(id, log[..|log| - 1], s1)
    ensures var t := Dispatch(OpenFrame(s1, log[|log| - 1]), log[|log| - 1]);
            AllIdentified(id, log, Flushed(t)) && RunningIdentified(id, log, t)
  {
    var n := |log| - 1;
    var l := log[n];
    var s2 := OpenFrame(s1, l);
    OrderedPrefix(log, n);
    forall t | (if s1.current.Some? then s1.current.value.time < t else true)
      ensures QuietAfter(log[..n], t)
    {
      LatestMeansQuiet(id, log[..n], t);
    }
    if OpensFrame(s1, l) {
      LatestMeansQuiet(id, log[..n], Sec(l));
      OpenFrameIds(id, log[..n], s1, l);
    }
    OpenFrameTimes(s1, l);
    DispatchHeaders(s2, l, s2.matchId);
    IdentifiedAfterLine(id, log, s2, Dispatch(s2, l));
    RunningIdAfterLine(id, log, s2, Dispatch(s2, l));
  }
}
