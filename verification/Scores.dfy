/** The scores stored in the frames count the credited deaths up to the frame's second. */
module Scores {
  import opened ReplayLog
  import opened GeneralTimeline
  import opened LogOrder
  import opened Roster

  /** The side the last line of the log scores for; nobody unless it is a kept hero death. */
  function LastCredit(log: seq<Line>): Side
    requires log != []
  {
    var (n, l) := (|log| - 1, log[|log| - 1]);
    if Kept(log, n) && l.kind.Death? && l.targetHero then CreditOf(log[..n], l) else Nobody
  }

  /** The number of kept hero deaths credited to `side` at or before second `t`. */
  function Credited(log: seq<Line>, side: Side, t: int): nat {
    if log == [] then 0
    else
      Credited(log[..|log| - 1], side, t)
      + if LastCredit(log) == side && Sec(log[|log| - 1]) <= t then 1 else 0
  }

  lemma {:induction false} CreditedMonotone(log: seq<Line>, side: Side, t: int, u: int)
    requires t <= u
    ensures Credited(log, side, t) <= Credited(log, side, u)
  {
    if log != [] {
      CreditedMonotone(log[..|log| - 1], side, t, u);
    }
  }

  /** No kept typed line lies after second `t`. */
  predicate QuietAfter(log: seq<Line>, t: int) {
    forall j: nat | j < |log| && Kept(log, j) && Typed(log[j]) :: Sec(log[j]) <= t
  }

  lemma LatestMeansQuiet(id: int, log: seq<Line>, t: int)
    requires Ordered(log)
    requires var s := Run(id, log); s.current.Some? ==> s.current.value.time <= t
    ensures QuietAfter(log, t)
  {
    RunTicks(id, log);
    LatestSecond(log);
    forall j: nat | j < |log| && Kept(log, j) && Typed(log[j])
      ensures Sec(log[j]) <= t
    {
      assert Opens(log, j, Sec(log[j]));
    }
  }

  /** A frame's scores are the deaths credited at or before its second. */
  predicate Scored(log: seq<Line>, f: Frame) {
    f.radiant == Credited(log, Radiant, f.time) && f.dire == Credited(log, Dire, f.time)
  }

  predicate AllScored(log: seq<Line>, frames: seq<Frame>) {
    forall i | 0 <= i < |frames| :: Scored(log, frames[i])
  }

  /** The running scores count every credited death so far, that is, up to any second that nothing follows. */
  ghost predicate RunningScored(log: seq<Line>, s: State) {
    forall t | QuietAfter(log, t) ::
      s.radiant == Credited(log, Radiant, t) && s.dire == Credited(log, Dire, t)
  }

  /** Frames opened now carry the running scores, which nothing later has changed yet. */
  lemma OpenFrameScores(log: seq<Line>, s: State, l: Line)
    requires AllScored(log, Flushed(s)) && RunningScored(log, s)
    requires forall t | (if s.current.Some? then s.current.value.time < t else true) :: QuietAfter(log, t)
    requires s.current.Some? ==> s.current.value.time <= Sec(l)
    ensures AllScored(log, Flushed(OpenFrame(s, l)))
  {
    if OpensFrame(s, l) {
      var t := OpenFrame(s, l);
      var last := if s.current.Some? then s.current.value.time else s.last;
      var gap := Gap(s, last + 1, Sec(l));
      assert Flushed(t) == Flushed(s) + gap + [t.current.value];
      forall k | 0 <= k < |gap|
        ensures Scored(log, gap[k])
      {
        assert gap[k] == Filler(s, last + 1 + k);
        assert QuietAfter(log, last + 1 + k);
      }
      assert QuietAfter(log, Sec(l));
      assert Scored(log, t.current.value);
    }
  }

  /** `t` is `s` with the running scores raised by the credit `side`, in the current frame too. */
  predicate RaisedBy(s: State, t: State, side: Side) {
    && t.radiant == s.radiant + (if side.Radiant? then 1 else 0)
    && t.dire == s.dire + (if side.Dire? then 1 else 0)
    && (CurrentRunning(s) ==> CurrentRunning(t))
    && (s.current.Some? <==> t.current.Some?)
    && |t.results| == |s.results|
    && forall i | 0 <= i < |s.results| ::
         t.results[i].radiant == s.results[i].radiant && t.results[i].dire == s.results[i].dire
  }

  /** The current frame shows the running scores. */
  predicate CurrentRunning(s: State) {
    s.current.Some? ==> s.current.value.radiant == s.radiant && s.current.value.dire == s.dire
  }

  lemma DeathRaises(s: State, l: Line)
    ensures RaisedBy(s, HeroDeath(s, l), Credit(s, l))
  {}

  lemma IntervalRaises(s: State, l: Line)
    ensures RaisedBy(s, HeroInterval(s, l), Nobody)
  {}

  lemma DispatchRaises(s: State, l: Line)
    ensures RaisedBy(s, Dispatch(s, l), if l.kind.Death? && l.targetHero then Credit(s, l) else Nobody)
  {
    match l.kind
    case Death =>
      if l.targetHero {
        DeathRaises(s, l);
      }
    case Interval => IntervalRaises(s, l);
    case _ =>
  }

  /** Opening a frame copies the running scores into it. */
  lemma OpenFrameRunning(s: State, l: Line)
    ensures CurrentRunning(s) ==> CurrentRunning(OpenFrame(s, l))
    ensures OpenFrame(s, l).radiant == s.radiant && OpenFrame(s, l).dire == s.dire
    ensures Credit(OpenFrame(s, l), l) == Credit(s, l)
  {}

  /** Scored frames before the last line's second keep their counts; a frame at that second takes the new running
      scores, which by then count everything. */
  lemma ScoredAfterLine(log: seq<Line>, s: State, t: State)
    requires log != [] && Kept(log, |log| - 1)
    requires Contiguous(s) && (s.current.Some? ==> s.current.value.time <= Sec(log[|log| - 1]))
    requires AllScored(log[..|log| - 1], Flushed(s))
    requires RaisedBy(s, t, LastCredit(log)) && SameTimes(s, t)
    requires LastCredit(log) != Nobody ==> s.current.Some? && s.current.value.time == Sec(log[|log| - 1])
    requires CurrentRunning(s)
    ensures AllScored(log, Flushed(t))
  {
    var n := |log| - 1;
    forall k | 0 <= k < |Flushed(t)|
      ensures Scored(log, Flushed(t)[k])
    {
      assert Scored(log[..n], Flushed(s)[k]);
    }
  }

  lemma RunningAfterLine(log: seq<Line>, s: State, t: State)
    requires log != [] && RunningScored(log[..|log| - 1], s)
    requires RaisedBy(s, t, LastCredit(log))
    ensures RunningScored(log, t)
  {
    var n := |log| - 1;
    forall u | QuietAfter(log, u)
      ensures t.radiant == Credited(log, Radiant, u) && t.dire == Credited(log, Dire, u)
    {
      AllKeptInPrefix(log, n);
      assert QuietAfter(log[..n], u);
    }
  }

  /** Every frame's scores, gap fillers included, are the deaths credited at or before the frame's second. */
  lemma {:induction false} ScoresCountDeaths(id: int, log: seq<Line>)
    requires Ordered(log)
    ensures forall i | 0 <= i < |Timeline(id, log)| :: Scored(log, Timeline(id, log)[i])
  {
    RunScores(id, log);
  }

  lemma {:induction false} RunScores(id: int, log: seq<Line>)
    requires Ordered(log)
    ensures AllScored(log, Flushed(Run(id, log)))
    ensures RunningScored(log, Run(id, log)) && CurrentRunning(Run(id, log))
    decreases |log|
  {
    if log != [] {
      var n := |log| - 1;
      var s, l := Run(id, log[..n]), log[n];
      OrderedPrefix(log, n);
      RunScores(id, log[..n]);
      RunTicks(id, log[..n]);
      var s1 := s.(last := Started(s, l));
      assert Flushed(s1) == Flushed(s);
      if Kept(log, n) {
        OnePerSecond(id, log[..n]);
        CurrentNotAhead(id, log);
        KeptScores(id, log, s1);
      } else {
        assert LastCredit(log) == Nobody;
        SkippedScores(log, s, s1);
      }
    }
  }

  lemma SkippedScores(log: seq<Line>, s: State, t: State)
    requires log != [] && LastCredit(log) == Nobody
    requires AllScored(log[..|log| - 1], Flushed(s)) && RunningScored(log[..|log| - 1], s)
    requires t.radiant == s.radiant && t.dire == s.dire && Flushed(t) == Flushed(s)
    requires t.current == s.current && t.results == s.results
    ensures AllScored(log, Flushed(t)) && RunningScored(log, t)
  {
    forall k | 0 <= k < |Flushed(t)|
      ensures Scored(log, Flushed(t)[k])
    {
      assert Scored(log[..|log| - 1], Flushed(s)[k]);
    }
    RunningAfterLine(log, s, t);
  }

  lemma KeptScores(id: int, log: seq<Line>, s1: State)
    requires log != [] && Ordered(log) && Kept(log, |log| - 1)
    requires var (s, l) := (Run(id, log[..|log| - 1]), log[|log| - 1]);
             && s1 == s.(last := Started(s, l))
             && (s.current.Some? ==> s.current.value.time <= Sec(l))
    requires Contiguous(s1) && CurrentRunning(s1)
    requires AllScored(log[..|log| - 1], Flushed(s1)) && RunningScored(log[..|log| - 1], s1)
    ensures var t := Dispatch(OpenFrame(s1, log[|log| - 1]), log[|log| - 1]);
            AllScored(log, Flushed(t)) && RunningScored(log, t) && CurrentRunning(t)
  {
    var n := |log| - 1;
    var l := log[n];
    var s2 := OpenFrame(s1, l);
    OrderedPrefix(log, n);
    forall t | (if s1.current.Some? then s1.current.value.time < t else true)
      ensures QuietAfter(log[..n], t)
    {
      LatestMeansQuiet(id, log[..n], t);
    }
    OpenFrameScores(log[..n], s1, l);
    OpenFrameTimes(s1, l);
    OpenFrameRunning(s1, l);
    CreditFromLog(id, log[..n], l);
    DispatchRaises(s2, l);
    DispatchTimes(s2, l);
    var t := Dispatch(s2, l);
    ScoredAfterLine(log, s2, t);
    RunningAfterLine(log, s2, t);
  }

  /** Along the returned timeline neither score ever falls. */
  lemma ScoresNeverFall(id: int, log: seq<Line>, i: nat, j: nat)
    requires Ordered(log) && i <= j < |Timeline(id, log)|
    ensures Timeline(id, log)[i].radiant <= Timeline(id, log)[j].radiant
    ensures Timeline(id, log)[i].dire <= Timeline(id, log)[j].dire
  {
    ScoresCountDeaths(id, log);
    OnePerSecond(id, log);
    var frames := Timeline(id, log);
    assert Scored(log, frames[i]) && Scored(log, frames[j]);
    CreditedMonotone(log, Radiant, frames[i].time, frames[j].time);
    CreditedMonotone(log, Dire, frames[i].time, frames[j].time);
  }
}
