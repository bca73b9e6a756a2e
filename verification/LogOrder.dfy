/** Which lines of a log the general parser keeps, what it means for the kept lines to be in order,
    and the shape of the frames that result: one frame for each second, without gaps. */
module LogOrder {
  import opened Options
  import opened ReplayLog
  import opened GeneralTimeline

  // ---------- the parser's clock ----------

  /** The two time variables of the parser: `lastProcessedTime` and the second of the current frame. */
  datatype Clock = Clock(last: int, frame: Option<int>)

  function ClockOf(s: State): Clock {
    Clock(s.last, if s.current.Some? then Some(s.current.value.time) else None)
  }

  function Tick(c: Clock, l: Line): Clock {
    if SkipsAt(c.last, l) || !Typed(l) || c.frame == Some(Sec(l)) then Clock(StartedAt(c.last, l), c.frame)
    else Clock(Sec(l), Some(Sec(l)))
  }

  function Ticks(log: seq<Line>): Clock {
    if log == [] then Clock(UNSET, None) else Tick(Ticks(log[..|log| - 1]), log[|log| - 1])
  }

  lemma StepTicks(s: State, l: Line)
    ensures ClockOf(Step(s, l)) == Tick(ClockOf(s), l)
  {
    DispatchTimes(OpenFrame(s.(last := Started(s, l)), l), l);
  }

  lemma {:induction false} RunTicks(id: int, log: seq<Line>)
    ensures ClockOf(Run(id, log)) == Ticks(log)
  {
    if log != [] {
      RunTicks(id, log[..|log| - 1]);
      StepTicks(Run(id, log[..|log| - 1]), log[|log| - 1]);
    }
  }

  /** Line `j` is not skipped by the parser. */
  predicate Kept(log: seq<Line>, j: nat) {
    j < |log| && !SkipsAt(Ticks(log[..j]).last, log[j])
  }

  /** The parser skips exactly the lines that are not kept, whatever match id it started from. */
  lemma KeptMeansNotSkipped(id: int, log: seq<Line>, j: nat)
    requires j < |log|
    ensures Kept(log, j) <==> !Skips(Run(id, log[..j]), log[j])
  {
    RunTicks(id, log[..j]);
  }

  /** The second of the latest kept typed line. */
  function LatestTyped(log: seq<Line>): Option<int> {
    if log == [] then None
    else
      var (n, l) := (|log| - 1, log[|log| - 1]);
      if Kept(log, n) && Typed(l) then Some(Sec(l)) else LatestTyped(log[..n])
  }

  /** The parser's clock shows the second of the latest kept typed line, of the first line if there is none. */
  lemma {:induction false} ClockShows(log: seq<Line>)
    requires log != [] && forall i | 0 <= i < |log| :: Sec(log[i]) != UNSET
    ensures match LatestTyped(log)
            case Some(t) => Ticks(log) == Clock(t, Some(t))
            case None => Ticks(log) == Clock(Sec(log[0]), None)
    decreases |log|
  {
    var n := |log| - 1;
    if n > 0 {
      ClockShows(log[..n]);
    } else {
      assert log[..n] == [];
    }
  }

  /** A line is skipped exactly if its second is negative while the latest kept typed line before it, or the first line
      if there is none, stands at a positive one.  No line stands at -99999, the parser's mark for "no line yet". */
  lemma SkippedExactly(log: seq<Line>, j: nat)
    requires j < |log| && forall i | 0 <= i < |log| :: Sec(log[i]) != -99999
    ensures !Kept(log, j) <==>
              Sec(log[j]) < 0 && (match LatestTyped(log[..j]) case Some(t) => t > 0 case None => Sec(log[0]) > 0)
  {
    if j > 0 {
      ClockShows(log[..j]);
    }
  }

  /** The kept lines have nondecreasing seconds. */
  ghost predicate Ordered(log: seq<Line>) {
    forall i: nat, j: nat | i < j && Kept(log, i) && Kept(log, j) :: Sec(log[i]) <= Sec(log[j])
  }

  lemma KeptInPrefix(log: seq<Line>, n: nat, j: nat)
    requires j < n <= |log|
    ensures Kept(log[..n], j) <==> Kept(log, j)
  {
    assert log[..n][..j] == log[..j];
  }

  lemma AllKeptInPrefix(log: seq<Line>, n: nat)
    requires n <= |log|
    ensures forall j: nat | j < n :: Kept(log[..n], j) <==> Kept(log, j)
  {
    forall j: nat | j < n
      ensures Kept(log[..n], j) <==> Kept(log, j)
    {
      KeptInPrefix(log, n, j);
    }
  }

  lemma OrderedPrefix(log: seq<Line>, n: nat)
    requires Ordered(log) && n <= |log|
    ensures Ordered(log[..n])
  {
    AllKeptInPrefix(log, n);
  }

  // ---------- the current frame ----------

  /** Line `j` is a kept typed line of second `t`. */
  predicate Opens(log: seq<Line>, j: nat, t: int) {
    Kept(log, j) && Typed(log[j]) && Sec(log[j]) == t
  }

  /** The current frame belongs to the latest second of a kept typed line. */
  ghost predicate AtLatestSecond(log: seq<Line>, frame: Option<int>) {
    match frame
    case None => forall j: nat, d: int :: !Opens(log, j, d)
    case Some(t) => (exists j: nat :: Opens(log, j, t)) && forall j: nat, d: int | Opens(log, j, d) :: d <= t
  }

  /** A kept line never lies before the current frame. */
  lemma KeptNotBeforeCurrent(log: seq<Line>, t: int)
    requires log != [] && Ordered(log) && Kept(log, |log| - 1)
    requires AtLatestSecond(log[..|log| - 1], Some(t))
    ensures t <= Sec(log[|log| - 1])
  {
    var n := |log| - 1;
    var j: nat :| Opens(log[..n], j, t);
    KeptInPrefix(log, n, j);
  }

  lemma LatestSecondStep(log: seq<Line>, before: Option<int>, after: Option<int>)
    requires log != [] && Ordered(log) && AtLatestSecond(log[..|log| - 1], before)
    requires after == if Kept(log, |log| - 1) && Typed(log[|log| - 1]) then Some(Sec(log[|log| - 1])) else before
    ensures AtLatestSecond(log, after)
  {
    var n := |log| - 1;
    forall j: nat, d: int | Opens(log, j, d)
      ensures after.Some? && d <= after.value
    {
      if j < n {
        KeptInPrefix(log, n, j);
        assert Opens(log[..n], j, d);
      }
    }
    if Kept(log, n) && Typed(log[n]) {
      assert Opens(log, n, Sec(log[n]));
    } else if before.Some? {
      var j: nat :| Opens(log[..n], j, before.value);
      KeptInPrefix(log, n, j);
      assert Opens(log, j, before.value);
    }
  }

  lemma {:induction false} LatestSecond(log: seq<Line>)
    requires Ordered(log)
    ensures AtLatestSecond(log, Ticks(log).frame)
    decreases |log|
  {
    if log != [] {
      var n := |log| - 1;
      OrderedPrefix(log, n);
      LatestSecond(log[..n]);
      LatestSecondStep(log, Ticks(log[..n]).frame, Ticks(log).frame);
    }
  }

  // ---------- the stored frames ----------

  /** Frame `i` stands `|results| - i` seconds before the current frame. */
  ghost predicate Contiguous(s: State) {
    if s.current.None? then s.results == []
    else forall i | 0 <= i < |s.results| :: s.results[i].time == s.current.value.time - |s.results| + i
  }

  lemma OpenFrameTimes(s: State, l: Line)
    requires Contiguous(s)
    requires s.current.Some? ==> s.current.value.time <= Sec(l)
    ensures Contiguous(OpenFrame(s, l))
  {
    var t := OpenFrame(s, l);
    if OpensFrame(s, l) {
      var n := |Flushed(s)|;
      var last := if s.current.Some? then s.current.value.time else s.last;
      var gap := Gap(s, last + 1, Sec(l));
      assert t.results == Flushed(s) + gap;
      forall i | 0 <= i < |t.results|
        ensures t.results[i].time == Sec(l) - |t.results| + i
      {
        if i < |s.results| {
          assert t.results[i] == s.results[i];
        } else if i < n {
          assert t.results[i] == s.current.value;
        } else {
          assert t.results[i] == gap[i - n] == Filler(s, last + 1 + (i - n));
        }
      }
    }
  }

  /** `t` has the same frames as `s` as far as their seconds go. */
  predicate SameTimes(s: State, t: State) {
    && ClockOf(t) == ClockOf(s)
    && |t.results| == |s.results|
    && forall i | 0 <= i < |s.results| :: t.results[i].time == s.results[i].time
  }

  lemma DeathTimes(s: State, l: Line)
    ensures SameTimes(s, HeroDeath(s, l))
  {}

  lemma IntervalTimes(s: State, l: Line)
    ensures SameTimes(s, HeroInterval(s, l))
  {}

  /** Handling a line leaves the second of every frame as it is. */
  lemma DispatchTimes(s: State, l: Line)
    ensures SameTimes(s, Dispatch(s, l))
  {
    match l.kind
    case Death => DeathTimes(s, l);
    case Interval => IntervalTimes(s, l);
    case _ =>
  }

  lemma StepContiguous(s: State, l: Line)
    requires Contiguous(s)
    requires !Skips(s, l) && s.current.Some? ==> s.current.value.time <= Sec(l)
    ensures Contiguous(Step(s, l))
  {
    var s1 := s.(last := Started(s, l));
    if !Skips(s, l) {
      OpenFrameTimes(s1, l);
      DispatchTimes(OpenFrame(s1, l), l);
    }
  }

  /** For an ordered log the stored frames are one per second, ending just before the current frame. */
  lemma {:induction false} OnePerSecond(id: int, log: seq<Line>)
    requires Ordered(log)
    ensures Contiguous(Run(id, log))
    decreases |log|
  {
    if log != [] {
      var n := |log| - 1;
      OrderedPrefix(log, n);
      OnePerSecond(id, log[..n]);
      RunTicks(id, log[..n]);
      if Kept(log, n) {
        CurrentNotAhead(id, log);
      }
      StepContiguous(Run(id, log[..n]), log[n]);
    }
  }

  /** The parser's current frame is never ahead of a kept line. */
  lemma CurrentNotAhead(id: int, log: seq<Line>)
    requires log != [] && Ordered(log) && Kept(log, |log| - 1)
    ensures var s := Run(id, log[..|log| - 1]); s.current.Some? ==> s.current.value.time <= Sec(log[|log| - 1])
  {
    var n := |log| - 1;
    var s := Run(id, log[..n]);
    RunTicks(id, log[..n]);
    if s.current.Some? {
      OrderedPrefix(log, n);
      LatestSecond(log[..n]);
      KeptNotBeforeCurrent(log, s.current.value.time);
    }
  }
}
