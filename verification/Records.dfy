/** The hero records of every frame, told from the log alone: one for each kept interval line of the frame's second that
    is about a hero, in the order of the lines. */
module Records {
  import opened Options
  import opened ReplayLog
  import opened GeneralTimeline
  import opened LogOrder
  import opened Roster
  import opened Inventory
  import opened Scores

  /** The last line is a kept interval line about a hero. */
  predicate EndsInRecord(log: seq<Line>) {
    && log != []
    && var (n, l) := (|log| - 1, log[|log| - 1]);
       Kept(log, n) && l.kind.Interval? && NameOf(log[..n], l) != ""
  }

  /** The record the last line calls for, with the items the log before it leaves the hero. */
  function LastRecord(log: seq<Line>): Record
    requires log != []
  {
    var (n, l) := (|log| - 1, log[|log| - 1]);
    Record(NameOf(log[..n], l), l.slot < 5, ItemsOf(log[..n], NameOf(log[..n], l)), NO_FLAGS)
  }

  /** The records of second `t`, without labels. */
  function RecordsAt(log: seq<Line>, t: int): seq<Record> {
    if log == [] then []
    else
      RecordsAt(log[..|log| - 1], t)
      + if EndsInRecord(log) && Sec(log[|log| - 1]) == t then [LastRecord(log)] else []
  }

  /** The frame has exactly the records of its second, up to the labels. */
  predicate Recorded(log: seq<Line>, f: Frame) {
    && |f.heroes| == |RecordsAt(log, f.time)|
    && forall r | 0 <= r < |f.heroes| :: f.heroes[r].(flags := NO_FLAGS) == RecordsAt(log, f.time)[r]
  }

  predicate AllRecorded(log: seq<Line>, frames: seq<Frame>) {
    forall i | 0 <= i < |frames| :: Recorded(log, frames[i])
  }

  /** No kept typed line stands at second `t` or later. */
  predicate QuietFrom(log: seq<Line>, t: int) {
    QuietAfter(log, t - 1)
  }

  lemma {:induction false} NoRecordsAhead(log: seq<Line>, t: int)
    requires QuietFrom(log, t)
    ensures RecordsAt(log, t) == []
  {
    if log != [] {
      var n := |log| - 1;
      AllKeptInPrefix(log, n);
      assert QuietFrom(log[..n], t);
      NoRecordsAhead(log[..n], t);
    }
  }

  lemma EmptyRecorded(log: seq<Line>, f: Frame)
    requires QuietFrom(log, f.time) && f.heroes == []
    ensures Recorded(log, f)
  {
    NoRecordsAhead(log, f.time);
  }

  lemma FillersRecorded(log: seq<Line>, s: State, from: int, to: int)
    requires forall t | from <= t :: QuietFrom(log, t)
    ensures AllRecorded(log, Gap(s, from, to))
  {
    var gap := Gap(s, from, to);
    forall k | 0 <= k < |gap|
      ensures Recorded(log, gap[k])
    {
      assert gap[k] == Filler(s, from + k);
      EmptyRecorded(log, gap[k]);
    }
  }

  lemma ConcatRecorded(log: seq<Line>, a: seq<Frame>, b: seq<Frame>, c: Frame)
    requires AllRecorded(log, a) && AllRecorded(log, b) && Recorded(log, c)
    ensures AllRecorded(log, a + b + [c])
  {}

  /** Frames opened now are empty, and nothing was recorded for their seconds yet. */
  lemma OpenFrameRecorded(log: seq<Line>, s: State, l: Line)
    requires AllRecorded(log, Flushed(s))
    requires forall t | (if s.current.Some? then s.current.value.time < t else true) :: QuietFrom(log, t)
    requires s.current.Some? ==> s.current.value.time <= Sec(l)
    ensures AllRecorded(log, Flushed(OpenFrame(s, l)))
  {
    if OpensFrame(s, l) {
      var t := OpenFrame(s, l);
      var last := if s.current.Some? then s.current.value.time else s.last;
      FillersRecorded(log, s, last + 1, Sec(l));
      EmptyRecorded(log, t.current.value);
      ConcatRecorded(log, Flushed(s), Gap(s, last + 1, Sec(l)), t.current.value);
      assert Flushed(t) == Flushed(s) + Gap(s, last + 1, Sec(l)) + [t.current.value];
    }
  }

  lemma SameRecordsRecorded(log: seq<Line>, f: seq<Frame>, g: seq<Frame>)
    requires log != [] && !EndsInRecord(log) && AllRecorded(log[..|log| - 1], f) && SameRecords(f, g)
    ensures AllRecorded(log, g)
  {
    forall i | 0 <= i < |g|
      ensures Recorded(log, g[i])
    {
      assert Recorded(log[..|log| - 1], f[i]);
    }
  }

  lemma AppendedRecorded(log: seq<Line>, s: State, t: State)
    requires log != [] && EndsInRecord(log) && AllRecorded(log[..|log| - 1], Flushed(s)) && Contiguous(s)
    requires s.current.Some? && s.current.value.time == Sec(log[|log| - 1]) && t.results == s.results
    requires t.current == Some(s.current.value.(heroes := s.current.value.heroes + [LastRecord(log)]))
    ensures AllRecorded(log, Flushed(t))
  {
    forall i | 0 <= i < |Flushed(t)|
      ensures Recorded(log, Flushed(t)[i])
    {
      assert Recorded(log[..|log| - 1], Flushed(s)[i]);
    }
  }

  /** The parser names the hero and its items as the log says; opening a frame changes neither slots nor items. */
  lemma RecordFromLog(id: int, log: seq<Line>, s2: State)
    requires log != []
    requires var (s, l) := (Run(id, log[..|log| - 1]), log[|log| - 1]);
             s2 == OpenFrame(s.(last := Started(s, l)), l)
    ensures var (n, l) := (|log| - 1, log[|log| - 1]);
            && HeroOf(s2, l) == NameOf(log[..n], l)
            && Held(s2, HeroOf(s2, l)) == ItemsOf(log[..n], NameOf(log[..n], l))
  {
    var (n, l) := (|log| - 1, log[|log| - 1]);
    assert s2.slotHero == Run(id, log[..n]).slotHero && s2.inventory == Run(id, log[..n]).inventory;
    CreditFromLog(id, log[..n], l);
    HeldFromLog(id, log[..n], NameOf(log[..n], l));
  }

  lemma IntervalRecorded(log: seq<Line>, s: State)
    requires log != [] && Kept(log, |log| - 1) && log[|log| - 1].kind.Interval?
    requires var (n, l) := (|log| - 1, log[|log| - 1]);
             HeroOf(s, l) == NameOf(log[..n], l) && Held(s, HeroOf(s, l)) == ItemsOf(log[..n], NameOf(log[..n], l))
    requires Contiguous(s) && AllRecorded(log[..|log| - 1], Flushed(s))
    requires s.current.Some? && s.current.value.time == Sec(log[|log| - 1])
    ensures AllRecorded(log, Flushed(HeroInterval(s, log[|log| - 1])))
  {
    var l := log[|log| - 1];
    if HeroOf(s, l) == "" {
      assert Flushed(HeroInterval(s, l)) == Flushed(s);
      SameRecordsRecorded(log, Flushed(s), Flushed(s));
    } else {
      AppendedRecorded(log, s, HeroInterval(s, l));
    }
  }

  /** Only an interval line changes the records. */
  predicate RecordsMove(s: State, l: Line, t: State) {
    if l.kind.Interval? then t == HeroInterval(s, l) else SameRecords(Flushed(s), Flushed(t))
  }

  lemma DispatchMoves(s: State, l: Line)
    ensures RecordsMove(s, l, Dispatch(s, l))
  {
    if !l.kind.Interval? {
      DispatchKeepsRecords(s, l);
    }
  }

  lemma MovedRecorded(log: seq<Line>, s: State, t: State)
    requires log != [] && Kept(log, |log| - 1)
    requires var (n, l) := (|log| - 1, log[|log| - 1]);
             HeroOf(s, l) == NameOf(log[..n], l) && Held(s, HeroOf(s, l)) == ItemsOf(log[..n], NameOf(log[..n], l))
    requires Contiguous(s) && AllRecorded(log[..|log| - 1], Flushed(s))
    requires Typed(log[|log| - 1]) ==> s.current.Some? && s.current.value.time == Sec(log[|log| - 1])
    requires RecordsMove(s, log[|log| - 1], t)
    ensures AllRecorded(log, Flushed(t))
  {
    if log[|log| - 1].kind.Interval? {
      IntervalRecorded(log, s);
    } else {
      SameRecordsRecorded(log, Flushed(s), Flushed(t));
    }
  }

  lemma KeptRecorded(id: int, log: seq<Line>, s1: State)
    requires log != [] && Ordered(log) && Kept(log, |log| - 1)
    requires var (s, l) := (Run(id, log[..|log| - 1]), log[|log| - 1]);
             && s1 == s.(last := Started(s, l))
             && (s.current.Some? ==> s.current.value.time <= Sec(l))
    requires Contiguous(s1) && AllRecorded(log[..|log| - 1], Flushed(s1))
    ensures AllRecorded(log, Flushed(Dispatch(OpenFrame(s1, log[|log| - 1]), log[|log| - 1])))
  {
    var n := |log| - 1;
    OrderedPrefix(log, n);
    forall t | (if s1.current.Some? then s1.current.value.time < t else true)
      ensures QuietFrom(log[..n], t)
    {
      LatestMeansQuiet(id, log[..n], t - 1);
    }
    OpenFrameRecorded(log[..n], s1, log[n]);
    OpenFrameTimes(s1, log[n]);
    RecordFromLog(id, log, OpenFrame(s1, log[n]));
    DispatchMoves(OpenFrame(s1, log[n]), log[n]);
    MovedRecorded(log, OpenFrame(s1, log[n]), Dispatch(OpenFrame(s1, log[n]), log[n]));
  }

  /** In an ordered log each frame has exactly the records of its second: none is missing, added or out of order. */
  lemma {:induction false} RecordsExactly(id: int, log: seq<Line>)
    requires Ordered(log)
    ensures AllRecorded(log, Timeline(id, log))
    decreases |log|
  {
    if log != [] {
      var n := |log| - 1;
      var s, l := Run(id, log[..n]), log[n];
      OrderedPrefix(log, n);
      RecordsExactly(id, log[..n]);
      RunTicks(id, log[..n]);
      var s1 := s.(last := Started(s, l));
      assert Flushed(s1) == Flushed(s);
      if Kept(log, n) {
        OnePerSecond(id, log[..n]);
        CurrentNotAhead(id, log);
        KeptRecorded(id, log, s1);
      } else {
        SameRecordsRecorded(log, Flushed(s), Flushed(s1));
      }
    }
  }

  // ---------- no second is lost ----------

  predicate HasFrame(frames: seq<Frame>, t: int) {
    exists i | 0 <= i < |frames| :: frames[i].time == t
  }

  lemma StepKeepsFrames(s: State, l: Line, t: int)
    requires HasFrame(Flushed(s), t) || (!Skips(s, l) && Typed(l) && Sec(l) == t)
    ensures HasFrame(Flushed(Step(s, l)), t)
  {
    var s1 := s.(last := Started(s, l));
    assert Flushed(s1) == Flushed(s);
    if !Skips(s, l) {
      var s2 := OpenFrame(s1, l);
      OpenFrameHasFrame(s1, l, t);
      DispatchTimes(s2, l);
      var i :| 0 <= i < |Flushed(s2)| && Flushed(s2)[i].time == t;
      assert Flushed(Dispatch(s2, l))[i].time == t;
    }
  }

  lemma OpenFrameHasFrame(s: State, l: Line, t: int)
    requires HasFrame(Flushed(s), t) || (Typed(l) && Sec(l) == t)
    ensures HasFrame(Flushed(OpenFrame(s, l)), t)
  {
    var s2 := OpenFrame(s, l);
    if i :| 0 <= i < |Flushed(s)| && Flushed(s)[i].time == t {
      assert OpensFrame(s, l) ==> Flushed(s2)[i] == Flushed(s)[i];
      assert Flushed(s2)[i].time == t;
    } else {
      assert s2.current.Some? && Flushed(s2)[|s2.results|] == s2.current.value;
      assert s2.current.value.time == t;
    }
  }

  lemma NextHasFrame(id: int, log: seq<Line>, t: int)
    requires log != [] && (HasFrame(Timeline(id, log[..|log| - 1]), t) || Opens(log, |log| - 1, t))
    ensures HasFrame(Timeline(id, log), t)
  {
    KeptMeansNotSkipped(id, log, |log| - 1);
    StepKeepsFrames(Run(id, log[..|log| - 1]), log[|log| - 1], t);
  }

  /** For every log: the second of each kept typed line has a frame, so no record is lost. */
  lemma {:induction false} EverySecondHasFrame(id: int, log: seq<Line>, j: nat, t: int)
    requires Opens(log, j, t)
    ensures HasFrame(Timeline(id, log), t)
    decreases |log|
  {
    var n := |log| - 1;
    if j < n {
      KeptInPrefix(log, n, j);
      EverySecondHasFrame(id, log[..n], j, t);
    }
    NextHasFrame(id, log, t);
  }
}
