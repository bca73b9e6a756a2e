/** `saveMatch` joins the general and the vision frames of a match by index.  The two timelines come from different
    loops over the same log; this is when the index join is a join by time. */
module TimelineJoin {
  import opened Options
  import opened ReplayLog
  import G = GeneralTimeline
  import opened LogOrder
  import V = VisionTimeline
  import Vision

  /** A kept typed line stands at second `t`. */
  ghost predicate OpensAt(log: seq<Line>, t: int) {
    exists j: nat :: Opens(log, j, t)
  }

  predicate SecondsInRange(log: seq<Line>) {
    forall j | 0 <= j < |log| :: Sec(log[j]) > -9999
  }

  // ---------- where the general timeline starts ----------

  lemma FirstLineKept(log: seq<Line>)
    requires log != []
    ensures Kept(log, 0)
  {}

  lemma OpensAtExtended(log: seq<Line>, t: int)
    requires log != []
    ensures OpensAt(log, t) <==> OpensAt(log[..|log| - 1], t) || Opens(log, |log| - 1, t)
  {
    var n := |log| - 1;
    if j: nat :| Opens(log, j, t) && j < n {
      KeptInPrefix(log, n, j);
      assert Opens(log[..n], j, t);
    }
    if j: nat :| Opens(log[..n], j, t) {
      KeptInPrefix(log, n, j);
      assert Opens(log, j, t);
    }
  }

  /** The first frame of the state's frames. */
  function StartOf(s: G.State): int
    requires s.current.Some?
  {
    G.Flushed(s)[0].time
  }

  /** Later frames are appended, so the start stays. */
  lemma StartStays(s: G.State, l: Line)
    requires s.current.Some?
    ensures var t := G.Dispatch(G.OpenFrame(s, l), l); t.current.Some? && StartOf(t) == StartOf(s)
  {
    var s1 := G.OpenFrame(s, l);
    assert G.Flushed(s1)[0].time == G.Flushed(s)[0].time;
    DispatchTimes(s1, l);
  }

  /** The first typed line opens the timeline: fillers from the second after the log's first line, or its own second. */
  lemma StartSet(s: G.State, l: Line)
    requires s.current.None? && s.results == [] && Typed(l) && s.last <= Sec(l)
    ensures var t := G.Dispatch(G.OpenFrame(s, l), l);
            t.current.Some? && StartOf(t) == if Sec(l) == s.last then s.last else s.last + 1
  {
    var s1 := G.OpenFrame(s, l);
    DispatchTimes(s1, l);
    var gap := G.Gap(s, s.last + 1, Sec(l));
    assert s1.results == gap;
    if gap != [] {
      assert gap[0] == G.Filler(s, s.last + 1);
    }
    assert G.Flushed(s1)[0].time == if gap != [] then gap[0].time else Sec(l);
  }

  /** Before the first typed line the parser remembers the second of the very first line. */
  lemma {:induction false} UntypedHead(log: seq<Line>)
    requires log != [] && Ordered(log) && SecondsInRange(log) && Ticks(log).frame.None?
    ensures Ticks(log).last == Sec(log[0])
    decreases |log|
  {
    var n := |log| - 1;
    if n > 0 {
      OrderedPrefix(log, n);
      UntypedHead(log[..n]);
    } else {
      assert log[..0] == [];
    }
  }

  /** The general timeline starts at the first line's second if a typed line stands there, and one second later
      otherwise. */
  lemma {:induction false} GeneralStart(id: int, log: seq<Line>)
    requires log != [] && Ordered(log) && SecondsInRange(log) && G.Run(id, log).current.Some?
    ensures StartOf(G.Run(id, log)) == if OpensAt(log, Sec(log[0])) then Sec(log[0]) else Sec(log[0]) + 1
    decreases |log|
  {
    var n := |log| - 1;
    var (s, l, a) := (G.Run(id, log[..n]), log[n], Sec(log[0]));
    OrderedPrefix(log, n);
    RunTicks(id, log[..n]);
    OpensAtExtended(log, a);
    LatestSecond(log[..n]);
    FirstLineKept(log);
    var s1 := s.(last := G.Started(s, l));
    if s.current.Some? {
      assert n > 0;
      GeneralStart(id, log[..n]);
      if Kept(log, n) {
        StartStays(s1, l);
        CurrentNotAhead(id, log);
        if Opens(log, n, a) {
          StartsNotBeforeFirst(log[..n], s.current.value.time);
        }
      }
      assert StartOf(s1) == StartOf(s);
    } else {
      assert !OpensAt(log[..n], a);
      if n > 0 {
        UntypedHead(log[..n]);
      }
      OnePerSecond(id, log[..n]);
      assert Kept(log, n) && Typed(l);
      StartSet(s1, l);
    }
  }

  /** If the current frame is no later than the first line, it is at the first line's second. */
  lemma StartsNotBeforeFirst(log: seq<Line>, t: int)
    requires log != [] && Ordered(log) && AtLatestSecond(log, Some(t)) && t <= Sec(log[0])
    ensures OpensAt(log, Sec(log[0]))
  {}

  // ---------- both timelines ----------

  /** Equal length, and equal seconds at equal indices. */
  predicate SameSeconds(general: seq<G.Frame>, vision: seq<Vision.Snapshot>) {
    |general| == |vision| && forall i | 0 <= i < |general| :: general[i].time == vision[i].time
  }

  lemma {:induction false} LatestSecBounds(log: seq<Line>, j: nat)
    requires j < |log|
    ensures Sec(log[j]) <= V.LatestSec(log)
  {
    if j < |log| - 1 {
      LatestSecBounds(log[..|log| - 1], j);
    }
  }

  /** The general timeline ends at the latest second of any line exactly if a typed line stands there. */
  lemma GeneralEnd(id: int, log: seq<Line>)
    requires log != [] && Ordered(log)
    ensures var s := G.Run(id, log);
            OpensAt(log, V.LatestSec(log)) <==> s.current.Some? && s.current.value.time == V.LatestSec(log)
  {
    RunTicks(id, log);
    LatestSecond(log);
    var s := G.Run(id, log);
    if s.current.Some? {
      var j: nat :| Opens(log, j, s.current.value.time);
      LatestSecBounds(log, j);
      if OpensAt(log, V.LatestSec(log)) {
        var k: nat :| Opens(log, k, V.LatestSec(log));
      }
    }
  }

  /** For every log whose kept lines are in order and whose seconds lie above -9999: the general and the vision timeline
      agree, index by index, if and only if the log is empty or typed lines stand at its first line's second and at
      its latest second.  Then the index join is a join by time. */
  lemma {:induction false} TimelinesAgree(id: int, root: Vision.Root, start: Vision.State, log: seq<Line>)
    requires Ordered(log) && SecondsInRange(log)
    ensures SameSeconds(G.Timeline(id, log), V.Watch(root, start, log).frames) <==>
              log == [] || (OpensAt(log, Sec(log[0])) && OpensAt(log, V.LatestSec(log)))
  {
    V.SnapshotPerSecond(root, start, log);
    if log != [] {
      var (s, vision) := (G.Run(id, log), V.Watch(root, start, log).frames);
      GeneralEnd(id, log);
      assert |vision| > 0;
      if s.current.Some? {
        GeneralStart(id, log);
        GeneralSpan(id, log);
        SpansAgree(G.Timeline(id, log), vision, StartOf(s), s.current.value.time, Sec(log[0]), V.LatestSec(log));
      } else {
        OnePerSecond(id, log);
      }
    }
  }

  /** The general frames stand one per second from the first to the current one. */
  lemma GeneralSpan(id: int, log: seq<Line>)
    requires Ordered(log) && G.Run(id, log).current.Some?
    ensures (var (s, frames) := (G.Run(id, log), G.Timeline(id, log));
             && |frames| == s.current.value.time - StartOf(s) + 1 > 0
             && forall i | 0 <= i < |frames| :: frames[i].time == StartOf(s) + i)
  {
    OnePerSecond(id, log);
  }

  lemma SpansAgree(general: seq<G.Frame>, vision: seq<Vision.Snapshot>,
                   gFirst: int, gLast: int, vFirst: int, vLast: int)
    requires |general| == gLast - gFirst + 1 > 0 && forall i | 0 <= i < |general| :: general[i].time == gFirst + i
    requires |vision| == vLast - vFirst + 1 > 0 && forall i | 0 <= i < |vision| :: vision[i].time == vFirst + i
    ensures SameSeconds(general, vision) <==> gFirst == vFirst && gLast == vLast
  {
    assert general[0].time == gFirst && vision[0].time == vFirst;
  }

  /** At any index both have, the seconds are equal exactly if a typed line stands at the first line's second. */
  lemma {:induction false} JoinAt(id: int, root: Vision.Root, start: Vision.State, log: seq<Line>, i: nat)
    requires Ordered(log) && SecondsInRange(log)
    requires i < |G.Timeline(id, log)| && i < |V.Watch(root, start, log).frames|
    ensures log != []
    ensures V.Watch(root, start, log).frames[i].time == G.Timeline(id, log)[i].time <==> OpensAt(log, Sec(log[0]))
  {
    V.SnapshotPerSecond(root, start, log);
    OnePerSecond(id, log);
    if log != [] {
      GeneralStart(id, log);
      GeneralSpan(id, log);
    }
  }

  /** Equal seconds at the indices both have: `saveMatch` joins up to the shorter length. */
  predicate SameSecondsInCommon(general: seq<G.Frame>, vision: seq<Vision.Snapshot>) {
    forall i | 0 <= i < |general| && i < |vision| :: general[i].time == vision[i].time
  }

  /** Exactly when the join is a join by time: the general timeline is empty or a typed line stands at the first line's
      second. */
  lemma {:induction false} JoinIsByTime(id: int, root: Vision.Root, start: Vision.State, log: seq<Line>)
    requires Ordered(log) && SecondsInRange(log)
    ensures SameSecondsInCommon(G.Timeline(id, log), V.Watch(root, start, log).frames) <==>
              log == [] || (forall t :: !OpensAt(log, t)) || OpensAt(log, Sec(log[0]))
  {
    var (general, vision) := (G.Timeline(id, log), V.Watch(root, start, log).frames);
    V.SnapshotPerSecond(root, start, log);
    OnePerSecond(id, log);
    OpensOnce(id, log);
    if general != [] && vision != [] {
      JoinAt(id, root, start, log, 0);
      forall i | 0 <= i < |general| && i < |vision|
        ensures vision[i].time == general[i].time <==> OpensAt(log, Sec(log[0]))
      {
        JoinAt(id, root, start, log, i);
      }
    }
  }

  /** There is a current frame exactly if some typed line is kept. */
  lemma OpensOnce(id: int, log: seq<Line>)
    requires Ordered(log)
    ensures G.Run(id, log).current.None? <==> forall t :: !OpensAt(log, t)
  {
    RunTicks(id, log);
    LatestSecond(log);
    var s := G.Run(id, log);
    if s.current.Some? {
      assert OpensAt(log, s.current.value.time);
    }
  }

  /** They differ in length on every log that ends in an untyped line later than all the others. */
  lemma LaterUntypedTailDisagrees(id: int, root: Vision.Root, start: Vision.State, log: seq<Line>)
    requires Ordered(log) && SecondsInRange(log) && log != [] && !Typed(log[|log| - 1])
    requires forall j | 0 <= j < |log| - 1 :: Sec(log[j]) < Sec(log[|log| - 1])
    ensures !SameSeconds(G.Timeline(id, log), V.Watch(root, start, log).frames)
  {
    LatestSecBounds(log, |log| - 1);
    assert !OpensAt(log, V.LatestSec(log));
    TimelinesAgree(id, root, start, log);
  }

  /** Such a log: a typed line at second 0, then an untyped one at second 5. */
  function UntypedTail(): seq<Line> {
    [Line(Interval, 0.0, 0, false, "", "", "", "", 0, "", 0.0, 0.0, 0.0, 0, 0, 0),
     Line(Untyped, 5.0, 0, false, "", "", "", "", 0, "", 0.0, 0.0, 0.0, 0, 0, 0)]
  }

  /** The vision timeline of this log runs to second 5, the general one stops at second 0; up to there they join. */
  lemma UntypedTailDisagrees(id: int, root: Vision.Root, start: Vision.State)
    ensures Ordered(UntypedTail()) && SecondsInRange(UntypedTail())
    ensures !SameSeconds(G.Timeline(id, UntypedTail()), V.Watch(root, start, UntypedTail()).frames)
    ensures SameSecondsInCommon(G.Timeline(id, UntypedTail()), V.Watch(root, start, UntypedTail()).frames)
  {
    LaterUntypedTailDisagrees(id, root, start, UntypedTail());
    FirstLineKept(UntypedTail());
    assert Opens(UntypedTail(), 0, 0);
    JoinIsByTime(id, root, start, UntypedTail());
  }

  /** A log on which the join is off by one: an untyped line at second 0, then a typed one at second 5. */
  function UntypedStart(): seq<Line> {
    [Line(Untyped, 0.0, 0, false, "", "", "", "", 0, "", 0.0, 0.0, 0.0, 0, 0, 0),
     Line(Interval, 5.0, 0, false, "", "", "", "", 0, "", 0.0, 0.0, 0.0, 0, 0, 0)]
  }

  lemma UntypedStartMisjoins(id: int, root: Vision.Root, start: Vision.State)
    ensures Ordered(UntypedStart()) && SecondsInRange(UntypedStart())
    ensures !SameSecondsInCommon(G.Timeline(id, UntypedStart()), V.Watch(root, start, UntypedStart()).frames)
  {
    var log := UntypedStart();
    assert Opens(log, 1, 5);
    assert OpensAt(log, 5);
    assert !OpensAt(log, 0);
    JoinIsByTime(id, root, start, log);
  }

  /** In particular for logs of typed lines, and with both vision timelines of a match: no frame is cut off and every
      general frame meets the vision frames of its own second. */
  lemma {:induction false} TypedLogsJoinByTime(id: int, root: Vision.Root, radiant: Vision.State, dire: Vision.State,
                                               log: seq<Line>)
    requires Ordered(log) && SecondsInRange(log)
    requires forall j | 0 <= j < |log| :: Typed(log[j])
    ensures SameSeconds(G.Timeline(id, log), V.Watch(root, radiant, log).frames)
    ensures SameSeconds(G.Timeline(id, log), V.Watch(root, dire, log).frames)
  {
    if log != [] {
      FirstLineKept(log);
      assert Opens(log, 0, Sec(log[0]));
      LatestTypedLine(log);
    }
    TimelinesAgree(id, root, radiant, log);
    TimelinesAgree(id, root, dire, log);
  }

  /** A line at the latest second is never skipped: only negative seconds after a positive one are. */
  lemma LatestTypedLine(log: seq<Line>)
    requires log != [] && Ordered(log) && SecondsInRange(log)
    requires forall j | 0 <= j < |log| :: Typed(log[j])
    ensures OpensAt(log, V.LatestSec(log))
  {
    var m := LatestLine(log);
    if !Kept(log, m) {
      ClockFromLine(log[..m]);
      var k :| 0 <= k < m && Sec(log[..m][k]) == Ticks(log[..m]).last;
      LatestSecBounds(log, k);
    }
    assert Opens(log, m, V.LatestSec(log));
  }

  lemma {:induction false} LatestLine(log: seq<Line>) returns (m: nat)
    requires log != []
    ensures m < |log| && Sec(log[m]) == V.LatestSec(log)
  {
    var n := |log| - 1;
    if V.LatestSec(log) == Sec(log[n]) {
      m := n;
    } else {
      m := LatestLine(log[..n]);
    }
  }

  /** Once a line has been read, the parser's clock shows the second of some line. */
  lemma {:induction false} ClockFromLine(log: seq<Line>)
    requires SecondsInRange(log)
    ensures if log == [] then Ticks(log).last == G.UNSET
            else exists k | 0 <= k < |log| :: Sec(log[k]) == Ticks(log).last
    decreases |log|
  {
    if log != [] {
      var n := |log| - 1;
      ClockFromLine(log[..n]);
      if n > 0 && Ticks(log).last != Sec(log[n]) {
        var k :| 0 <= k < n && Sec(log[..n][k]) == Ticks(log[..n]).last;
        assert Sec(log[k]) == Ticks(log).last;
      }
    }
  }
}
