/** `ParseVisionWorker`: every line updates the game state, and the first line of each new second takes a snapshot.
    Also: the wards that are active after any log. */
module VisionTimeline {
  import opened ReplayLog
  import opened Vision
  import opened GameStates

  const UNSET := -9999

  datatype Run = Run(state: State, last: int, frames: seq<Snapshot>)

  /** Empty snapshots for the seconds from `from` up to, but not including, `to`. */
  function Gap(from: int, to: int): seq<Snapshot> {
    if from < to then seq(to - from, i => Snapshot(from + i, [])) else []
  }

  ghost function Observe(root: Root, r: Run, l: Line): Run {
    var s := Updated(r.state, l);
    var t := Sec(l);
    var filled := r.frames + if r.last != UNSET then Gap(r.last + 1, t) else [];
    if t > r.last then
      var s' := AllSpotted(s);
      Run(s', t, filled + [SnapshotOf(root, s', t)])
    else
      Run(s, r.last, filled)
  }

  ghost function Watch(root: Root, start: State, log: seq<Line>): Run {
    if log == [] then Run(start, UNSET, [])
    else Observe(root, Watch(root, start, log[..|log| - 1]), log[|log| - 1])
  }

  /** The worker's loop; `gs` is the state with the map loaded. */
  method ParseVision(root: Root, gs: GameState, log: seq<Line>) returns (frames: seq<Snapshot>)
    requires gs.Valid()
    modifies gs
    ensures gs.Valid()
    ensures gs.View() == Watch(root, old(gs.View()), log).state
    ensures frames == Watch(root, old(gs.View()), log).frames
  {
    ghost var start := gs.View();
    frames := [];
    var last := UNSET;
    for i := 0 to |log|
      invariant gs.Valid()
      invariant Run(gs.View(), last, frames) == Watch(root, start, log[..i])
    {
      last, frames := ObserveLine(root, gs, log[i], last, frames);
      assert log[..i + 1][..i] == log[..i];
    }
    assert log[..|log|] == log;
  }

  /** One round of the loop. */
  method ObserveLine(root: Root, gs: GameState, line: Line, lastTime: int, before: seq<Snapshot>)
    returns (last: int, frames: seq<Snapshot>)
    requires gs.Valid()
    modifies gs
    ensures gs.Valid()
    ensures Run(gs.View(), last, frames) == Observe(root, Run(old(gs.View()), lastTime, before), line)
  {
    last := lastTime;
    gs.Update(line);
    var now := Sec(line);
    frames := FillGap(last, now, before);
    if now > last {
      var snapshot := gs.CalculateVisibility(root, now);
      frames := frames + [snapshot];
      last := now;
    }
  }

  method FillGap(last: int, now: int, before: seq<Snapshot>) returns (frames: seq<Snapshot>)
    ensures frames == before + if last != UNSET then Gap(last + 1, now) else []
  {
    frames := before;
    if last != UNSET && now > last + 1 {
      for t := last + 1 to now
        invariant frames == before + Gap(last + 1, t)
      {
        frames := frames + [Snapshot(t, [])];
        assert Gap(last + 1, t + 1) == Gap(last + 1, t) + [Snapshot(t, [])];
      }
    }
  }

  // ---------- seconds ----------

  /** The latest second of any line. */
  function LatestSec(log: seq<Line>): int
    requires log != []
  {
    var (n, t) := (|log| - 1, Sec(log[|log| - 1]));
    if n == 0 || LatestSec(log[..n]) < t then t else LatestSec(log[..n])
  }

  /** The snapshots stand one per second, from second `first` to the latest second so far. */
  predicate PerSecond(r: Run, first: int) {
    if r.last == UNSET then r.frames == []
    else
      && r.last > UNSET && |r.frames| == r.last - first + 1 > 0
      && forall i | 0 <= i < |r.frames| :: r.frames[i].time == first + i
  }

  lemma SnapshotStep(root: Root, r: Run, l: Line, first: int)
    requires PerSecond(r, first) && Sec(l) > UNSET
    requires r.last == UNSET ==> Sec(l) == first
    ensures PerSecond(Observe(root, r, l), first)
    ensures Observe(root, r, l).last == if Sec(l) > r.last then Sec(l) else r.last
  {
    if r.last != UNSET {
      FilledPerSecond(r.frames, first, r.last, Sec(l));
    }
  }

  /** The frames up to second `last`, followed by the gap up to second `now`. */
  lemma FilledPerSecond(frames: seq<Snapshot>, first: int, last: int, now: int)
    requires |frames| == last - first + 1 > 0 && forall i | 0 <= i < |frames| :: frames[i].time == first + i
    ensures (var filled := frames + Gap(last + 1, now);
             && |filled| == (if now > last + 1 then now - first else |frames|)
             && forall i | 0 <= i < |filled| :: filled[i].time == first + i)
  {}

  lemma {:induction false} SnapshotPerSecond(root: Root, start: State, log: seq<Line>)
    requires forall j | 0 <= j < |log| :: Sec(log[j]) > UNSET
    ensures log == [] ==> Watch(root, start, log) == Run(start, UNSET, [])
    ensures log != [] ==>
              Watch(root, start, log).last == LatestSec(log) && PerSecond(Watch(root, start, log), Sec(log[0]))
    decreases |log|
  {
    if log != [] {
      var n := |log| - 1;
      SnapshotPerSecond(root, start, log[..n]);
      SnapshotStep(root, Watch(root, start, log[..n]), log[n], Sec(log[0]));
    }
  }

  // ---------- what every reachable state keeps ----------

  predicate IsWardLine(l: Line, handle: int) {
    (l.kind.Observer? || l.kind.Sentry?) && l.handle == handle
  }

  /** The ward the log leaves active under a handle: the one its latest ward line placed, none if that line removed
      it. */
  function LatestWard(log: seq<Line>, handle: int): (latest: seq<Ward>)
    ensures |latest| <= 1
  {
    if log == [] then []
    else
      var (n, l) := (|log| - 1, log[|log| - 1]);
      if IsWardLine(l, handle) then
        if l.entityLeft == 1 then [] else [WardOf(l)]
      else LatestWard(log[..n], handle)
  }

  predicate DistinctHandles(wards: seq<Ward>) {
    forall i, j | 0 <= i < j < |wards| :: wards[i].handle != wards[j].handle
  }

  /** All wards of the slice with the handle. */
  function WardsUnder(wards: seq<Ward>, handle: int): seq<Ward> {
    if wards == [] then []
    else (if wards[0].handle == handle then [wards[0]] else []) + WardsUnder(wards[1..], handle)
  }

  lemma {:induction false} WardsUnderAppend(wards: seq<Ward>, w: Ward, handle: int)
    ensures WardsUnder(wards + [w], handle) == WardsUnder(wards, handle) + if w.handle == handle then [w] else []
  {
    if wards != [] {
      WardsUnderAppend(wards[1..], w, handle);
      assert (wards + [w])[1..] == wards[1..] + [w];
    } else {
      assert WardsUnder([w], handle) == if w.handle == handle then [w] else [];
    }
  }

  /** Removing a handle takes the first ward under it and leaves every other handle alone. */
  lemma {:induction false} WithoutWardRemoves(wards: seq<Ward>, removed: int, handle: int)
    ensures WardsUnder(WithoutWard(wards, removed), handle)
         == if handle == removed && WardsUnder(wards, handle) != [] then WardsUnder(wards, handle)[1..]
            else WardsUnder(wards, handle)
  {
    if wards != [] && wards[0].handle != removed {
      WithoutWardRemoves(wards[1..], removed, handle);
    }
  }

  lemma {:induction false} OneEachMeansDistinct(wards: seq<Ward>)
    requires forall handle :: |WardsUnder(wards, handle)| <= 1
    ensures DistinctHandles(wards)
  {
    if wards != [] {
      forall handle
        ensures |WardsUnder(wards[1..], handle)| <= 1
      {
        assert |WardsUnder(wards, handle)| <= 1;
      }
      OneEachMeansDistinct(wards[1..]);
      forall j | 1 <= j < |wards|
        ensures wards[0].handle != wards[j].handle
      {
        PresentUnderHandle(wards[1..], j - 1);
        assert |WardsUnder(wards, wards[0].handle)| <= 1;
      }
    }
  }

  lemma {:induction false} PresentUnderHandle(wards: seq<Ward>, j: nat)
    requires j < |wards|
    ensures WardsUnder(wards, wards[j].handle) != []
  {
    if j > 0 {
      PresentUnderHandle(wards[1..], j - 1);
    }
  }

  /** The ward slice after one line. */
  function WardsAfter(wards: seq<Ward>, l: Line): seq<Ward> {
    if l.kind.Observer? || l.kind.Sentry? then
      WithoutWard(wards, l.handle) + if l.entityLeft == 1 then [] else [WardOf(l)]
    else wards
  }

  lemma UpdateKeeps(s: State, l: Line)
    ensures var t := Updated(s, l);
            t.wards == WardsAfter(s.wards, l) && t.trees == s.trees && t.towers == s.towers && t.myTeam == s.myTeam
  {}

  /** What one round of the loop does to the wards, the map and the names. */
  lemma ObserveKeeps(root: Root, r: Run, l: Line)
    ensures var (s, t) := (r.state, Observe(root, r, l).state);
            && t.wards == WardsAfter(s.wards, l)
            && t.trees == s.trees && t.towers == s.towers && t.myTeam == s.myTeam
            && (Named(s) ==> Named(t))
  {
    UpdateKeeps(r.state, l);
    if Named(r.state) {
      UpdateKeepsNames(r.state, l);
      SpottingKeepsNames(Updated(r.state, l));
    }
  }

  /** If at most one ward stands under a handle, a ward line of that handle replaces or removes it,
      and no other line touches it. */
  lemma WardLineUnder(wards: seq<Ward>, l: Line, handle: int)
    requires |WardsUnder(wards, handle)| <= 1
    ensures WardsUnder(WardsAfter(wards, l), handle)
         == if !IsWardLine(l, handle) then WardsUnder(wards, handle)
            else if l.entityLeft == 1 then [] else [WardOf(l)]
  {
    var rest := WithoutWard(wards, l.handle);
    WithoutWardRemoves(wards, l.handle, handle);
    WardsUnderAppend(rest, WardOf(l), handle);
    assert rest + [] == rest;
  }

  /** For every log: the ward slice is a finite map from handle to the latest ward placed under it. */
  lemma {:induction false} WardsAreLatest(root: Root, start: State, log: seq<Line>, handle: int)
    requires start.wards == []
    ensures WardsUnder(Watch(root, start, log).state.wards, handle) == LatestWard(log, handle)
    decreases |log|
  {
    if log != [] {
      var n := |log| - 1;
      var before := Watch(root, start, log[..n]);
      WardsAreLatest(root, start, log[..n], handle);
      ObserveKeeps(root, before, log[n]);
      WardLineUnder(before.state.wards, log[n], handle);
    }
  }

  /** In every reachable state the active ward handles are pairwise distinct. */
  lemma HandlesDistinct(root: Root, start: State, log: seq<Line>)
    requires start.wards == []
    ensures DistinctHandles(Watch(root, start, log).state.wards)
  {
    var wards := Watch(root, start, log).state.wards;
    forall handle
      ensures |WardsUnder(wards, handle)| <= 1
    {
      WardsAreLatest(root, start, log, handle);
    }
    OneEachMeansDistinct(wards);
  }

  /** In every reachable state every hero is filed under its name, and the loaded map is as it was. */
  lemma {:induction false} ReachableStatesKeep(root: Root, start: State, log: seq<Line>)
    requires Named(start)
    ensures var s := Watch(root, start, log).state;
            Named(s) && s.trees == start.trees && s.towers == start.towers && s.myTeam == start.myTeam
    decreases |log|
  {
    if log != [] {
      var n := |log| - 1;
      ReachableStatesKeep(root, start, log[..n]);
      ObserveKeeps(root, Watch(root, start, log[..n]), log[n]);
    }
  }

  // ---------- the order of a map range ----------

  /** Check the heroes one after the other, each against the state its predecessors left. */
  ghost function SpotInOrder(s: State, order: seq<string>): State
    requires Known(s, order)
    decreases |order|
  {
    if order == [] then s
    else SpotInOrder(s.(heroes := s.heroes[order[0] := NextHero(s, s.heroes[order[0]])]), order[1..])
  }

  /** `t` differs from `s` in enemies only, and not in their teams. */
  predicate EnemiesOnly(s: State, t: State) {
    && t == s.(heroes := t.heroes) && t.heroes.Keys == s.heroes.Keys
    && forall n | n in s.heroes ::
         t.heroes[n].team == s.heroes[n].team && (s.heroes[n].team == s.myTeam ==> t.heroes[n] == s.heroes[n])
  }

  /** What is seen of an enemy does not depend on what has been recorded about other enemies. */
  lemma EnemiesDoNotMatter(s: State, t: State, h: Hero)
    requires EnemiesOnly(s, t)
    ensures NextHero(t, h) == NextHero(s, h)
  {
    assert VisionSources(t) == VisionSources(s) by {
      assert forall n :: n in s.heroes && s.heroes[n].team == s.myTeam && s.heroes[n].alive <==>
                           n in t.heroes && t.heroes[n].team == t.myTeam && t.heroes[n].alive;
    }
    assert WardPlaces(t, true) == WardPlaces(s, true) && WardPlaces(t, false) == WardPlaces(s, false);
    assert TowerPlaces(t) == TowerPlaces(s);
  }

  lemma {:induction false} SpotInOrderFrom(s: State, t: State, order: seq<string>)
    requires EnemiesOnly(s, t) && Known(s, order)
    requires forall i, j | 0 <= i < j < |order| :: order[i] != order[j]
    requires forall n | n in s.heroes :: t.heroes[n] == if n in order then s.heroes[n] else NextHero(s, s.heroes[n])
    ensures SpotInOrder(t, order) == AllSpotted(s)
    decreases |order|
  {
    if order == [] {
      assert t.heroes == AllSpotted(s).heroes;
    } else {
      var n := order[0];
      EnemiesDoNotMatter(s, t, s.heroes[n]);
      var u := t.(heroes := t.heroes[n := NextHero(s, s.heroes[n])]);
      assert forall m :: m in order <==> m == n || m in order[1..];
      SpotInOrderFrom(s, u, order[1..]);
    }
  }

  /** Every order of the heroes leads to the same state. */
  lemma {:induction false} AnyOrderSpotsTheSame(s: State, order: seq<string>)
    requires Known(s, order)
    requires forall i, j | 0 <= i < j < |order| :: order[i] != order[j]
    requires forall n | n in s.heroes :: n in order
    ensures SpotInOrder(s, order) == AllSpotted(s)
  {
    SpotInOrderFrom(s, s, order);
  }
}
