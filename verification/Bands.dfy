/** The sampler read over the labeller: the band of a tick is the smallest horizon that covers the distance to the
    hero's next death, so what the saved rows say about the future is true of the log. */
module Bands {
  import opened ReplayLog
  import opened GeneralTimeline
  import opened LogOrder
  import opened DeathLabels
  import opened Sampler

  const HORIZONS: seq<nat> := [1, 5, 10, 15, 20]

  /** The next death of `hero` after second `t` is reported `k` seconds later. */
  ghost predicate NextDeath(log: seq<Line>, hero: string, t: int, k: int) {
    k >= 1 && DiesAt(log, hero, t + k) && forall d | t < d < t + k :: !DiesAt(log, hero, d)
  }

  /** Horizon `b` covers the distance `k` and no smaller horizon does. */
  predicate SmallestCovering(b: nat, k: int) {
    b < BANDS && k <= HORIZONS[b] && forall c: nat | c < b :: HORIZONS[c] < k
  }

  /** What the log says should become of a hero's tick. */
  ghost predicate RightMark(log: seq<Line>, f: Frame, hero: string, mark: Mark) {
    match mark
    case Absent => f.time < 0 || forall r | 0 <= r < |f.heroes| :: f.heroes[r].heroName != hero
    case Safe => Present(f, hero) && !DiesWithin(log, hero, f.time, REACH)
    case Dying(b) => Present(f, hero) && exists k :: NextDeath(log, hero, f.time, k) && SmallestCovering(b, k)
  }

  predicate Present(f: Frame, hero: string) {
    f.time >= 0 && exists r | 0 <= r < |f.heroes| :: f.heroes[r].heroName == hero
  }

  /** A death within `horizon` seconds is a next death within `horizon` seconds. */
  lemma {:induction false} NextDeathWithin(log: seq<Line>, hero: string, t: int, horizon: nat)
    ensures DiesWithin(log, hero, t, horizon) <==> exists k :: NextDeath(log, hero, t, k) && k <= horizon
  {
    if horizon > 0 {
      NextDeathWithin(log, hero, t, horizon - 1);
      if DiesWithin(log, hero, t, horizon) && !DiesWithin(log, hero, t, horizon - 1) {
        var d :| t + 1 <= d <= t + horizon && DiesAt(log, hero, d);
        assert d == t + horizon;
        assert NextDeath(log, hero, t, horizon);
      }
      if k :| NextDeath(log, hero, t, k) && k <= horizon {
        assert DiesAt(log, hero, t + k);
      }
    }
  }

  lemma NextDeathUnique(log: seq<Line>, hero: string, t: int, j: int, k: int)
    requires NextDeath(log, hero, t, j) && NextDeath(log, hero, t, k)
    ensures j == k
  {}

  /** The flags of a labelled record, read as the distance to the next death. */
  lemma HorizonsCover(log: seq<Line>, hero: string, t: int, flags: Flags)
    requires flags == LookAhead(log, hero, t)
    ensures match MarkOfFlags(flags)
            case Absent => false
            case Safe => !DiesWithin(log, hero, t, REACH)
            case Dying(b) => exists k :: NextDeath(log, hero, t, k) && SmallestCovering(b, k)
  {
    NextDeathWithin(log, hero, t, 1);
    NextDeathWithin(log, hero, t, 5);
    NextDeathWithin(log, hero, t, 10);
    NextDeathWithin(log, hero, t, 15);
    NextDeathWithin(log, hero, t, 20);
    if k :| NextDeath(log, hero, t, k) && k <= 20 {
      forall j | NextDeath(log, hero, t, j)
        ensures j == k
      {
        NextDeathUnique(log, hero, t, j, k);
      }
      assert SmallestCovering(MarkOfFlags(flags).band, k);
    }
  }

  /** The mark the sampler reads off a frame is the one the log calls for, and only that one is. */
  lemma BandIsNextDeath(id: int, log: seq<Line>, i: nat, hero: string, mark: Mark)
    requires Ordered(log) && i < |Timeline(id, log)|
    ensures RightMark(log, Timeline(id, log)[i], hero, mark) <==> mark == MarkOf(Timeline(id, log)[i], hero)
  {
    var f := Timeline(id, log)[i];
    LabelsAreLookAhead(id, log);
    assert FrameLabelled(log, f);
    var r := FirstRecord(f.heroes, hero);
    if f.time >= 0 && r < |f.heroes| {
      assert f.heroes[r].flags == Foreseen(log, f, r);
      HorizonsCover(log, hero, f.time, f.heroes[r].flags);
    }
    RightMarkUnique(log, f, hero, mark, MarkOf(f, hero));
  }

  lemma RightMarkUnique(log: seq<Line>, f: Frame, hero: string, m: Mark, n: Mark)
    requires RightMark(log, f, hero, n)
    ensures RightMark(log, f, hero, m) <==> m == n
  {}

  /** Every pair of tick and hero saved from a log in order is of a nonnegative second, the hero has a record there, and
      the tick is either followed by 20 seconds without a death of the hero or in the band of the hero's next death. */
  lemma {:induction false} SavedPairsAreTrue(id: int, log: seq<Line>, visionDire: nat, visionRadiant: nat,
                                             saved: set<Candidate>, c: Candidate)
    requires Ordered(log) && c in saved
    requires (var frames := Covered(Timeline(id, log), visionDire, visionRadiant);
              WellSelected(frames, HeroNames(frames), saved))
    ensures c.tick < |Timeline(id, log)| && c.tick < visionDire && c.tick < visionRadiant
    ensures Present(Timeline(id, log)[c.tick], c.hero)
    ensures (var f := Timeline(id, log)[c.tick];
             match MarkOf(f, c.hero)
             case Absent => false
             case Safe => !DiesWithin(log, c.hero, f.time, REACH)
             case Dying(b) => exists k :: NextDeath(log, c.hero, f.time, k) && SmallestCovering(b, k))
  {
    var frames := Covered(Timeline(id, log), visionDire, visionRadiant);
    assert Eligible(frames, HeroNames(frames), c);
    BandIsNextDeath(id, log, c.tick, c.hero, MarkOf(frames[c.tick], c.hero));
  }
}
