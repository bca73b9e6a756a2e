/** The insert loop of `saveMatch` behind the tick selection: every record of a saved hero becomes a row, joined by
    index with the snapshot of the hero's own team. */
module Rows {
  import opened Options
  import opened Names
  import opened Numbers
  import opened ReplayLog
  import opened GeneralTimeline
  import opened LogOrder
  import opened DeathLabels
  import opened Scores
  import opened Sampler
  import opened TimelineJoin
  import Snapshots

  /** What a row is made of: the general frame and the record, the snapshot of the record's team and, if that has one,
      the snapshot's data for the hero. */
  datatype Row = Row(tick: nat, index: nat, frame: Frame, record: Record, vision: Vision.Snapshot,
                     data: Option<Vision.UnitData>)

  /** The parsed timelines of a match. */
  datatype Match = Match(general: seq<Frame>, radiant: seq<Vision.Snapshot>, dire: seq<Vision.Snapshot>)

  function MaxTicks(m: Match): nat {
    Min(Min(|m.general|, |m.dire|), |m.radiant|)
  }

  lemma TicksExactly(m: Match, i: nat)
    ensures i < MaxTicks(m) <==> i < |m.general| && i < |m.radiant| && i < |m.dire|
  {}

  predicate Selected(saveMap: SaveMap, tick: nat, hero: string) {
    tick in saveMap && hero in saveMap[tick]
  }

  /** The first unit with the name. */
  function UnitNamed(units: seq<Vision.UnitData>, name: string): (data: Option<Vision.UnitData>)
    ensures data.None? ==> forall u | u in units :: u.name != name
    ensures data.Some? ==> data.value in units && data.value.name == name
  {
    if units == [] then None else if units[0].name == name then Some(units[0]) else UnitNamed(units[1..], name)
  }

  method FindUnit(units: seq<Vision.UnitData>, name: string) returns (data: Option<Vision.UnitData>)
    ensures data == UnitNamed(units, name)
  {
    for k := 0 to |units|
      invariant UnitNamed(units, name) == UnitNamed(units[k..], name)
    {
      if units[k].name == name {
        return Some(units[k]);
      }
    }
    data := None;
  }

  predicate HasRecord(m: Match, tick: nat, index: nat) {
    tick < MaxTicks(m) && index < |m.general[tick].heroes|
  }

  function RowAt(m: Match, tick: nat, index: nat): Row
    requires HasRecord(m, tick, index)
  {
    var record := m.general[tick].heroes[index];
    var vision := if record.isRadiant then m.radiant[tick] else m.dire[tick];
    Row(tick, index, m.general[tick], record, vision, UnitNamed(vision.units, NormalizeName(record.heroName)))
  }

  /** The record is one to insert. */
  predicate Wanted(m: Match, saveMap: SaveMap, tick: nat, index: nat) {
    HasRecord(m, tick, index) && Selected(saveMap, tick, m.general[tick].heroes[index].heroName)
  }

  /** `(tick, index)` comes before `(i, r)`. */
  predicate Earlier(tick: nat, index: nat, i: nat, r: nat) {
    tick < i || (tick == i && index < r)
  }

  /** Every row is that of a wanted record before `(i, r)`. */
  ghost predicate RowsWanted(m: Match, saveMap: SaveMap, rows: seq<Row>, i: nat, r: nat) {
    forall row | row in rows ::
      && Wanted(m, saveMap, row.tick, row.index) && Earlier(row.tick, row.index, i, r)
      && row == RowAt(m, row.tick, row.index)
  }

  /** Every wanted record before `(i, r)` has its row. */
  ghost predicate NoneMissing(m: Match, saveMap: SaveMap, rows: seq<Row>, i: nat, r: nat) {
    forall tick, index | Wanted(m, saveMap, tick, index) && Earlier(tick, index, i, r) :: RowAt(m, tick, index) in rows
  }

  /** The rows stand in order, so none is there twice. */
  predicate InOrder(rows: seq<Row>) {
    forall j, k | 0 <= j < k < |rows| :: Earlier(rows[j].tick, rows[j].index, rows[k].tick, rows[k].index)
  }

  ghost predicate InsertedUpTo(m: Match, saveMap: SaveMap, rows: seq<Row>, i: nat, r: nat) {
    RowsWanted(m, saveMap, rows, i, r) && NoneMissing(m, saveMap, rows, i, r) && InOrder(rows)
  }

  /** Exactly the rows of the wanted records, each once, in order. */
  ghost predicate Inserted(m: Match, saveMap: SaveMap, rows: seq<Row>) {
    InsertedUpTo(m, saveMap, rows, MaxTicks(m), 0)
  }

  lemma RowAdded(m: Match, saveMap: SaveMap, rows: seq<Row>, i: nat, r: nat)
    requires InsertedUpTo(m, saveMap, rows, i, r) && Wanted(m, saveMap, i, r)
    ensures InsertedUpTo(m, saveMap, rows + [RowAt(m, i, r)], i, r + 1)
  {
    var after := rows + [RowAt(m, i, r)];
    assert InOrder(after) by {
      assert forall j | 0 <= j < |rows| :: rows[j] in rows;
    }
    forall tick, index | Wanted(m, saveMap, tick, index) && Earlier(tick, index, i, r + 1)
      ensures RowAt(m, tick, index) in after
    {
      assert Earlier(tick, index, i, r) || (tick == i && index == r);
    }
  }

  lemma RecordPassed(m: Match, saveMap: SaveMap, rows: seq<Row>, i: nat, r: nat)
    requires InsertedUpTo(m, saveMap, rows, i, r) && !Wanted(m, saveMap, i, r)
    ensures InsertedUpTo(m, saveMap, rows, i, r + 1)
  {}

  lemma NextTick(m: Match, saveMap: SaveMap, rows: seq<Row>, i: nat)
    requires i < MaxTicks(m) && InsertedUpTo(m, saveMap, rows, i, |m.general[i].heroes|)
    ensures InsertedUpTo(m, saveMap, rows, i + 1, 0)
  {
    forall tick, index | Wanted(m, saveMap, tick, index) && Earlier(tick, index, i + 1, 0)
      ensures RowAt(m, tick, index) in rows
    {
      assert Earlier(tick, index, i, |m.general[i].heroes|);
    }
  }

  /** The insert loop. */
  method InsertRows(m: Match, saveMap: SaveMap) returns (rows: seq<Row>)
    ensures Inserted(m, saveMap, rows)
  {
    rows := [];
    for i := 0 to MaxTicks(m)
      invariant InsertedUpTo(m, saveMap, rows, i, 0)
    {
      for r := 0 to |m.general[i].heroes|
        invariant InsertedUpTo(m, saveMap, rows, i, r)
      {
        rows := InsertRecord(m, saveMap, rows, i, r);
      }
      NextTick(m, saveMap, rows, i);
    }
  }

  /** The loop body for one record. */
  method InsertRecord(m: Match, saveMap: SaveMap, before: seq<Row>, i: nat, r: nat) returns (rows: seq<Row>)
    requires HasRecord(m, i, r) && InsertedUpTo(m, saveMap, before, i, r)
    ensures InsertedUpTo(m, saveMap, rows, i, r + 1)
  {
    var hero := m.general[i].heroes[r];
    if i !in saveMap || hero.heroName !in saveMap[i] {
      RecordPassed(m, saveMap, before, i, r);
      return before;
    }
    var source := if !hero.isRadiant then m.dire[i] else m.radiant[i];
    var data := FindUnit(source.units, NormalizeName(hero.heroName));
    RowAdded(m, saveMap, before, i, r);
    rows := before + [Row(i, r, m.general[i], hero, source, data)];
  }

  /** `saveMatch`: select pairs of tick and hero, then insert their records. */
  method SaveMatch(m: Match) returns (saveMap: SaveMap, rows: seq<Row>)
    ensures (var frames := Covered(m.general, |m.dire|, |m.radiant|);
             WellSelected(frames, HeroNames(frames), Pairs(saveMap)))
    ensures Inserted(m, saveMap, rows)
  {
    saveMap := SelectRows(m.general, |m.dire|, |m.radiant|);
    rows := InsertRows(m, saveMap);
  }

  // ---------- what an inserted row says ----------

  /** The timelines the parsers make of one log. */
  ghost function MatchOf(id: int, root: Vision.Root, radiant: Vision.State, dire: Vision.State, log: seq<Line>): Match {
    Match(Timeline(id, log), V.Watch(root, radiant, log).frames, V.Watch(root, dire, log).frames)
  }

  /** A row comes from a saved pair, so its second is not negative. */
  lemma RowIsSaved(m: Match, saveMap: SaveMap, rows: seq<Row>, row: Row)
    requires (var frames := Covered(m.general, |m.dire|, |m.radiant|);
              WellSelected(frames, HeroNames(frames), Pairs(saveMap)))
    requires Inserted(m, saveMap, rows) && row in rows
    ensures HasRecord(m, row.tick, row.index) && row == RowAt(m, row.tick, row.index)
    ensures Candidate(row.tick, row.record.heroName) in Pairs(saveMap) && row.frame.time >= 0
  {
    var c := Candidate(row.tick, row.record.heroName);
    var frames := Covered(m.general, |m.dire|, |m.radiant|);
    assert Wanted(m, saveMap, row.tick, row.index);
    assert c in Pairs(saveMap);
    assert Eligible(frames, HeroNames(frames), c);
  }

  /** A row stands for the record at `(tick, index)`. */
  predicate StandsFor(rows: seq<Row>, tick: nat, index: nat, row: Row) {
    row in rows && row.tick == tick && row.index == index
  }

  /** Which records have a row: those of a tick that all three timelines have and whose hero is saved for the tick.
      The row shows the frame and the record itself, and the rows stand in the order of ticks and records. */
  lemma RowsExactly(m: Match, saveMap: SaveMap, rows: seq<Row>, tick: nat, index: nat)
    requires Inserted(m, saveMap, rows)
    ensures (exists row :: StandsFor(rows, tick, index, row)) <==>
              && tick < |m.general| && tick < |m.radiant| && tick < |m.dire| && index < |m.general[tick].heroes|
              && tick in saveMap && m.general[tick].heroes[index].heroName in saveMap[tick]
    ensures forall row | StandsFor(rows, tick, index, row) ::
              && tick < |m.general| && index < |m.general[tick].heroes|
              && row.frame == m.general[tick] && row.record == m.general[tick].heroes[index]
    ensures forall j, k | 0 <= j < k < |rows| ::
              rows[j].tick < rows[k].tick || (rows[j].tick == rows[k].tick && rows[j].index < rows[k].index)
  {
    TicksExactly(m, tick);
    if Wanted(m, saveMap, tick, index) {
      assert Earlier(tick, index, MaxTicks(m), 0);
      assert StandsFor(rows, tick, index, RowAt(m, tick, index));
    }
    forall j, k | 0 <= j < k < |rows|
      ensures rows[j].tick < rows[k].tick || (rows[j].tick == rows[k].tick && rows[j].index < rows[k].index)
    {
      assert Earlier(rows[j].tick, rows[j].index, rows[k].tick, rows[k].index);
    }
  }

  /** For every log in order and all random choices, of every inserted row: its label columns are true of the log if and
      only if it is the hero's first record in the frame or the hero does not die within 20 seconds; its scores are the
      deaths credited so far; and its snapshot is of its own second if and only if a typed line stands at the first
      line's second. */
  lemma {:induction false} InsertedRowsAreTrue(id: int, root: Vision.Root, radiant: Vision.State, dire: Vision.State,
                                               log: seq<Line>, saveMap: SaveMap, rows: seq<Row>, row: Row)
    requires Ordered(log) && SecondsInRange(log)
    requires (var m := MatchOf(id, root, radiant, dire, log);
              var frames := Covered(m.general, |m.dire|, |m.radiant|);
              && WellSelected(frames, HeroNames(frames), Pairs(saveMap))
              && Inserted(m, saveMap, rows) && row in rows)
    ensures row.index < |row.frame.heroes| && log != []
    ensures (var (hero, t) := (row.record.heroName, row.frame.time);
             row.record.flags == LookAhead(log, hero, t) <==>
               (forall q | 0 <= q < row.index :: row.frame.heroes[q].heroName != hero) || !DiesWithin(log, hero, t, 20))
    ensures row.frame.time >= 0 && Scored(log, row.frame)
    ensures row.vision.time == row.frame.time <==> OpensAt(log, Sec(log[0]))
  {
    var m := MatchOf(id, root, radiant, dire, log);
    RowIsSaved(m, saveMap, rows, row);
    RecordLabelledExactly(id, log, row.tick, row.index);
    ScoresCountDeaths(id, log);
    if row.record.isRadiant {
      JoinAt(id, root, radiant, log, row.tick);
    } else {
      JoinAt(id, root, dire, log, row.tick);
    }
  }

  // ---------- whose data a row carries ----------

  /** Radiant's parser is the one of team 2, dire's the one of team 3. */
  function TeamState(m: (Vision.State, Vision.State), isRadiant: bool): Vision.State {
    if isRadiant then m.0 else m.1
  }

  /** The row of a record carries data exactly if a line of the snapshot's second takes the snapshot and the hero,
      under its normalised name, is by then known in the record's own team; it is then the hero's own unit as the log
      up to that line says. */
  lemma RowDataExactly(id: int, root: Vision.Root, radiant: Vision.State, dire: Vision.State, log: seq<Line>,
                       tick: nat, index: nat)
    requires radiant.heroes == map[] && dire.heroes == map[] && radiant.myTeam == 2 && dire.myTeam == 3
    requires HasRecord(MatchOf(id, root, radiant, dire, log), tick, index)
    ensures (var row := RowAt(MatchOf(id, root, radiant, dire, log), tick, index);
             var (name, team) := (NormalizeName(row.record.heroName), if row.record.isRadiant then 2 else 3);
             && (row.data.Some? <==>
                   exists j: nat :: Snapshots.SnapsAt(log, j, row.vision.time)
                                    && Snapshots.InTeam(log[..j + 1], name, team))
             && (row.data.Some? ==>
                   && row.data.value.name == name
                   && exists j: nat, enemies ::
                        Snapshots.UnitOfSecond(root, TeamState((radiant, dire), row.record.isRadiant), log,
                                               row.vision.time, j, enemies, row.data.value)))
  {
    var m := MatchOf(id, root, radiant, dire, log);
    var row := RowAt(m, tick, index);
    var start := TeamState((radiant, dire), row.record.isRadiant);
    var frames := V.Watch(root, start, log).frames;
    assert frames[tick] == row.vision && row.vision in frames;
    UnitExactly(root, start, log, row.vision, NormalizeName(row.record.heroName));
  }

  lemma UnitOfLine(root: Vision.Root, start: Vision.State, log: seq<Line>, f: Vision.Snapshot, name: string, j: nat)
    requires start.heroes == map[] && f in V.Watch(root, start, log).frames && Snapshots.SnapsAt(log, j, f.time)
    ensures (var data := UnitNamed(f.units, name);
             && (data.Some? <==> Snapshots.InTeam(log[..j + 1], name, start.myTeam))
             && (data.Some? ==>
                   exists enemies :: Snapshots.UnitOfSecond(root, start, log, f.time, j, enemies, data.value)))
  {
    Snapshots.FrameOfSecond(root, start, log, f, j);
    UnitInFrame(root, start, log[..j + 1], f, name);
    if UnitNamed(f.units, name).Some? {
      var data := UnitNamed(f.units, name).value;
      var enemies :| Snapshots.UnitByLog(root, start, log[..j + 1], enemies, data);
      assert Snapshots.UnitOfSecond(root, start, log, f.time, j, enemies, data);
    }
  }

  lemma NoUnitWithoutLine(root: Vision.Root, start: Vision.State, log: seq<Line>, f: Vision.Snapshot)
    requires start.heroes == map[] && f in V.Watch(root, start, log).frames
    requires forall j: nat :: !Snapshots.SnapsAt(log, j, f.time)
    ensures f.units == []
  {
    Snapshots.EveryFrameFits(root, start, log);
    assert Snapshots.FrameFits(root, start, log, f);
  }

  lemma UnitExactly(root: Vision.Root, start: Vision.State, log: seq<Line>, f: Vision.Snapshot, name: string)
    requires start.heroes == map[] && f in V.Watch(root, start, log).frames
    ensures (var data := UnitNamed(f.units, name);
             && (data.Some? <==>
                   exists j: nat :: Snapshots.SnapsAt(log, j, f.time)
                                    && Snapshots.InTeam(log[..j + 1], name, start.myTeam))
             && (data.Some? ==>
                   exists j: nat, enemies ::
                     Snapshots.UnitOfSecond(root, start, log, f.time, j, enemies, data.value)))
  {
    if forall j: nat :: !Snapshots.SnapsAt(log, j, f.time) {
      NoUnitWithoutLine(root, start, log, f);
    } else {
      forall j: nat | Snapshots.SnapsAt(log, j, f.time)
        ensures UnitNamed(f.units, name).Some? <==> Snapshots.InTeam(log[..j + 1], name, start.myTeam)
        ensures UnitNamed(f.units, name).Some? ==>
                  exists enemies ::
                    Snapshots.UnitOfSecond(root, start, log, f.time, j, enemies, UnitNamed(f.units, name).value)
      {
        UnitOfLine(root, start, log, f, name, j);
      }
    }
  }

  lemma UnitInFrame(root: Vision.Root, start: Vision.State, log: seq<Line>, f: Vision.Snapshot, name: string)
    requires log != [] && Snapshots.FrameIs(root, start, log, f)
    ensures UnitNamed(f.units, name).Some? <==> Snapshots.InTeam(log, name, start.myTeam)
    ensures UnitNamed(f.units, name).Some? ==>
              exists enemies :: Snapshots.UnitByLog(root, start, log, enemies, UnitNamed(f.units, name).value)
  {
    var allies, enemies :| Snapshots.FrameUnits(root, start, log, f, allies, enemies);
    UnitsAreAllies(root, start, log, f, allies, enemies, name);
    if UnitNamed(f.units, name).Some? {
      var k :| 0 <= k < |f.units| && f.units[k] == UnitNamed(f.units, name).value;
      UnitAt(root, start, log, f, allies, enemies, k);
    }
  }

  lemma UnitsAreAllies(root: Vision.Root, start: Vision.State, log: seq<Line>, f: Vision.Snapshot, allies: seq<string>,
                       enemies: seq<string>, name: string)
    requires log != [] && Snapshots.FrameUnits(root, start, log, f, allies, enemies)
    ensures UnitNamed(f.units, name).Some? <==> Snapshots.InTeam(log, name, start.myTeam)
  {
    if name in allies {
      var k :| 0 <= k < |allies| && allies[k] == name;
      assert f.units[k].name == name && f.units[k] in f.units;
    }
    if UnitNamed(f.units, name).Some? {
      var k :| 0 <= k < |f.units| && f.units[k] == UnitNamed(f.units, name).value;
      assert f.units[k].name == allies[k];
    }
  }

  lemma UnitAt(root: Vision.Root, start: Vision.State, log: seq<Line>, f: Vision.Snapshot, allies: seq<string>,
               enemies: seq<string>, k: nat)
    requires log != [] && Snapshots.FrameUnits(root, start, log, f, allies, enemies) && k < |f.units|
    ensures Snapshots.UnitByLog(root, start, log, enemies, f.units[k])
  {}
}
