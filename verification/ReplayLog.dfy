/** A decoded line of a replay log.  The general and the vision parser decode the same lines into structures of
    their own; this is the union of the fields the model needs. */
module ReplayLog {
  import opened Numbers

  datatype Kind =
    | Untyped          // the empty type string
    | MatchId
    | Death
    | Purchase
    | ItemUsed         // DOTA_COMBATLOG_ITEM and DOTA_COMBATLOG_ITEM_USED
    | Interval
    | Observer
    | Sentry
    | Damage
    | ModifierAdd
    | ModifierRemove
    | OtherKind

  datatype Line = Line(
    kind: Kind,
    time: real,
    matchId: int,
    targetHero: bool,
    targetName: string,
    attackerName: string,
    inflictor: string,
    valueName: string,
    slot: int,
    unit: string,
    x: real,
    y: real,
    z: real,
    lifeState: int,
    handle: int,
    entityLeft: int
  )

  /** The whole second of a line, `int(line.Time)`. */
  function Sec(l: Line): int {
    Trunc(l.time)
  }

  predicate Typed(l: Line) {
    !l.kind.Untyped?
  }
}
