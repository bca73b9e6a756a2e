# Verification of the death-prediction pipeline

This project models, in Dafny, the parts of the repository that turn Dota 2 replays into a training set and game
requests into predictions, and proves what those parts are meant to guarantee. The models keep the branches, edge cases
and constants of the code. Check it with `dafny verify dfyconfig.toml`.

**Offline: from replay logs to rows (Go, `data/parser`)**

- `Pipeline`, `FanOut`: `main`, `workerParse`, `SaveWorker` and `makeOneMatch` as labelled transition systems. The
  first has any list of files and any number of workers; a parse may succeed, fail or panic at any step. Each has an
  inductive invariant, an enabled step in every unfinished state and a measure that falls with every step, so every
  interleaving terminates within a stated number of steps and delivers exactly what it should.
- `GeneralTimeline`: the one-pass general parser, as a class proved against the function `Run`/`Timeline` over the log.
  `LogOrder`, `Frames`, `Records`, `DeathLabels`, `Scores`, `Inventory` prove what that function means: one frame per
  second with the match id and daylight of that second and exactly the records of its lines, labels that look ahead,
  scores that count deaths, item lists that are counters. `Roster` tells from the log alone which hero a slot stands for,
  on which side a hero is and what it holds. `Epilogue` is the match id scanner.
- `Trees`, `Vision`, `GameStates`, `VisionTimeline`, `Sorting`, `Names`: the visibility engine. `GameStates` is the
  mutable state; loops over Go maps take the keys in an order chosen freely, and are proved equal to functions that know
  no order. `HeroHistory` tells from the log alone what that state remembers of a hero, `LastSeen` where and when
  an enemy was last seen, `Snapshots` what every frame and every slot in it reports and which sources have whom in sight.
- `TimelineJoin`: when the two timelines, made by two different loops, agree index by index.
- `Sampler`, `Bands`, `Rows`: the choice of pairs of tick and hero for all random choices, what a chosen pair says about the
  log, and the insert loop with what each inserted row says.

**Online: from requests to heatmaps (Python, `services`)**

- `Grid`: encoding a position as a square and decoding it. `Heatmap`: candidate squares, recomputed features and the
  filled table. `Flatten`: nested dictionaries to dotted keys. `InferenceStream`: producers, trims, any number of
  workers and failures anywhere over one input stream with one consumer group and one output stream.

`Numbers`, `Sequences`, `Options` and `ReplayLog` hold shared definitions.

## What the proofs say about the code

Some statements hold only under a condition.  For these the project states exactly when they hold and shows an input on
which they fail:

- `saveMatch` joins the general and the vision frames by index, up to the shorter length. For logs whose kept lines are in
  order and whose seconds lie above -9999, the join is a join by time if and only if the general timeline is empty or a
  typed line stands at the first line's second (`TimelineJoin.JoinIsByTime`); the log of
  `TimelineJoin.UntypedStartMisjoins`, which starts with an untyped line, is joined wrongly. The timelines have equal length as well if and only if a typed
  line stands at the latest second too (`TimelineJoin.TimelinesAgree`), which logs that end in a later untyped line fail
  (`TimelineJoin.LaterUntypedTailDisagrees`, with an instance in `TimelineJoin.UntypedTailDisagrees`). Logs of typed lines
  meet both.
- A record's labels are true of the log if and only if it is the hero's first record in the frame or the hero does not die
  within 20 seconds (`DeathLabels.RecordLabelledExactly`). `saveMatch` inserts the hero's other records of the second too;
  in `DeathLabels.SecondRecordUnlabelled` one of them says the hero survives, a second before its death.
- A dead enemy counts as seen if and only if its recorded last sighting is less than 0.1 seconds old
  (`Vision.DeadSeenOnlyIfRecent`). A new enemy carries the time 0 of a sighting, so before second 0.1 every snapshot counts
  it as seen, dead or hidden, and only from then on must it be alive and in sight (`LastSeen.FirstSightExactly`);
  `LastSeen.DeadEnemySeenAtStart` shows logs on which a dead enemy never seen is recorded as seen where it lies.
- `cell_id` returns a square that contains the position exactly for the positions inside the box (`Grid.CellIdExact`).
  Its docstring promises ids from 0 to 1023; outside the box the id may lie in that range or not, and never belongs to a
  square that contains the position (`Grid.OffTheMap`).
- The whole-number centre of a square lies in the square if and only if, along both sides, dropping the fraction moves it
  down by at most half a cell or up by less than that (`Grid.CenterStaysExactly`). On a map with sides of at least 2 it
  encodes as the square again if and only if that holds or, along a side where the cell is the first, it moves down by
  less than one and a half cells (`Grid.RoundTripExactly`). Cells at least 2 wide always do (`Grid.CenterRoundTrip`), so
  with the inference worker's bounds up to 8500 cells a side do (`Grid.WorkerBoxRoundTrip`); with 20000 cells square 0
  does not (`Grid.NarrowCellsDoNotRoundTrip`).
- `flatten_mapping` keeps as many entries as there are leaves if and only if the keys it writes them to are pairwise
  different (`Flatten.NothingLostExactly`). Pairwise different, nonempty, dot-free keys in every dictionary are enough
  (`Flatten.WellKeyedLosesNothing`). A key with a dot behind a nonempty text, and an empty key, can each make one of two
  leaves disappear (`Flatten.DottedKeysMerge`, `Flatten.EmptyKeysMerge`).
- The scanned match id is the printed number exactly below 2^63; above, it is 2^63 - 1 (`Epilogue.PrintedIdIsRead`).
- The stream delivers at most once. `ack_messages` promises to avoid re-processing; nothing is read twice even without
  it (`InferenceStream.NoSecondDelivery`). Once every stored entry is delivered and the workers are idle, an entry that makes
  an item has a result if and only if no step of the run lost it (`InferenceStream.AnsweredUnlessLost`). The losing steps are
  listed in `Loses`: a trim past the unread entry, a read whose answer is lost, and, at the worker that has the entry
  unanswered, a failure, a prediction that is no probability, or a push that raises. One such
  run is `InferenceStream.FailureLosesAnEntry`.

Two choices where names or comments could mislead: a hero's labels compare the raw target name of the death line with the
stored hero name, as the code does; and in `makeOneMatch` the comments beside the two vision parsers name the teams the
other way round than the channels they feed, so the model follows the channels: team 3 is dire, team 2 is radiant.

Definitions the statements rest on: `LogOrder.Kept` (the line is not skipped), `LogOrder.Ordered` (the seconds of kept
lines never fall), `Sampler.Fair` (exactly one pick from each nonempty band of each closed episode, none from an open
one), `Sampler.WellSelected`, `Trees.Blocks` and `Trees.SomeTreeBlocks` (the foot of the perpendicular lies on the sight
line and less than 100 away; a scan of all trees), `Vision.Sees` (visibility over sets of sources), `FanOut.Yields`,
`Snapshots.FrameIs`, `Snapshots.InSightByLog`, `Records.RecordsAt`, `Flatten.LeafAt` (paths to leaves), `Flatten.Leaves` (their number),
`Grid.MiddleStays` and `Grid.MiddleReturns`, `InferenceStream.Loses`.

## Model

| member | source | states |
|---|---|---|
| `Pipeline.NoSendAfterClose` | data/parser/main.go:180-192 | In every state of the invariant no worker sends on the closed result channel and nothing is fed into the closed job channel; the wait counter is never negative. |
| `Pipeline.FilesKept` | data/parser/main.go:16-38 | Every step keeps, for each file, the number of copies still to feed, queued, in a worker's hands or attempted. |
| `Pipeline.MatchesKept` | data/parser/main.go:29-35 | Every step keeps, for each match, successful parses = waiting to be sent + in the channel + taken by the saver. |
| `Pipeline.InvPreserved` | data/parser/main.go:16-38 | The whole invariant (conservation of files and matches, close order, wait-group count) is kept by every step. |
| `Pipeline.EnabledStep` | data/parser/main.go:172-192 | With at least one worker every state in which `main` has not returned has an enabled step: no deadlock, whatever is full or empty. |
| `Pipeline.StepLowersRank` | data/parser/main.go:180-192 | Every step lowers a natural-number measure. |
| `Pipeline.FinishedDeliversAll` | data/parser/postgres/worker.go:23-33 | When `main` has returned, every file was attempted exactly once per listing and the saver received exactly the matches of the successful attempts. |
| `Pipeline.EveryInterleaving` | data/parser/main.go:146-192 | For all files, worker counts and interleavings: at most 8 steps a file plus workers plus 5, a stuck run is a finished one, and a finished one lost and duplicated nothing. |
| `Pipeline.SavedAreTheMatches` | data/parser/main.go:16-38 | Pipeline and fan-out together: if every attempt is the verdict of `makeOneMatch` on the three outcomes of its file, the saver has received at the end each match as often as files are listed whose three parsers yield it: all succeed with nonempty outputs, and each output is in its own place. |
| `FanOut.DrainedMeansAllDelivered` | data/parser/main.go:103-112 | Once the error channel is closed and drained without an error, all three parsers succeeded and each data channel holds its own parser's output, so no receive yields a closed channel's zero value. |
| `FanOut.InvPreserved` | data/parser/main.go:40-131 | Every step of the three parsers, the closer and the caller keeps the invariant on counters, buffers and close order. |
| `FanOut.SendsNeverBlock` | data/parser/main.go:43-101 | A goroutine about to send finds an open channel with room even if the caller has returned; no close meets a closed channel. |
| `FanOut.EnabledStep` | data/parser/main.go:40-131 | While any goroutine is alive or the caller waits, some step is enabled. |
| `FanOut.StepLowersRank` | data/parser/main.go:40-131 | Every step lowers a measure. |
| `FanOut.EveryInterleaving` | data/parser/main.go:40-131 | In every interleaving: at most 20 steps, a stuck run has ended every goroutine, and the caller's result is determined by the three outcomes alone: an error if a parser failed, the length error if some output is empty, else the match of all three outputs. |
| `FanOut.VerdictExactly` | data/parser/main.go:103-130 | The verdict is the match with the general, radiant and dire outputs in their places and the first general id iff all three parsers succeed with nonempty outputs; the length error iff all succeed and one output is empty; a parser's error iff one fails. |
| `FanOut.ReturnedExactly` | data/parser/main.go:103-130 | In every interleaving that returns, the caller has exactly that. |
| `GeneralTimeline.GeneralParser.AppendDeathPredict` | data/parser/utils/general.go:651-684 | The in-place loop labels exactly the first record of the hero in each stored frame 1 to 20 places before the death's index, and changes nothing else. |
| `GeneralTimeline.GeneralParser.OpenFrameFor` | data/parser/utils/general.go:441-469 | Flushing the current frame, filling the gap and opening the new frame yields the specified state. |
| `GeneralTimeline.GeneralParser.OnHeroDeath` | data/parser/utils/general.go:478-500 | Credit, scores of the current frame and labels after a hero death. |
| `GeneralTimeline.GeneralParser.OnPurchase` | data/parser/utils/general.go:502-507 | A bought item is appended to the hero's list. |
| `GeneralTimeline.GeneralParser.OnItemUsed` | data/parser/utils/general.go:509-522 | A used consumable leaves the hero's list once, any other line leaves it alone. |
| `GeneralTimeline.GeneralParser.OnInterval` | data/parser/utils/general.go:546-633 | A hero line appends one record with the hero's side and items, and remembers the side and the slot. |
| `GeneralTimeline.GeneralParser.Feed` | data/parser/utils/general.go:431-633 | One loop turn is one step of the specification, skipped lines included. |
| `GeneralTimeline.ParseGeneral` | data/parser/utils/general.go:403-639 | The whole parse returns the specified timeline for every log. |
| `LogOrder.KeptMeansNotSkipped` | data/parser/utils/general.go:433-439 | Which lines are skipped depends on the seconds of the log alone: the parser's skip test is the negation of `Kept`. |
| `LogOrder.SkippedExactly` | data/parser/utils/general.go:433-439 | For every log without a line at second -99999: a line is skipped iff its second is negative while the latest kept typed line before it, or the first line if there is none, stands at a positive one. |
| `LogOrder.LatestSecond` | data/parser/utils/general.go:441-469 | In an ordered log the current frame stands at the latest second of a kept typed line. |
| `LogOrder.OnePerSecond` | data/parser/utils/general.go:443-469 | In an ordered log the frames are gap-free: consecutive frames are one second apart. |
| `Frames.DaylightByClock` | data/parser/utils/general.go:641-649 | For every log: a frame, gap filler or not, is a day frame iff its second is negative or in the first half of its ten minutes. |
| `Frames.FramesIdentified` | data/parser/utils/general.go:441-476 | In an ordered log each frame, gap fillers included, bears the id of the latest kept match line at or before its second, the epilogue's if there is none. |
| `Records.RecordsExactly` | data/parser/utils/general.go:546-632 | In an ordered log the records of a frame are exactly one for each kept interval line of its second that is about a hero, in the order of the lines, with that line's hero and side and the items held then. |
| `Records.EverySecondHasFrame` | data/parser/utils/general.go:441-469 | For every log the second of each kept typed line has a frame. |
| `DeathLabels.DeathMarksFrame` | data/parser/utils/general.go:651-684 | A frame whose labels were right for the known deaths is right for one more after the in-place labelling. |
| `DeathLabels.LabelsAreLookAhead` | data/parser/utils/general.go:651-684 | One pass equals look-ahead: the first record of a hero in the frame of second t carries flag K iff the log reports a death of that hero at a second d with 1 <= d - t <= K, for K in 1, 5, 10, 15, 20; later records of the hero carry none. |
| `DeathLabels.RecordLabelledExactly` | data/parser/utils/general.go:662-681 | A record's flags equal looking ahead iff it is the hero's first record in its frame or the hero does not die within 20 seconds. |
| `DeathLabels.SecondRecordUnlabelled` | data/parser/utils/general.go:662-681 | A log of three lines in which a hero's second record has no label a second before the hero's death. |
| `Scores.ScoresCountDeaths` | data/parser/utils/general.go:448-498 | In every frame, gap fillers included, each score is the number of kept deaths at or before the frame's second that the log credits to that side: by the killer's latest shown side, else by the victim's name. |
| `Scores.ScoresNeverFall` | data/parser/utils/general.go:448-498 | Neither score falls along the timeline. |
| `Roster.RosterIsLatest` | data/parser/utils/general.go:502-555 | For every log: a slot stands for the hero last named in it, a hero's side is that of the latest kept interval line about it, and its items are the kept purchases less the first copies used up since. |
| `Roster.CreditFromLog` | data/parser/utils/general.go:480-494 | The side a death is credited to and the hero an interval line is about are functions of the log before it. |
| `Inventory.RemoveFirstTakesOne` | data/parser/utils/general.go:513-521 | Removing an item takes exactly one copy of it and no other item. |
| `Inventory.InventoryIsStock` | data/parser/utils/general.go:502-522 | For every log, hero and item the number of copies in the list is a counter: plus one per purchase, minus one per use but never below zero. |
| `Inventory.RecordsStemFromLines` | data/parser/utils/general.go:546-632 | Every record of every returned frame stems from a kept interval line of the frame's own second and shows the hero, side and items that the log before that line calls for. |
| `Epilogue.LastIndexBelow` | data/parser/utils/general.go:711-715 | The last occurrence of the marker, or -1 if there is none. |
| `Epilogue.FetchMatchId` | data/parser/utils/general.go:686-735 | The scanner returns the number of the first run of digits behind the last marker of the last 8192 bytes, 0 if the file, the marker or the digits are missing. |
| `Epilogue.FetchedUnique` | data/parser/utils/general.go:711-734 | That description fits one number only. |
| `Epilogue.PrintedIdIsRead` | data/parser/utils/general.go:699-734 | For every text before, gap without digits, number n and rest: the id is n iff n < 2^63, and 2^63 - 1 otherwise. |
| `Epilogue.FarMarkerIsIgnored` | data/parser/utils/general.go:699-716 | If every marker begins more than 8192 bytes before the end of the file, the id is 0. |
| `Names.ParsersAgree` | data/parser/utils/function.go:54-64 | `NormalizeHeroName` and `NormalizeName` give the unit `CDOTA_Unit_Hero_X` the same name, `npc_dota_hero_` and X in lower case, for every X: the names the two timelines are joined by. |
| `Names.TrimExactly` | data/parser/utils/general.go:505-511 | Trimming drops the prefix once and leaves a string without it alone. |
| `Trees.NearSymmetric` | data/parser/utils/vision.go:516-530 | Nearness of a tree does not depend on the direction of the segment. |
| `Trees.NearExactly` | data/parser/utils/vision.go:516-530 | The test of one tree holds iff the ends differ and the foot of the perpendicular from the tree lies on the segment, less than 100 from the tree. |
| `Trees.NearInPaddedBox` | data/parser/utils/vision.go:490-491 | A near tree lies in the bounding box of the segment widened by the block radius. |
| `Trees.NearTreeIsVisited` | data/parser/utils/vision.go:494-504 | A near tree's cell is among the visited cells, for every tree position, also outside the map where truncation goes toward zero. |
| `Trees.LoadTrees` | data/parser/utils/vision.go:548-552 | The buckets hold exactly the loaded trees, each in the bucket of its position and in file order. |
| `Trees.IsPathBlockedByTrees` | data/parser/utils/vision.go:489-514 | The bucketed search says blocked iff some loaded tree blocks: its foot on the sight line lies between the ends and is less than 100 away. |
| `Trees.BlockingSymmetric` | data/parser/utils/vision.go:489-530 | Blocking is symmetric in the two ends. |
| `Vision.MoreSourcesNeverHide` | data/parser/utils/vision.go:436-487 | More vision, ward or true-sight sources, or day instead of night, never hide a visible enemy. |
| `Vision.SeesExactly` | data/parser/utils/vision.go:436-487 | A smoked enemy is seen iff a vision source is within 1025; any other iff it is not invisible or true sight is within 900, and a vision source has sight of it within 1800 by day and 800 by night, or an observer ward within 1600; sight ends 150 above the source and at trees. |
| `Vision.HiddenAbove` | data/parser/utils/vision.go:454-487 | An enemy that is not smoked is never seen more than 150 above every source, nor invisible without true sight within 900. |
| `Vision.WorldIsLinear` | data/parser/utils/function.go:80-85 | Positions 64 to 192 of the log are mapped linearly onto the map's box. |
| `Vision.NearestUnique` | data/parser/utils/vision.go:555-581 | The least distance over a set is unique, so the loops over a map and over the towers have one answer. |
| `Vision.Nearest` | data/parser/utils/vision.go:555-581 | The nearest distance is 99999 or less, is at most every distance and is one of them unless it is 99999. |
| `GameStates.GameState.InitMap` | data/parser/utils/vision.go:532-553 | Towers get their team from their position and the tree store is the indexed list of all trees. |
| `GameStates.GameState.RemoveWard` | data/parser/utils/vision.go:583-590 | The in-place removal drops the first ward with the handle, keeps the order of the others, and does nothing without one. |
| `GameStates.GameState.Update` | data/parser/utils/vision.go:201-285 | One line moves the mutable state as the function `Updated` says; `HeroHistory.HeroesAreLatest` and `VisionTimeline.WardsAreLatest` say what that means for heroes and wards. |
| `HeroHistory.LineRemembered` | data/parser/utils/vision.go:211-284 | If the state remembers of a hero what the log says, it still does after one more line of any kind. |
| `HeroHistory.HeroesAreLatest` | data/parser/utils/vision.go:211-284 | For every log and name: the hero is known iff it had an interval line; its team is that of its first one, its life that of the latest, its place that of the latest interval line or creep hit, and it carries exactly the modifiers whose latest add or remove line since it is known is an add. Its last sighting is the subject of `LastSeen.LastSeenIsLatest`. |
| `LastSeen.SnapsExactly` | data/parser/utils/vision.go:185-195 | A line takes a snapshot iff its second lies above -9999 and above the seconds of all lines before it. |
| `LastSeen.LastSeenIsLatest` | data/parser/utils/vision.go:266-271 | For every log and hero: last seen place and time are those of the latest sighting, that is the latest snapshot that counts it as seen, at the place it then had, or the latest revealing creep hit; zeros if there was none. |
| `LastSeen.FirstSightExactly` | data/parser/utils/vision.go:337-345 | A snapshot counts an enemy not seen before as seen iff it is before second 0.1 or the enemy is alive and in sight. |
| `LastSeen.DeadEnemySeenAtStart` | data/parser/utils/vision.go:337-345 | On every one-line log that files a dead enemy before second 0.1 that enemy is visible and last seen where it lies. |
| `Snapshots.LastFrameFromLog` | data/parser/utils/vision.go:287-426 | For every log whose last line takes a snapshot, the last frame has one unit per hero filed in my team, in ascending name order, at its latest place, with the distances to the nearest living hero of either side and the nearest standing tower of either team; slot k names the k-th of the other heroes and reports where it was last seen: whole coordinates, grid square, distance and seconds since, 99999 for time 0. |
| `Snapshots.EveryFrameFits` | data/parser/utils/vision.go:174-195 | Every frame of a log is the last frame of the log up to the line that takes the snapshot of its second, and is empty if no line does. |
| `Snapshots.WardsFromLog` | data/parser/utils/vision.go:233-250 | For every log: a ward is active iff the latest line of its handle placed it, with that line's team, place, kind and an end 360 seconds later. |
| `Snapshots.ClockFromLog` | data/parser/utils/vision.go:202-209 | For every log: the time is the last line's, and it is day in the first five of every ten minutes by the latest line of a nonnegative time. |
| `Snapshots.SightFromLog` | data/parser/utils/vision.go:290-333 | For every log: the last line counts a hero as sighted iff it is alive and the rules of sight hold over the living heroes and standing towers of my team and its unexpired wards, the hero's modifiers and the clock, all as of the log. |
| `GameStates.GameState.IsUnitVisible` | data/parser/utils/vision.go:436-487 | The loops over source lists decide the order-free predicate `Sees` over the sets of sources. |
| `GameStates.GameState.CheckEnemy` | data/parser/utils/vision.go:331-345 | An enemy counts as visible iff it is alive and in sight or its recorded last sighting is less than 0.1 seconds old, dead or alive; its last place and time are updated exactly then. |
| `Vision.DeadSeenOnlyIfRecent` | data/parser/utils/vision.go:331-345 | A dead enemy counts as seen iff its recorded last sighting is less than 0.1 seconds old. |
| `Vision.NeverSeenIsSeenEarly` | data/parser/utils/vision.go:221-221 | With the zero time of a new record an enemy counts as seen before second 0.1 always, from then on iff alive and in sight. |
| `GameStates.GameState.SpotEnemies` | data/parser/utils/vision.go:323-346 | Whatever order the hero map is ranged over, the state after it is `AllSpotted` of the state before, and the enemies are listed once each. |
| `GameStates.GameState.GetNearestHeroDist` | data/parser/utils/vision.go:555-569 | The nearest living hero of the wanted side, not at the same point, in any map order. |
| `GameStates.GameState.GetNearestTowerDist` | data/parser/utils/vision.go:571-581 | The nearest standing tower of the team. |
| `GameStates.GameState.FillSlots` | data/parser/utils/vision.go:369-420 | The first five enemies in name order fill the five slots. |
| `GameStates.GameState.CalculateVisibility` | data/parser/utils/vision.go:287-426 | Snapshot and next state are the functions `SnapshotOf` and `AllSpotted` of the state and the second, for every map order; `Snapshots.LastFrameFromLog` and `LastSeen.LastSeenIsLatest` say what these report. |
| `GameStates.GameState.DescribeInOrder` | data/parser/utils/vision.go:352-425 | One unit per ally in the given order. |
| `Sorting.AscendingUnique` | data/parser/utils/vision.go:349-350 | Two ascending lists of the same names are equal: sorting by unique names leaves no freedom. |
| `Sorting.BeforeExactly` | data/parser/utils/vision.go:349-350 | The order is that of the first difference: up to some index the strings agree, and there the first ends or has the smaller character. |
| `Sorting.SortedNames` | data/parser/utils/vision.go:349-350 | The ascending list of the names of a set. |
| `Sorting.SortByName` | data/parser/utils/vision.go:349-350 | Sorting a list of different names gives the ascending list of the same names. |
| `VisionTimeline.ParseVision` | data/parser/utils/vision.go:156-199 | The loop over the log returns the frames and leaves the state the function `Watch` gives. |
| `VisionTimeline.SnapshotPerSecond` | data/parser/utils/vision.go:174-195 | The vision timeline has one frame for each second from the first line's to the latest, for logs in any order. |
| `VisionTimeline.EnemiesDoNotMatter` | data/parser/utils/vision.go:325-346 | What is seen of an enemy does not depend on what was already recorded about other enemies. |
| `VisionTimeline.AnyOrderSpotsTheSame` | data/parser/utils/vision.go:325-346 | Checking the heroes one after the other in any order, each against the state so far, ends in the same state. |
| `VisionTimeline.LatestWard` | data/parser/utils/vision.go:233-250 | A handle has at most one latest ward. |
| `VisionTimeline.WardsAreLatest` | data/parser/utils/vision.go:233-250 | For every log and handle the slice holds under it exactly the ward its latest ward line placed, none after a removal: the slice refines a finite map. |
| `VisionTimeline.HandlesDistinct` | data/parser/utils/vision.go:583-590 | Active ward handles are pairwise distinct in every reachable state. |
| `VisionTimeline.ReachableStatesKeep` | data/parser/utils/vision.go:201-285 | In every reachable state heroes are filed under their own names and trees, towers and team are as loaded. |
| `TimelineJoin.GeneralStart` | data/parser/utils/general.go:433-469 | The general timeline starts at the first line's second iff a kept typed line stands there, and never before it. |
| `TimelineJoin.TimelinesAgree` | data/parser/postgres/worker.go:170-183 | Both timelines have the same length and the same second at each index if and only if the log is empty or typed lines stand at the first line's and at the latest second. |
| `TimelineJoin.JoinAt` | data/parser/postgres/worker.go:170-183 | At any common index the two frames are of the same second iff a typed line stands at the first line's second. |
| `TimelineJoin.JoinIsByTime` | data/parser/postgres/worker.go:36-42 | All common indices have equal seconds iff the log is empty, no typed line is kept, or one stands at the first line's second. |
| `TimelineJoin.UntypedStartMisjoins` | data/parser/utils/general.go:441-441 | A log of two lines, the first untyped, on which the join is off. |
| `TimelineJoin.LaterUntypedTailDisagrees` | data/parser/utils/general.go:441-441 | On every ordered log that ends in an untyped line later than all the others the two timelines differ. |
| `TimelineJoin.UntypedTailDisagrees` | data/parser/utils/general.go:441-441 | A log of two lines is one of them; up to the shorter length it still joins by time. |
| `TimelineJoin.TypedLogsJoinByTime` | data/parser/postgres/worker.go:170-183 | For ordered logs of typed lines the index join with both vision timelines is a join by time. |
| `Sampler.FirstRecord` | data/parser/postgres/worker.go:80-86 | The first record of the hero, or none. |
| `Sampler.FairAtOtherTick` | data/parser/postgres/worker.go:92-104 | A tick that is not safe closes no episode and keeps the picks fair. |
| `Sampler.FairAtSafeTick` | data/parser/postgres/worker.go:105-115 | One pick per nonempty open band, made when a safe tick closes the episode, keeps the picks fair to all episodes so far. |
| `Sampler.ClosingGrows` | data/parser/postgres/worker.go:106-114 | A safe tick closes an episode iff something was picked at it. |
| `Sampler.PickKeepsBands` | data/parser/postgres/worker.go:107-111 | A pick from one band leaves the counts of the other bands alone. |
| `Sampler.RowSampler.PickOneRandomTick` | data/parser/postgres/worker.go:59-64 | For any random index one tick of a nonempty list is saved, nothing for an empty one. |
| `Sampler.RowSampler.PickEachBand` | data/parser/postgres/worker.go:107-111 | The five calls save exactly one tick of each nonempty band. |
| `Sampler.RowSampler.Inspect` | data/parser/postgres/worker.go:71-104 | The flags of the hero's first record decide between absent, safe and the smallest band set. |
| `Sampler.RowSampler.WalkHero` | data/parser/postgres/worker.go:66-118 | Walking the match for one hero adds a fair set of picks and the hero's safe ticks. |
| `Sampler.RowSampler.Shuffle` | data/parser/postgres/worker.go:121-123 | For any random swaps the candidates are permuted. |
| `Sampler.RowSampler.SaveSafe` | data/parser/postgres/worker.go:124-127 | The first 50 shuffled candidates, or all, are saved. |
| `Sampler.AllSafeHolds` | data/parser/postgres/worker.go:116 | The candidates are exactly the safe ticks of the listed heroes, each once if the names differ. |
| `Sampler.CollectHeroes` | data/parser/postgres/worker.go:49-57 | The heroes are those of the first frame with a nonnegative second. |
| `Sampler.HeroNamesExactly` | data/parser/postgres/worker.go:49-57 | The list has one name per record of the first frame with a nonnegative second, in order, and is empty without such a frame. |
| `Sampler.CoveredExactly` | data/parser/postgres/worker.go:36-42 | A tick takes part iff its index lies below the lengths of all three timelines. |
| `Sampler.ShuffledRows` | data/parser/postgres/worker.go:121-127 | The saved safe rows number exactly min(50, candidates) when hero names differ, at most 50 always. |
| `Sampler.SelectRows` | data/parser/postgres/worker.go:35-127 | For all random choices: saved rows are in range, of nonnegative seconds and listed heroes, and at most 5 per closed episode plus 50. With distinct names every nonempty band of every closed episode has exactly one saved tick, episodes open at the end have none, and min(50, all) safe ticks are saved. |
| `Sampler.SelectedExactly` | data/parser/postgres/worker.go:35-127 | In terms of the first frame with a nonnegative second: saved pairs name heroes with a record in it; if its names differ, the picks are fair to each of these heroes and of all their safe pairs 50 are saved, or all; at most 5 per closed episode and 50 in all. |
| `Sampler.OneOfEachHorizon` | data/parser/postgres/worker.go:92-118 | Fair picks read off the flags: whenever a hero's first record shows no flag, of the ticks of each smallest horizon since its last flagless tick exactly one is saved, if there are any. |
| `Sampler.PickIsFollowed` | data/parser/postgres/worker.go:92-118 | A saved tick of a horizon is followed by a tick at which the hero shows no flag. |
| `Bands.NextDeathWithin` | data/parser/utils/general.go:665-679 | A death within a horizon is a next death within it. |
| `Bands.BandIsNextDeath` | data/parser/postgres/worker.go:67-119 | A tick's mark is the one and only mark the log calls for: absent, safe iff no death follows within 20 seconds, or the band of the smallest horizon covering the distance to the hero's next death. |
| `Bands.SavedPairsAreTrue` | data/parser/postgres/worker.go:35-127 | Every saved pair of tick and hero of an ordered log is in range of all three timelines, the hero has a record there, and the tick is safe or in the band of the hero's next death. |
| `Rows.FindUnit` | data/parser/postgres/worker.go:185-192 | The first unit of the snapshot with the hero's name, none if there is none. |
| `Rows.InsertRows` | data/parser/postgres/worker.go:170-192 | The rows are exactly those of the records whose pair of tick and hero is saved, each once, in order, each with the snapshot of its own team at its index. |
| `Rows.RowsExactly` | data/parser/postgres/worker.go:170-175 | A record has a row iff all three timelines have its tick and the tick's saved names hold its hero; the row shows that frame and record, and rows stand in the order of ticks and records. |
| `Rows.RowDataExactly` | data/parser/postgres/worker.go:177-192 | For every log and both vision timelines: a record's row carries data iff some line takes the snapshot of the second and the hero is by then filed in the record's own team; it is then that hero's unit, placed and measured by the log up to that line. |
| `Rows.SaveMatch` | data/parser/postgres/worker.go:35-257 | Selection and insertion together, for all random choices. |
| `Rows.TicksExactly` | data/parser/postgres/worker.go:36-42 | The insert loop runs over the ticks below all three lengths. |
| `Rows.RowIsSaved` | data/parser/postgres/worker.go:170-175 | Every row comes from a saved pair, so its second is not negative. |
| `Rows.InsertedRowsAreTrue` | data/parser/postgres/worker.go:170-248 | For every ordered log and all random choices, of every inserted row: its label columns are true of the log iff it is the hero's first record of the second or the hero does not die within 20 seconds; its scores count the credited deaths; its snapshot is of its own second iff a typed line stands at the first line's second. |
| `Grid.AxisExact` | data/parser/utils/function.go:66-68 | Along one side the truncated scaled coordinate is a cell of the grid that contains the position iff the position is inside. |
| `Grid.CellIdExact` | services/gsi_processor/scr/infra/formulas.py:10-23 | The encoded square contains the position iff the position is in the box, and no other square does. |
| `Grid.CellIdByProducts` | services/gsi_processor/scr/infra/formulas.py:23-23 | Inside the box and without quotients: the id is row * n + col iff n times the distance to the lower left corner lies between row and row + 1 heights and between col and col + 1 widths. |
| `Grid.CenterByProducts` | services/inference/scr/services/worker.py:140-145 | 2n times the distance of a square's centre to that corner is 2 * row + 1 heights and 2 * col + 1 widths. |
| `Grid.OffTheMap` | services/gsi_processor/scr/infra/formulas.py:11-23 | Off the map an id of the promised range can come back for a position its square does not contain, on the right edge and below the corner, and one beyond the range in the far corner. |
| `Grid.MiddleStaysExactly` | services/inference/scr/services/worker.py:140-145 | The truncated middle of a cell lies in the cell iff dropping the fraction moves it by at most half a cell width downwards, or less than that upwards. |
| `Grid.CenterStaysExactly` | services/inference/scr/services/worker.py:156-171 | The truncated centre lies in its own square iff both sides meet that condition. |
| `Grid.MiddleReturnsExactly` | services/gsi_processor/scr/infra/formulas.py:23-23 | The truncated middle is encoded as its cell iff it stays in the cell or, for the first cell, falls less than a cell width below it. |
| `Grid.RoundTripExactly` | services/inference/scr/services/worker.py:156-171 | For every box with sides of at least 2: encoding the truncated centre of s gives s iff both sides return their cell. |
| `Grid.TruncatedMiddle` | services/inference/scr/services/worker.py:140-145 | In a cell at least 2 wide the truncated middle stays in the cell, on either side of zero. |
| `Grid.CenterRoundTrip` | services/inference/scr/services/worker.py:156-171 | Encoding the truncated centre of square s gives s, for every box whose sides are at least twice the number of cells. |
| `Grid.WorkerBoxRoundTrip` | services/inference/scr/services/worker.py:128-145 | With the worker's own bounds and up to 8500 cells a side every square returns. |
| `Grid.NarrowCellsDoNotRoundTrip` | services/inference/scr/services/worker.py:128-145 | With the worker's own bounds and 20000 cells a side square 0 comes back as square 20001. |
| `Heatmap.CandidateSquares` | services/inference/scr/services/worker.py:287-301 | Strictly ascending, and exactly the squares of the grid within row and column distance max(0, (interval - 1) // 2) of a valid centre; all squares with full_map; none for an invalid square without it. |
| `Heatmap.CandidatesExactly` | services/inference/scr/services/worker.py:287-301 | In whole numbers: without full_map a square is a candidate iff the double of its row distance and of its column distance to a valid centre are both below max(1, interval). |
| `Heatmap.WindowSquares` | services/inference/scr/services/worker.py:294-301 | The clipped double loop lists exactly the window in ascending order. |
| `Heatmap.Recalculate` | services/inference/scr/services/worker.py:303-345 | The copied features get the new place, the five distances to last seen places or 1000000, the least distance to an allied and to an enemy tower where there is one, and keep everything else. |
| `Heatmap.RecalculatedExactly` | services/inference/scr/services/worker.py:303-345 | Entry by entry: truncated x and y, the square, each slot's distance or 1000000, the least distance to a placed tower of team 2 for a radiant hero and team 3 for a dire one, the least to any other placed tower, the old values where there is none, and the rest unchanged. |
| `Heatmap.SeenAtUnique` | services/inference/scr/services/worker.py:303-345 | That description fits one feature dictionary only. |
| `Heatmap.Fill` | services/inference/scr/services/worker.py:185-193 | The table holds in each cell the prediction paired with its square, 0 without a pair; pairing stops at the shorter list. |
| `Heatmap.DrawHeatmap` | services/inference/scr/services/worker.py:147-194 | No table iff there is no candidate square; otherwise the table drawn from the candidates' features and the predictions, zeros if the predictor raises. |
| `Heatmap.CellsHoldPredictions` | services/inference/scr/services/worker.py:173-194 | Each candidate's cell holds its own prediction as far as there are predictions, every other cell 0; all cells 0 if the predictor raises. |
| `Heatmap.HeatmapIsPointwise` | services/inference/scr/services/worker.py:147-194 | With a predictor that judges rows one by one the whole table: a candidate's cell holds the judgement of the item's features with its towers and side as seen from its own centre, every other cell 0, whatever other squares are drawn. |
| `Heatmap.CentreFeaturesAgree` | services/inference/scr/services/worker.py:314-316 | The recomputed x, y and square agree: encoding the position gives the square. |
| `Flatten.FlattenMapping` | services/inference/scr/services/features.py:7-23 | The nested loops and recursive calls compute the function `Flat`. |
| `Flatten.SplitUnique` | services/inference/scr/services/features.py:10-10 | A dot-free token is determined by the text it begins. |
| `Flatten.JoinInjective` | services/inference/scr/services/features.py:10-16 | Different paths of dot-free tokens, list indices included, have different dotted forms. |
| `Flatten.LeafUnique` | services/inference/scr/services/features.py:9-22 | A path leads to one leaf. |
| `Numbers.DecimalUnique` | services/inference/scr/services/features.py:16-16 | A list index is printed as the one digit string of its value that has no leading zero. |
| `Flatten.FlatIsPaths` | services/inference/scr/services/features.py:7-23 | With nonempty dot-free keys, key k maps to a leaf iff k is the dotted form of a path to that leaf: nothing is lost, merged or invented. |
| `Flatten.FlatIsLastWins` | services/inference/scr/services/features.py:7-23 | For every dictionary, whatever its keys, the result is what the last write to each key leaves, and the writes are as many as the leaves. |
| `Flatten.SizeOfLastWins` | services/inference/scr/services/features.py:12-22 | Writing pairs into a dictionary loses none iff their keys are pairwise different. |
| `Flatten.NothingLostExactly` | services/inference/scr/services/features.py:7-23 | For every dictionary: as many entries as leaves iff the written keys are pairwise different, and then every leaf is kept under its key. |
| `Flatten.WellKeyedLosesNothing` | services/inference/scr/services/features.py:7-23 | Pairwise different, nonempty, dot-free keys in every opened dictionary are enough. |
| `Flatten.PathsStayApart` | services/inference/scr/services/features.py:7-23 | Leaves at different paths keep different keys. |
| `Flatten.DottedKeysMerge` | services/inference/scr/services/features.py:10-12 | For every nonempty text before and any text behind the dot: a dictionary with that dotted key loses a leaf. |
| `Flatten.EmptyKeysMerge` | services/inference/scr/services/features.py:10-10 | A dictionary with an empty key loses a leaf. |
| `InferenceStream.BuildBatch` | services/inference/scr/services/batch.py:12-33 | Exactly the buildable records become items, in order. |
| `InferenceStream.BetweenHolds` | services/inference/scr/infra/redis.py:68-74 | A read hands out exactly the stored entries of its id range, oldest first. |
| `InferenceStream.SelectHolds` | services/inference/scr/infra/redis.py:80-100 | Parsing keeps exactly the readable entries, in order. |
| `InferenceStream.ReadKeepsInv` | services/inference/scr/infra/redis.py:50-102 | A read, also one whose answer is lost, gives a worker only entries that no other worker holds and that have no result. |
| `InferenceStream.PushKeepsInv` | services/inference/scr/infra/redis.py:104-126 | Appending the next result keeps at most one result per entry, also if the push then raises. |
| `InferenceStream.AckKeepsInv` | services/inference/scr/infra/redis.py:136-150 | Acknowledging a finished batch keeps the invariant whether `xack` and `xdel` succeed or not. |
| `InferenceStream.InvPreserved` | services/inference/scr/services/worker.py:77-206 | Every step keeps the invariant. |
| `InferenceStream.EveryInterleaving` | services/inference/scr/services/worker.py:77-206 | In every interleaving of producers, trims, workers and failures: at most one result per entry, carrying the entry's record id and a value in [0, 1]; an acknowledged entry that became an item has its result appended; unreadable entries are never acknowledged. |
| `InferenceStream.EachGetsItsOwn` | services/inference/scr/services/worker.py:101-126 | If every prediction of a run is the judgement of the item it is made for, every result ever appended carries the judgement and the record id of its own entry. |
| `InferenceStream.AckClears` | services/inference/scr/infra/redis.py:136-150 | A successful acknowledgement clears exactly the worker's raw entries and leaves the others as they were. |
| `InferenceStream.NoSecondDelivery` | services/inference/scr/infra/redis.py:68-74 | A delivered entry that no worker holds and that has no result never gets one, in any continuation. |
| `InferenceStream.LosingMakesGone` | services/inference/scr/services/worker.py:77-206 | Each losing step (early trim, lost answer, failure, invalid prediction, raising push) leaves the entry gone: no result and nobody who could give one. |
| `InferenceStream.NotLostNotGone` | services/inference/scr/services/worker.py:77-206 | No other step makes an entry gone. |
| `InferenceStream.AnsweredUnlessLost` | services/inference/scr/services/worker.py:77-206 | Over every run that ends with every stored entry delivered and all workers idle: an appended buildable entry has a result iff no step of the run loses it. |
| `InferenceStream.FailureLosesAnEntry` | services/inference/scr/services/worker.py:100-206 | A run of one entry and one worker in which the entry is delivered and never answered. |
| `InferenceStream.CarefulRunAnswersAll` | services/inference/scr/services/worker.py:77-206 | If no step of the run loses a buildable entry: when every stored entry is delivered and the workers are idle, the entries with a result are exactly the buildable ones, each with one. |

## Left out

- JSON decoding, file reading and the catalogue files: a log is a sequence of decoded lines, a map a list of towers and trees.
- PostgreSQL: statement text, column mapping and transactions of `saveMatch`, and the enemy slots it fills per row by team slot.
- Panics inside `saveMatch` and `log.Fatal` in `main`, which end the whole process.
- Hero statistics, ability levels, the Black King Bar cooldown, team slots, positions and the item flags in the records of the general timeline; a record keeps the item list the flags are set from.
- float32 rounding: coordinates and times are exact reals, `int()` truncates toward zero.
- The square root in distances is an arbitrary function of the squared distance; nothing is said about its values.
- Heroes, which the code holds by reference, are values in a map, so aliasing between a source list and the map is not modelled; the code only reads the lists while the values it reads stay the same.
- FanOut: frames are reduced to match id and second, and the vision outputs share that type.
- Lower-casing covers ASCII letters only.
- Pipeline.EnabledStep: fairness of the Go scheduler is not modelled; the step bound makes it unnecessary for termination.
- InferenceStream: client-side retries and reconnects, loss or re-creation of the consumer group, and the heatmap key written beside the results are not part of the stream model; trims may drop any oldest part of either stream.
- InferenceStream.CarefulRunAnswersAll: results count as appended even when the output stream later trims them away.
- Heatmap: features are a record of the entries the recalculation touches and a map of the rest, not one string-keyed dictionary.
- CatBoost and scikit-learn models: a predictor is an arbitrary function that may raise or return any number of values.
- `services/gsi_processor/scr/services/process.py`, the BFF, the websocket loop, the front end, deployment files and notebooks: table lookups, plumbing and user interface without further state to reason about.
