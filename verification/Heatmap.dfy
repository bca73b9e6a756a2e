/** The heatmap of one inference item: the squares around the hero, the features recomputed for the centre of each
    square, one prediction per square and the grid filled with them. */
module Heatmap {
  import opened Numbers
  import opened Options
  import opened Sequences
  import opened Grid

  // ---------- which squares ----------

  /** The window reaches `Radius` rows and columns from the centre; Dafny's `/` rounds down like Python's `//` here. */
  function Radius(interval: int): nat {
    if (interval - 1) / 2 < 0 then 0 else (interval - 1) / 2
  }

  predicate ValidSquare(square: Option<int>, cells: nat) {
    square.Some? && 0 <= square.value < cells * cells
  }

  predicate Within(a: int, b: int, radius: nat) {
    a - radius <= b <= a + radius
  }

  datatype Centre = Centre(row: nat, col: nat)

  /** Square `s` of the grid lies within row and column distance `radius` of the centre. */
  predicate InWindow(centre: Centre, cells: nat, radius: nat, s: nat)
    requires cells > 0
  {
    s < cells * cells && Within(centre.row, s / cells, radius) && Within(centre.col, s % cells, radius)
  }

  /** A square that is to be predicted. */
  predicate IsCandidate(square: Option<int>, cells: nat, fullMap: bool, interval: int, s: nat) {
    s < cells * cells
    && (fullMap || (ValidSquare(square, cells)
                    && InWindow(Centre(square.value / cells, square.value % cells), cells, Radius(interval), s)))
  }

  function Apart(a: int, b: int): nat {
    if a < b then b - a else a - b
  }

  lemma WithinExactly(a: int, b: int, interval: int)
    ensures Within(a, b, Radius(interval)) <==> 2 * Apart(a, b) < Max(1, interval)
  {}

  /** The candidates in whole numbers: all squares with `fullMap`, else those whose row and whose column are less than
      half the interval from those of a valid square. */
  lemma CandidatesExactly(square: Option<int>, cells: nat, fullMap: bool, interval: int, s: nat)
    ensures IsCandidate(square, cells, fullMap, interval, s) <==>
              s < cells * cells
              && (fullMap || (square.Some? && 0 <= square.value < cells * cells
                              && 2 * Apart(s / cells, square.value / cells) < Max(1, interval)
                              && 2 * Apart(s % cells, square.value % cells) < Max(1, interval)))
  {
    if s < cells * cells && ValidSquare(square, cells) {
      WithinExactly(square.value / cells, s / cells, interval);
      WithinExactly(square.value % cells, s % cells, interval);
    }
  }

  /** `squares` lists, in ascending order, the window's squares below `bound`. */
  ghost predicate ListsWindow(squares: seq<nat>, window: set<nat>, bound: nat) {
    Increasing(squares) && forall s: nat :: s in squares <==> s < bound && s in window
  }

  /** Squares outside the window may be passed over. */
  lemma PassOver(squares: seq<nat>, window: set<nat>, from: nat, to: nat)
    requires from <= to && ListsWindow(squares, window, from)
    requires forall s | from <= s < to :: s !in window
    ensures ListsWindow(squares, window, to)
  {}

  lemma AppendNext(squares: seq<nat>, window: set<nat>, s: nat)
    requires ListsWindow(squares, window, s) && s in window
    ensures ListsWindow(squares + [s], window, s + 1)
  {
    AppendLarger(squares, s);
  }

  function Window(centre: Centre, cells: nat, radius: nat): set<nat>
    requires cells > 0
  {
    set s: nat | s < cells * cells && InWindow(centre, cells, radius, s)
  }

  /** Membership in the window along one of its rows. */
  lemma RowOfWindow(centre: Centre, cells: nat, radius: nat, row: nat)
    requires row < cells && Within(centre.row, row, radius)
    ensures forall s | row * cells <= s < row * cells + cells ::
              s in Window(centre, cells, radius) <==> Within(centre.col, s - row * cells, radius)
  {
    forall s | row * cells <= s < row * cells + cells
      ensures s in Window(centre, cells, radius) <==> Within(centre.col, s - row * cells, radius)
    {
      RowAndColumn(row, s - row * cells, cells);
    }
  }

  lemma RowBounds(s: nat, from: nat, to: nat, cells: nat)
    requires cells > 0 && from * cells <= s < to * cells
    ensures from <= s / cells < to
  {
    if s / cells < from {
      MulLe(s / cells + 1, from, cells);
    } else if s / cells >= to {
      MulLe(to, s / cells, cells);
    }
  }

  lemma RowsOutside(centre: Centre, cells: nat, radius: nat, from: nat, to: nat)
    requires cells > 0 && from <= to
    requires forall row: nat | from <= row < to :: !Within(centre.row, row, radius)
    ensures forall s: nat | from * cells <= s < to * cells :: s !in Window(centre, cells, radius)
  {
    forall s: nat | from * cells <= s < to * cells
      ensures s !in Window(centre, cells, radius)
    {
      RowBounds(s, from, to, cells);
    }
  }

  /** `_get_candidate_squares`. */
  method CandidateSquares(square: Option<int>, cells: nat, fullMap: bool, interval: int) returns (squares: seq<nat>)
    ensures Increasing(squares)
    ensures forall s: nat :: s in squares <==> IsCandidate(square, cells, fullMap, interval, s)
  {
    if square.None? || square.value < 0 || square.value >= cells * cells {
      if fullMap {
        squares := AllSquares(cells);
      } else {
        squares := [];
      }
      return;
    }
    if fullMap {
      squares := AllSquares(cells);
      return;
    }
    var radius := Max(0, (interval - 1) / 2);
    SquareInRange(square.value, cells);
    squares := WindowSquares(Centre(square.value / cells, square.value % cells), cells, radius);
  }

  method AllSquares(cells: nat) returns (squares: seq<nat>)
    ensures Increasing(squares) && forall s: nat :: s in squares <==> s < cells * cells
  {
    squares := [];
    for s := 0 to cells * cells
      invariant Increasing(squares) && forall t: nat :: t in squares <==> t < s
    {
      AppendLarger(squares, s);
      squares := squares + [s];
    }
  }

  lemma BeforeWindow(centre: Centre, cells: nat, radius: nat, top: nat)
    requires cells > 0 && top == Max(0, centre.row - radius)
    ensures BelowRow([], centre, cells, radius, top)
  {
    RowsOutside(centre, cells, radius, 0, top);
    MulLe(0, top, cells);
  }

  lemma AfterWindow(squares: seq<nat>, centre: Centre, cells: nat, radius: nat, bottom: nat)
    requires cells > 0 && bottom == Min(cells, centre.row + radius + 1)
    requires BelowRow(squares, centre, cells, radius, bottom)
    ensures forall s: nat :: s in squares <==> InWindow(centre, cells, radius, s)
  {
    RowsOutside(centre, cells, radius, bottom, cells);
    MulLe(bottom, cells, cells);
    PassOver(squares, Window(centre, cells, radius), bottom * cells, cells * cells);
  }

  lemma NextRow(row: nat, cells: nat)
    ensures 0 <= row * cells && (row + 1) * cells == row * cells + cells
  {}

  /** The double loop over the rows and columns around the centre. */
  method WindowSquares(centre: Centre, cells: nat, radius: nat) returns (squares: seq<nat>)
    requires centre.row < cells && centre.col < cells
    ensures Increasing(squares)
    ensures forall s: nat :: s in squares <==> InWindow(centre, cells, radius, s)
  {
    var top, bottom := Max(0, centre.row - radius), Min(cells, centre.row + radius + 1);
    squares := [];
    BeforeWindow(centre, cells, radius, top);
    for row := top to bottom
      invariant BelowRow(squares, centre, cells, radius, row)
    {
      squares := AddRow(squares, centre, cells, radius, row);
    }
    AfterWindow(squares, centre, cells, radius, bottom);
  }

  /** `squares` lists the window's squares of the rows below `row`. */
  ghost predicate BelowRow(squares: seq<nat>, centre: Centre, cells: nat, radius: nat, row: nat)
    requires cells > 0
  {
    0 <= row * cells && ListsWindow(squares, Window(centre, cells, radius), row * cells)
  }

  method AddRow(before: seq<nat>, centre: Centre, cells: nat, radius: nat, row: nat) returns (squares: seq<nat>)
    requires row < cells && centre.col < cells
    requires Within(centre.row, row, radius) && BelowRow(before, centre, cells, radius, row)
    ensures BelowRow(squares, centre, cells, radius, row + 1)
  {
    RowOfWindow(centre, cells, radius, row);
    NextRow(row, cells);
    squares := AddColumns(before, Window(centre, cells, radius), centre.col, cells, radius, row, row * cells);
  }

  /** The inner loop: the window's columns of one row, which begins at square `base`. */
  method AddColumns(before: seq<nat>, ghost window: set<nat>, centreCol: nat, cells: nat, radius: nat, row: nat,
                    ghost base: nat)
    returns (squares: seq<nat>)
    requires centreCol < cells && base == row * cells
    requires forall s | base <= s < base + cells :: s in window <==> Within(centreCol, s - base, radius)
    requires ListsWindow(before, window, base)
    ensures ListsWindow(squares, window, base + cells)
  {
    squares := before;
    var left, right := Max(0, centreCol - radius), Min(cells, centreCol + radius + 1);
    PassOver(squares, window, base, base + left);
    for col := left to right
      invariant ListsWindow(squares, window, base + col)
    {
      AppendNext(squares, window, base + col);
      squares := squares + [row * cells + col];
    }
    PassOver(squares, window, base + right, base + cells);
  }

  // ---------- the features of one square ----------

  /** A feature value; `Other` is anything that is not a number, `Missing` is no entry. */
  datatype Feature = Missing | Number(value: real) | Other(text: string)

  /** Where an enemy slot was last seen, and how far that is. */
  datatype LastSeen = LastSeen(x: Feature, y: Feature, distance: Feature)

  /** The feature dictionary: the entries the recalculation reads or writes, and all the others. */
  datatype Features = Features(x: Feature, y: Feature, square: Feature, enemies: seq<LastSeen>,
                               allyTower: Feature, enemyTower: Feature, rest: map<string, Feature>)

  datatype Tower = Tower(x: Feature, y: Feature, team: Feature)

  /** `euclidean_distance` for any distance function. */
  type Distance = (real, real, real, real) -> int

  const UNKNOWN_DISTANCE := 1000000.0

  function SeenFrom(dist: Distance, x: real, y: real, e: LastSeen): LastSeen {
    e.(distance := if e.x.Number? && e.y.Number? then Number(dist(x, y, e.x.value, e.y.value) as real)
                   else Number(UNKNOWN_DISTANCE))
  }

  predicate Placed(t: Tower) {
    t.x.Number? && t.y.Number?
  }

  /** A tower of team 2 is an ally of a radiant hero, one of team 3 of a dire hero; every other tower is an enemy's. */
  predicate Allied(t: Tower, isRadiant: bool) {
    t.team == Number(if isRadiant then 2.0 else 3.0)
  }

  /** The distances from a point to the placed towers of one side. */
  function TowerDistances(dist: Distance, x: real, y: real, towers: seq<Tower>, isRadiant: bool, allied: bool): set<int>
  {
    set t | t in towers && Placed(t) && Allied(t, isRadiant) == allied :: dist(x, y, t.x.value, t.y.value)
  }

  predicate IsLeast(d: int, s: set<int>) {
    d in s && forall e | e in s :: d <= e
  }

  /** The least distance, or the old entry if there is no distance. */
  predicate NearestOr(f: Feature, distances: set<int>, old_: Feature) {
    if distances == {} then f == old_ else exists d | d in distances :: IsLeast(d, distances) && f == Number(d as real)
  }

  /** `f` is `base` seen from the point `(x, y)` in `square`. */
  predicate SeenAt(dist: Distance, base: Features, x: real, y: real, square: nat, towers: seq<Tower>, isRadiant: bool,
                   f: Features)
  {
    && f.x == Number(Trunc(x) as real) && f.y == Number(Trunc(y) as real) && f.square == Number(square as real)
    && f.enemies == seq(|base.enemies|, i requires 0 <= i < |base.enemies| => SeenFrom(dist, x, y, base.enemies[i]))
    && NearestOr(f.allyTower, TowerDistances(dist, x, y, towers, isRadiant, true), base.allyTower)
    && NearestOr(f.enemyTower, TowerDistances(dist, x, y, towers, isRadiant, false), base.enemyTower)
    && f.rest == base.rest
  }

  lemma SeenAtUnique(dist: Distance, base: Features, x: real, y: real, square: nat, towers: seq<Tower>, isRadiant: bool,
                     f: Features, g: Features)
    requires SeenAt(dist, base, x, y, square, towers, isRadiant, f)
    requires SeenAt(dist, base, x, y, square, towers, isRadiant, g)
    ensures f == g
  {}

  /** `d` is the distance from (x, y) to a placed tower that is of the hero's own team or not, as wanted: team 2 for a
      radiant hero, team 3 for a dire one. */
  predicate TowerAt(dist: Distance, x: real, y: real, towers: seq<Tower>, isRadiant: bool, own: bool, d: int) {
    exists i | 0 <= i < |towers| ::
      && towers[i].x.Number? && towers[i].y.Number?
      && (towers[i].team == Number(if isRadiant then 2.0 else 3.0) <==> own)
      && d == dist(x, y, towers[i].x.value, towers[i].y.value)
  }

  /** The least of these distances, or the old value if there is none. */
  ghost predicate TakesNearest(dist: Distance, x: real, y: real, towers: seq<Tower>, isRadiant: bool, own: bool,
                               before: Feature, after: Feature)
  {
    || (after == before && forall d :: !TowerAt(dist, x, y, towers, isRadiant, own, d))
    || exists d :: && TowerAt(dist, x, y, towers, isRadiant, own, d) && after == Number(d as real)
                   && forall e | TowerAt(dist, x, y, towers, isRadiant, own, e) :: d <= e
  }

  lemma TowersListed(dist: Distance, x: real, y: real, towers: seq<Tower>, isRadiant: bool, own: bool, d: int)
    ensures d in TowerDistances(dist, x, y, towers, isRadiant, own) <==> TowerAt(dist, x, y, towers, isRadiant, own, d)
  {
    if TowerAt(dist, x, y, towers, isRadiant, own, d) {
      var i :| && 0 <= i < |towers| && towers[i].x.Number? && towers[i].y.Number?
               && (towers[i].team == Number(if isRadiant then 2.0 else 3.0) <==> own)
               && d == dist(x, y, towers[i].x.value, towers[i].y.value);
      assert towers[i] in towers && Placed(towers[i]) && Allied(towers[i], isRadiant) == own;
    }
  }

  lemma NearestListed(dist: Distance, x: real, y: real, towers: seq<Tower>, isRadiant: bool, own: bool, before: Feature,
                      after: Feature)
    requires NearestOr(after, TowerDistances(dist, x, y, towers, isRadiant, own), before)
    ensures TakesNearest(dist, x, y, towers, isRadiant, own, before, after)
  {
    forall d
      ensures d in TowerDistances(dist, x, y, towers, isRadiant, own)
              <==> TowerAt(dist, x, y, towers, isRadiant, own, d)
    {
      TowersListed(dist, x, y, towers, isRadiant, own, d);
    }
  }

  /** The recalculation entry by entry. */
  lemma RecalculatedExactly(dist: Distance, base: Features, x: real, y: real, square: nat, towers: seq<Tower>,
                            isRadiant: bool, f: Features)
    requires SeenAt(dist, base, x, y, square, towers, isRadiant, f)
    ensures f.x == Number(Trunc(x) as real) && f.y == Number(Trunc(y) as real) && f.square == Number(square as real)
    ensures |f.enemies| == |base.enemies| && f.rest == base.rest
    ensures forall i | 0 <= i < |base.enemies| ::
              && f.enemies[i].x == base.enemies[i].x && f.enemies[i].y == base.enemies[i].y
              && f.enemies[i].distance ==
                   if base.enemies[i].x.Number? && base.enemies[i].y.Number?
                   then Number(dist(x, y, base.enemies[i].x.value, base.enemies[i].y.value) as real)
                   else Number(1000000.0)
    ensures TakesNearest(dist, x, y, towers, isRadiant, true, base.allyTower, f.allyTower)
    ensures TakesNearest(dist, x, y, towers, isRadiant, false, base.enemyTower, f.enemyTower)
  {
    NearestListed(dist, x, y, towers, isRadiant, true, base.allyTower, f.allyTower);
    NearestListed(dist, x, y, towers, isRadiant, false, base.enemyTower, f.enemyTower);
  }

  /** `_recalculate_distance_features`. */
  method Recalculate(dist: Distance, base: Features, x: real, y: real, square: nat, towers: seq<Tower>, isRadiant: bool)
    returns (features: Features)
    ensures SeenAt(dist, base, x, y, square, towers, isRadiant, features)
  {
    features := base.(x := Number(Trunc(x) as real), y := Number(Trunc(y) as real), square := Number(square as real));
    for i := 0 to |features.enemies|
      invariant |features.enemies| == |base.enemies|
      invariant features == base.(x := features.x, y := features.y, square := features.square,
                                  enemies := features.enemies)
      invariant features.x == Number(Trunc(x) as real) && features.y == Number(Trunc(y) as real)
      invariant features.square == Number(square as real)
      invariant forall k | 0 <= k < |base.enemies| ::
                  features.enemies[k] == if k < i then SeenFrom(dist, x, y, base.enemies[k]) else base.enemies[k]
    {
      features := features.(enemies := features.enemies[i := SeenFrom(dist, x, y, features.enemies[i])]);
    }
    var ally := NearestTower(dist, x, y, towers, isRadiant, true);
    var enemy := NearestTower(dist, x, y, towers, isRadiant, false);
    if ally.Some? {
      features := features.(allyTower := Number(ally.value as real));
    }
    if enemy.Some? {
      features := features.(enemyTower := Number(enemy.value as real));
    }
  }

  /** The placed towers of one side are collected and the least of their distances is taken. */
  method NearestTower(dist: Distance, x: real, y: real, towers: seq<Tower>, isRadiant: bool, allied: bool)
    returns (nearest: Option<int>)
    ensures (var distances := TowerDistances(dist, x, y, towers, isRadiant, allied);
             if nearest.None? then distances == {} else IsLeast(nearest.value, distances))
  {
    nearest := None;
    for i := 0 to |towers|
      invariant (var distances := TowerDistances(dist, x, y, towers[..i], isRadiant, allied);
                 if nearest.None? then distances == {} else IsLeast(nearest.value, distances))
    {
      var t := towers[i];
      assert towers[..i + 1] == towers[..i] + [t];
      OneMoreTower(dist, x, y, towers[..i], t, isRadiant, allied);
      if Placed(t) && Allied(t, isRadiant) == allied {
        var d := dist(x, y, t.x.value, t.y.value);
        if nearest.None? || d < nearest.value {
          nearest := Some(d);
        }
      }
    }
    assert towers[..|towers|] == towers;
  }

  lemma OneMoreTower(dist: Distance, x: real, y: real, towers: seq<Tower>, t: Tower, isRadiant: bool, allied: bool)
    ensures TowerDistances(dist, x, y, towers + [t], isRadiant, allied) ==
            TowerDistances(dist, x, y, towers, isRadiant, allied) +
            if Placed(t) && Allied(t, isRadiant) == allied then {dist(x, y, t.x.value, t.y.value)} else {}
  {}

  // ---------- the fill ----------

  type Table = seq<seq<real>>

  predicate Shaped(table: Table, cells: nat) {
    |table| == cells && forall r | 0 <= r < cells :: |table[r]| == cells
  }

  /** The prediction paired with square `s`: the last pair counts, a square without a pair has none. */
  function Paired(squares: seq<nat>, preds: seq<real>, s: nat): real
    requires |squares| == |preds|
  {
    if squares == [] then 0.0
    else if squares[|squares| - 1] == s then preds[|preds| - 1]
    else Paired(squares[..|squares| - 1], preds[..|preds| - 1], s)
  }

  lemma {:induction false} UnpairedIsZero(squares: seq<nat>, preds: seq<real>, s: nat)
    requires |squares| == |preds| && s !in squares
    ensures Paired(squares, preds, s) == 0.0
  {
    if squares != [] {
      UnpairedIsZero(squares[..|squares| - 1], preds[..|squares| - 1], s);
    }
  }

  lemma {:induction false} PairedAt(squares: seq<nat>, preds: seq<real>, k: nat)
    requires Increasing(squares) && |squares| == |preds| && k < |squares|
    ensures Paired(squares, preds, squares[k]) == preds[k]
  {
    var n := |squares| - 1;
    if k < n {
      PairedAt(squares[..n], preds[..n], k);
    }
  }

  predicate Filled(table: Table, cells: nat, squares: seq<nat>, preds: seq<real>)
    requires |squares| == |preds|
  {
    && Shaped(table, cells)
    && forall r: nat, c: nat | r < cells && c < cells :: table[r][c] == Paired(squares, preds, r * cells + c)
  }

  /** `zip` stops at the shorter list; squares off the grid are passed over. */
  method Fill(cells: nat, squares: seq<nat>, preds: seq<real>) returns (table: Table)
    ensures (var n := Min(|squares|, |preds|); Filled(table, cells, squares[..n], preds[..n]))
  {
    table := seq(cells, r => seq(cells, c => 0.0));
    var n := Min(|squares|, |preds|);
    for k := 0 to n
      invariant Filled(table, cells, squares[..k], preds[..k])
    {
      assert squares[..k + 1][..k] == squares[..k] && preds[..k + 1][..k] == preds[..k];
      table := Put(cells, table, squares[k], preds[k], squares[..k], preds[..k]);
      assert squares[..k + 1] == squares[..k] + [squares[k]] && preds[..k + 1] == preds[..k] + [preds[k]];
    }
  }

  method Put(cells: nat, before: Table, s: nat, pred: real, ghost squares: seq<nat>, ghost preds: seq<real>)
    returns (table: Table)
    requires |squares| == |preds| && Filled(before, cells, squares, preds)
    ensures Filled(table, cells, squares + [s], preds + [pred])
  {
    table := before;
    if s < cells * cells {
      SquareInRange(s, cells);
      var r, c := s / cells, s % cells;
      table := table[r := table[r][c := pred]];
    }
    forall i: nat, j: nat | i < cells && j < cells
      ensures table[i][j] == Paired(squares + [s], preds + [pred], i * cells + j)
    {
      RowAndColumn(i, j, cells);
      assert (squares + [s])[..|squares|] == squares && (preds + [pred])[..|preds|] == preds;
    }
  }

  // ---------- the heatmap of an item ----------

  /** A predictor gives probabilities for rows of features, or raises. */
  type Predictor = seq<Features> -> Option<seq<real>>

  /** What `process_once` knows about an item. */
  datatype Item = Item(square: Option<int>, features: Features, towers: seq<Tower>, isRadiant: bool)

  datatype Config = Config(fullMap: bool, interval: int)

  predicate Wanted(b: Box, item: Item, config: Config, s: nat) {
    IsCandidate(item.square, b.cells, config.fullMap, config.interval, s)
  }

  /** The features of the item as seen from the centre of square `s`. */
  predicate SeenFromCentre(dist: Distance, b: Box, item: Item, s: nat, f: Features)
    requires Proper(b)
  {
    var (x, y) := CellCenter(b, s);
    SeenAt(dist, item.features, x, y, s, item.towers, item.isRadiant, f)
  }

  /** The candidate squares in order, with the features of each. */
  ghost predicate Prepared(dist: Distance, b: Box, item: Item, config: Config, squares: seq<nat>, rows: seq<Features>)
    requires Proper(b)
  {
    && Increasing(squares) && (forall s: nat :: s in squares <==> Wanted(b, item, config, s))
    && |rows| == |squares| && forall k | 0 <= k < |rows| :: SeenFromCentre(dist, b, item, squares[k], rows[k])
  }

  /** The predictions used: a predictor that raises counts as predicting 0 everywhere. */
  function Predictions(predict: Predictor, rows: seq<Features>): seq<real> {
    if predict(rows).Some? then predict(rows).value else seq(|rows|, i => 0.0)
  }

  /** The table holds the predictions for the prepared squares. */
  ghost predicate Drawn(predict: Predictor, dist: Distance, b: Box, item: Item, config: Config, table: Table)
    requires Proper(b)
  {
    exists squares, rows :: DrawnFrom(predict, dist, b, item, config, table, squares, rows)
  }

  ghost predicate DrawnFrom(predict: Predictor, dist: Distance, b: Box, item: Item, config: Config, table: Table,
                            squares: seq<nat>, rows: seq<Features>)
    requires Proper(b)
  {
    var preds := Predictions(predict, rows);
    var n := Min(|squares|, |preds|);
    Prepared(dist, b, item, config, squares, rows) && Filled(table, b.cells, squares[..n], preds[..n])
  }

  /** The heatmap part of `process_once`; without a candidate square no heatmap is written. */
  method DrawHeatmap(predict: Predictor, dist: Distance, b: Box, item: Item, config: Config)
    returns (table: Option<Table>)
    requires Proper(b)
    ensures table.None? <==> forall s: nat :: !IsCandidate(item.square, b.cells, config.fullMap, config.interval, s)
    ensures table.Some? ==> Drawn(predict, dist, b, item, config, table.value)
  {
    var squares := CandidateSquares(item.square, b.cells, config.fullMap, config.interval);
    var rows := [];
    for k := 0 to |squares|
      invariant |rows| == k && forall j | 0 <= j < k :: SeenFromCentre(dist, b, item, squares[j], rows[j])
    {
      var (x, y) := CellCenter(b, squares[k]);
      var f := Recalculate(dist, item.features, x, y, squares[k], item.towers, item.isRadiant);
      rows := rows + [f];
    }
    if rows == [] {
      return None;
    }
    assert squares[0] in squares;
    var t := Fill(b.cells, squares, Predictions(predict, rows));
    assert DrawnFrom(predict, dist, b, item, config, t, squares, rows);
    table := Some(t);
  }

  /** The cell of square `s` holds `p`. */
  predicate SquareHolds(cells: nat, table: Table, s: nat, p: real) {
    && cells > 0 && s / cells < |table| && s % cells < |table[s / cells]|
    && table[s / cells][s % cells] == p
  }

  /** The cell of a square on the grid holds the prediction paired with the square. */
  lemma HoldsPaired(cells: nat, table: Table, squares: seq<nat>, preds: seq<real>, s: nat)
    requires |squares| == |preds| && Filled(table, cells, squares, preds) && s < cells * cells
    ensures SquareHolds(cells, table, s, Paired(squares, preds, s))
  {
    SquareInRange(s, cells);
    SquareSplits(s, cells);
    CellHoldsPaired(cells, table, squares, preds, s / cells, s % cells, s);
  }

  lemma CellHoldsPaired(cells: nat, table: Table, squares: seq<nat>, preds: seq<real>, r: nat, c: nat, s: nat)
    requires |squares| == |preds| && Filled(table, cells, squares, preds)
    requires r < cells && c < cells && s == r * cells + c
    ensures r < |table| && c < |table[r]| && table[r][c] == Paired(squares, preds, s)
  {}

  /** Every square of a list of squares on the grid holds its prediction and every other square holds 0. */
  lemma AllHeld(cells: nat, table: Table, squares: seq<nat>, preds: seq<real>)
    requires Increasing(squares) && |squares| == |preds| && Filled(table, cells, squares, preds)
    requires forall s | s in squares :: s < cells * cells
    ensures forall k | 0 <= k < |squares| :: SquareHolds(cells, table, squares[k], preds[k])
    ensures forall s: nat | s < cells * cells && s !in squares :: SquareHolds(cells, table, s, 0.0)
  {
    forall k | 0 <= k < |squares|
      ensures SquareHolds(cells, table, squares[k], preds[k])
    {
      assert squares[k] in squares;
      HoldsPaired(cells, table, squares, preds, squares[k]);
      PairedAt(squares, preds, k);
    }
    forall s: nat | s < cells * cells && s !in squares
      ensures SquareHolds(cells, table, s, 0.0)
    {
      HoldsPaired(cells, table, squares, preds, s);
      UnpairedIsZero(squares, preds, s);
    }
  }

  /** Squares and predictions meet one to one up to the shorter list; every other square has 0. */
  predicate Zipped(cells: nat, table: Table, squares: seq<nat>, preds: seq<real>) {
    && (forall k | 0 <= k < |squares| && k < |preds| :: SquareHolds(cells, table, squares[k], preds[k]))
    && forall s: nat | s < cells * cells && s !in squares[..Min(|squares|, |preds|)] ::
         SquareHolds(cells, table, s, 0.0)
  }

  lemma FilledIsZipped(cells: nat, table: Table, squares: seq<nat>, preds: seq<real>)
    requires Increasing(squares) && forall s | s in squares :: s < cells * cells
    requires var n := Min(|squares|, |preds|); Filled(table, cells, squares[..n], preds[..n])
    ensures Zipped(cells, table, squares, preds)
  {
    var n := Min(|squares|, |preds|);
    assert forall s | s in squares[..n] :: s in squares;
    AllHeld(cells, table, squares[..n], preds[..n]);
    forall k | 0 <= k < |squares| && k < |preds|
      ensures SquareHolds(cells, table, squares[k], preds[k])
    {
      assert squares[..n][k] == squares[k] && preds[..n][k] == preds[k];
    }
  }

  lemma ZeroesEverywhere(cells: nat, table: Table, squares: seq<nat>, preds: seq<real>, s: nat)
    requires Zipped(cells, table, squares, preds) && s < cells * cells
    requires forall k | 0 <= k < |preds| :: preds[k] == 0.0
    ensures SquareHolds(cells, table, s, 0.0)
  {
    var n := Min(|squares|, |preds|);
    if s in squares[..n] {
      var k :| 0 <= k < n && squares[..n][k] == s;
      assert SquareHolds(cells, table, squares[k], preds[k]);
    }
  }

  /** Each cell of a candidate square holds that square's prediction, as far as there are predictions, and every other
      cell holds 0; all cells hold 0 if the predictor raises. */
  lemma CellsHoldPredictions(predict: Predictor, dist: Distance, b: Box, item: Item, config: Config, table: Table,
                             squares: seq<nat>, rows: seq<Features>)
    requires Proper(b) && DrawnFrom(predict, dist, b, item, config, table, squares, rows)
    ensures predict(rows).Some? ==> Zipped(b.cells, table, squares, predict(rows).value)
    ensures predict(rows).None? ==> forall s: nat | s < b.cells * b.cells :: SquareHolds(b.cells, table, s, 0.0)
    ensures forall s: nat | s < b.cells * b.cells && !Wanted(b, item, config, s) :: SquareHolds(b.cells, table, s, 0.0)
  {
    var preds := Predictions(predict, rows);
    FilledIsZipped(b.cells, table, squares, preds);
    if predict(rows).None? {
      forall s: nat | s < b.cells * b.cells
        ensures SquareHolds(b.cells, table, s, 0.0)
      {
        ZeroesEverywhere(b.cells, table, squares, preds, s);
      }
    }
    forall s: nat | s < b.cells * b.cells && !Wanted(b, item, config, s)
      ensures SquareHolds(b.cells, table, s, 0.0)
    {
      assert s !in squares;
    }
  }

  /** A predictor that judges each row by itself. */
  ghost predicate RowByRow(predict: Predictor, judge: Features -> real) {
    forall rows :: predict(rows) == Some(seq(|rows|, i requires 0 <= i < |rows| => judge(rows[i])))
  }

  /** The whole heatmap of a row-by-row predictor: a candidate's cell holds the judgement of the item's features, with
      the item's towers and side, as seen from the centre of the square; every other cell holds 0.  Which other squares
      are drawn makes no difference. */
  lemma HeatmapIsPointwise(predict: Predictor, judge: Features -> real, dist: Distance, b: Box, item: Item,
                           config: Config, table: Table, s: nat, f: Features)
    requires Proper(b) && RowByRow(predict, judge) && Drawn(predict, dist, b, item, config, table)
    requires s < b.cells * b.cells
    requires var (x, y) := CellCenter(b, s); SeenAt(dist, item.features, x, y, s, item.towers, item.isRadiant, f)
    ensures SquareHolds(b.cells, table, s,
                        if IsCandidate(item.square, b.cells, config.fullMap, config.interval, s) then judge(f) else 0.0)
  {
    var squares, rows :| DrawnFrom(predict, dist, b, item, config, table, squares, rows);
    CellsHoldPredictions(predict, dist, b, item, config, table, squares, rows);
    if Wanted(b, item, config, s) {
      var k :| 0 <= k < |squares| && squares[k] == s;
      var (x, y) := CellCenter(b, s);
      SeenAtUnique(dist, item.features, x, y, s, item.towers, item.isRadiant, rows[k], f);
    }
  }

  /** The recomputed position lies in the recomputed square, as the GSI processor would encode it. */
  lemma CentreFeaturesAgree(dist: Distance, b: Box, item: Item, s: nat, f: Features)
    requires Proper(b) && s < b.cells * b.cells && SeenFromCentre(dist, b, item, s, f)
    requires b.xmax - b.xmin >= 2.0 * b.cells as real && b.ymax - b.ymin >= 2.0 * b.cells as real
    ensures f.x.Number? && f.y.Number? && f.square == Number(CellId(b, f.x.value, f.y.value) as real)
  {
    CenterRoundTrip(b, s);
  }
}
