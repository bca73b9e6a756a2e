/** Trees that block sight.  Trees are stored in buckets of a square grid; a sight line is checked only against the
    buckets around it.  Coordinates are exact reals. */
module Trees {
  import opened Numbers

  const X_MIN := -9400.0
  const X_MAX := 8000.0
  const Y_MIN := -8500.0
  const Y_MAX := 8500.0
  const TREE_CELL := 512.0
  const BLOCK_RADIUS := 100.0

  datatype Tree = Tree(x: real, y: real)

  function Sq(a: real): real {
    a * a
  }

  function MinF(a: real, b: real): real {
    if a < b then a else b
  }

  function MaxF(a: real, b: real): real {
    if a > b then a else b
  }

  function CellX(x: real): int {
    Trunc((x - X_MIN) / TREE_CELL)
  }

  function CellY(y: real): int {
    Trunc((y - Y_MIN) / TREE_CELL)
  }

  /** The bucket number of a cell.  Cells outside the map may share a number with cells inside. */
  function Bucket(gx: int, gy: int): int {
    gx * (Trunc((Y_MAX - Y_MIN) / TREE_CELL) + 1) + gy
  }

  /** `getTreeGridIdx`. */
  function TreeGridIdx(t: Tree): int {
    Bucket(CellX(t.x), CellY(t.y))
  }

  // ---------- one tree and one segment ----------

  /** The position of the foot of the perpendicular along the segment, 0 at its start and 1 at its end. */
  function Along(px: real, py: real, x1: real, y1: real, x2: real, y2: real): real
    requires Sq(x2 - x1) + Sq(y2 - y1) != 0.0
  {
    ((px - x1) * (x2 - x1) + (py - y1) * (y2 - y1)) / (Sq(x2 - x1) + Sq(y2 - y1))
  }

  lemma PositiveSquare(a: real)
    requires a > 0.0
    ensures Sq(a) > 0.0
  {
    calc {
      Sq(a);
      a * a;
    > { MulPositive(a, a); }
      0.0;
    }
  }

  lemma SquareSign(a: real)
    ensures Sq(a) >= 0.0
    ensures a != 0.0 ==> Sq(a) > 0.0
  {
    if a > 0.0 {
      PositiveSquare(a);
    } else if a < 0.0 {
      PositiveSquare(-a);
      assert Sq(-a) == Sq(a);
    }
  }

  lemma SegmentHasLength(dx: real, dy: real)
    ensures dx == 0.0 && dy == 0.0 <==> Sq(dx) + Sq(dy) == 0.0
    ensures Sq(dx) + Sq(dy) >= 0.0
  {
    SquareSign(dx);
    SquareSign(dy);
  }

  /** The point at position `t` of the segment is on it and closer to (px, py) than `threshold`. */
  predicate CloseAt(px: real, py: real, x1: real, y1: real, x2: real, y2: real, t: real, threshold: real) {
    0.0 <= t <= 1.0
    && Sq(px - (x1 + t * (x2 - x1))) + Sq(py - (y1 + t * (y2 - y1))) < Sq(threshold)
  }

  /** `isPointNearSegment`: the foot of the perpendicular lies on the segment, closer than `threshold`. */
  predicate IsPointNearSegment(px: real, py: real, x1: real, y1: real, x2: real, y2: real, threshold: real) {
    SegmentHasLength(x2 - x1, y2 - y1);
    if x2 - x1 == 0.0 && y2 - y1 == 0.0 then false
    else
      CloseAt(px, py, x1, y1, x2, y2, Along(px, py, x1, y1, x2, y2), threshold)
  }

  predicate Near(tree: Tree, x1: real, y1: real, x2: real, y2: real) {
    IsPointNearSegment(tree.x, tree.y, x1, y1, x2, y2, BLOCK_RADIUS)
  }

  // ---------- what it means to block ----------

  /** The point at position `t` of the segment, 0 at its start and 1 at its end, is the foot of the perpendicular from
      (px, py). */
  predicate IsFoot(px: real, py: real, x1: real, y1: real, x2: real, y2: real, t: real) {
    (px - x1) * (x2 - x1) + (py - y1) * (y2 - y1) == t * ((x2 - x1) * (x2 - x1) + (y2 - y1) * (y2 - y1))
  }

  /** The point at position `t` is closer to (px, py) than 100. */
  predicate IsWithinReach(px: real, py: real, x1: real, y1: real, x2: real, y2: real, t: real) {
    var (dx, dy) := (px - (x1 + t * (x2 - x1)), py - (y1 + t * (y2 - y1)));
    dx * dx + dy * dy < 10000.0
  }

  /** The tree blocks the segment: the ends differ, and the foot of the perpendicular from the tree lies on the segment,
      closer than 100. */
  ghost predicate Blocks(tree: Tree, x1: real, y1: real, x2: real, y2: real) {
    && !(x1 == x2 && y1 == y2)
    && exists t: real ::
         && IsFoot(tree.x, tree.y, x1, y1, x2, y2, t) && 0.0 <= t <= 1.0
         && IsWithinReach(tree.x, tree.y, x1, y1, x2, y2, t)
  }

  lemma FootUnique(n: real, d: real, t: real)
    requires d > 0.0
    ensures n == t * d <==> t == n / d
  {
    DivTimes(n, d);
    if n == t * d {
      CancelEq(t, n / d, d);
    }
  }

  lemma FootIsAlong(px: real, py: real, x1: real, y1: real, x2: real, y2: real, t: real)
    requires !(x2 - x1 == 0.0 && y2 - y1 == 0.0)
    ensures Sq(x2 - x1) + Sq(y2 - y1) > 0.0
    ensures IsFoot(px, py, x1, y1, x2, y2, t) <==> t == Along(px, py, x1, y1, x2, y2)
  {
    SegmentHasLength(x2 - x1, y2 - y1);
    FootUnique((px - x1) * (x2 - x1) + (py - y1) * (y2 - y1), Sq(x2 - x1) + Sq(y2 - y1), t);
  }

  lemma ReachExactly(px: real, py: real, x1: real, y1: real, x2: real, y2: real, t: real)
    ensures CloseAt(px, py, x1, y1, x2, y2, t, BLOCK_RADIUS) <==>
            0.0 <= t <= 1.0 && IsWithinReach(px, py, x1, y1, x2, y2, t)
  {}

  lemma OnlyFoot(px: real, py: real, x1: real, y1: real, x2: real, y2: real)
    requires !(x2 - x1 == 0.0 && y2 - y1 == 0.0)
    ensures Sq(x2 - x1) + Sq(y2 - y1) > 0.0
    ensures forall t :: IsFoot(px, py, x1, y1, x2, y2, t) <==> t == Along(px, py, x1, y1, x2, y2)
  {
    SegmentHasLength(x2 - x1, y2 - y1);
    forall t
      ensures IsFoot(px, py, x1, y1, x2, y2, t) <==> t == Along(px, py, x1, y1, x2, y2)
    {
      FootIsAlong(px, py, x1, y1, x2, y2, t);
    }
  }

  /** The code's test decides exactly that. */
  lemma NearExactly(tree: Tree, x1: real, y1: real, x2: real, y2: real)
    ensures Near(tree, x1, y1, x2, y2) <==> Blocks(tree, x1, y1, x2, y2)
  {
    if !(x2 - x1 == 0.0 && y2 - y1 == 0.0) {
      OnlyFoot(tree.x, tree.y, x1, y1, x2, y2);
      NearAtFoot(tree.x, tree.y, x1, y1, x2, y2, Along(tree.x, tree.y, x1, y1, x2, y2));
      ReachExactly(tree.x, tree.y, x1, y1, x2, y2, Along(tree.x, tree.y, x1, y1, x2, y2));
      assert IsFoot(tree.x, tree.y, x1, y1, x2, y2, Along(tree.x, tree.y, x1, y1, x2, y2));
    }
  }

  lemma NearAtFoot(px: real, py: real, x1: real, y1: real, x2: real, y2: real, t: real)
    requires Sq(x2 - x1) + Sq(y2 - y1) > 0.0 && t == Along(px, py, x1, y1, x2, y2)
    requires !(x2 - x1 == 0.0 && y2 - y1 == 0.0)
    ensures IsPointNearSegment(px, py, x1, y1, x2, y2, BLOCK_RADIUS)
            <==> CloseAt(px, py, x1, y1, x2, y2, t, BLOCK_RADIUS)
  {}

  // ---------- symmetry ----------

  lemma AlongReversed(px: real, py: real, x1: real, y1: real, x2: real, y2: real)
    requires Sq(x2 - x1) + Sq(y2 - y1) != 0.0
    ensures Sq(x1 - x2) + Sq(y1 - y2) != 0.0
    ensures Along(px, py, x2, y2, x1, y1) == 1.0 - Along(px, py, x1, y1, x2, y2)
  {
    var dx, dy := x2 - x1, y2 - y1;
    var d := Sq(dx) + Sq(dy);
    SegmentHasLength(dx, dy);
    assert Sq(x1 - x2) == Sq(dx) && Sq(y1 - y2) == Sq(dy);
    var n := (px - x1) * dx + (py - y1) * dy;
    var n' := (px - x2) * (x1 - x2) + (py - y2) * (y1 - y2);
    Reversed(px - x1, dx);
    Reversed(py - y1, dy);
    assert x1 - x2 == -dx && y1 - y2 == -dy && px - x2 == (px - x1) - dx && py - y2 == (py - y1) - dy;
    Complement(n, n', d);
  }

  lemma Reversed(u: real, d: real)
    ensures (u - d) * (-d) == Sq(d) - u * d
  {}

  lemma Complement(n: real, n': real, d: real)
    requires d > 0.0 && n + n' == d
    ensures n' / d == 1.0 - n / d
  {
    DivTimes(n, d);
    DivTimes(n', d);
    Distribute(n / d, n' / d, d);
    CancelEq(n / d + n' / d, 1.0, d);
  }

  lemma CloseAtReversed(px: real, py: real, x1: real, y1: real, x2: real, y2: real, t: real, threshold: real)
    ensures CloseAt(px, py, x2, y2, x1, y1, 1.0 - t, threshold) <==> CloseAt(px, py, x1, y1, x2, y2, t, threshold)
  {}

  /** Nearness does not depend on the direction of the segment. */
  lemma NearSymmetric(tree: Tree, x1: real, y1: real, x2: real, y2: real)
    ensures Near(tree, x1, y1, x2, y2) <==> Near(tree, x2, y2, x1, y1)
  {
    SegmentHasLength(x2 - x1, y2 - y1);
    SegmentHasLength(x1 - x2, y1 - y2);
    if Sq(x2 - x1) + Sq(y2 - y1) != 0.0 {
      var t := Along(tree.x, tree.y, x1, y1, x2, y2);
      AlongReversed(tree.x, tree.y, x1, y1, x2, y2);
      CloseAtReversed(tree.x, tree.y, x1, y1, x2, y2, t, BLOCK_RADIUS);
    }
  }

  /** A point of a segment lies between the ends along each axis. */
  lemma Between(a: real, b: real, t: real)
    requires 0.0 <= t <= 1.0
    ensures MinF(a, b) <= a + Times(t, b - a) <= MaxF(a, b)
  {
    if a <= b {
      MulFraction(t, b - a);
    } else {
      MulFraction(t, a - b);
      TimesOpposite(t, a - b);
      assert -(a - b) == b - a;
    }
  }

  lemma TimesOpposite(t: real, d: real)
    ensures Times(t, -d) == -Times(t, d)
  {}

  lemma SmallSquares(a: real, b: real, r: real)
    requires r > 0.0 && Sq(a) + Sq(b) < Sq(r)
    ensures -r < a < r && -r < b < r
  {}

  lemma CloseAtInPaddedBox(px: real, py: real, x1: real, y1: real, x2: real, y2: real, t: real, threshold: real)
    requires threshold > 0.0 && CloseAt(px, py, x1, y1, x2, y2, t, threshold)
    ensures MinF(x1, x2) - threshold <= px <= MaxF(x1, x2) + threshold
    ensures MinF(y1, y2) - threshold <= py <= MaxF(y1, y2) + threshold
  {
    Between(x1, x2, t);
    Between(y1, y2, t);
    SmallSquares(px - (x1 + t * (x2 - x1)), py - (y1 + t * (y2 - y1)), threshold);
  }

  /** A near tree lies inside the segment's bounding box widened by the block radius. */
  lemma NearInPaddedBox(tree: Tree, x1: real, y1: real, x2: real, y2: real)
    requires Near(tree, x1, y1, x2, y2)
    ensures MinF(x1, x2) - BLOCK_RADIUS <= tree.x <= MaxF(x1, x2) + BLOCK_RADIUS
    ensures MinF(y1, y2) - BLOCK_RADIUS <= tree.y <= MaxF(y1, y2) + BLOCK_RADIUS
  {
    SegmentHasLength(x2 - x1, y2 - y1);
    CloseAtInPaddedBox(tree.x, tree.y, x1, y1, x2, y2, Along(tree.x, tree.y, x1, y1, x2, y2), BLOCK_RADIUS);
  }

  // ---------- the bucketed store ----------

  type TreeGrid = map<int, seq<Tree>>

  /** Every stored tree is in the bucket its position calls for. */
  predicate Indexed(grid: TreeGrid) {
    forall idx | idx in grid :: forall k | 0 <= k < |grid[idx]| :: TreeGridIdx(grid[idx][k]) == idx
  }

  predicate Stored(grid: TreeGrid, tree: Tree) {
    exists idx | idx in grid :: tree in grid[idx]
  }

  /** Some stored tree blocks the segment: a scan of all trees, without buckets. */
  ghost predicate SomeTreeBlocks(grid: TreeGrid, x1: real, y1: real, x2: real, y2: real) {
    exists tree :: Stored(grid, tree) && Blocks(tree, x1, y1, x2, y2)
  }

  /** The trees of a list that belong into one bucket, in order. */
  function BucketOf(trees: seq<Tree>, idx: int): seq<Tree> {
    if trees == [] then []
    else
      var (n, last) := (|trees| - 1, trees[|trees| - 1]);
      BucketOf(trees[..n], idx) + if TreeGridIdx(last) == idx then [last] else []
  }

  lemma {:induction false} BucketOfHolds(trees: seq<Tree>, idx: int, tree: Tree)
    ensures tree in BucketOf(trees, idx) <==> tree in trees && TreeGridIdx(tree) == idx
  {
    if trees != [] {
      BucketOfHolds(trees[..|trees| - 1], idx, tree);
    }
  }

  /** A store whose buckets are the buckets of a list holds exactly the trees of the list. */
  lemma BucketsHoldAll(grid: TreeGrid, trees: seq<Tree>)
    requires forall idx :: (if idx in grid then grid[idx] else []) == BucketOf(trees, idx)
    ensures Indexed(grid)
    ensures forall tree :: Stored(grid, tree) <==> tree in trees
  {
    forall idx | idx in grid
      ensures forall k | 0 <= k < |grid[idx]| :: TreeGridIdx(grid[idx][k]) == idx
    {
      forall k | 0 <= k < |grid[idx]|
        ensures TreeGridIdx(grid[idx][k]) == idx
      {
        BucketOfHolds(trees, idx, grid[idx][k]);
      }
    }
    forall tree
      ensures Stored(grid, tree) <==> tree in trees
    {
      BucketOfHolds(trees, TreeGridIdx(tree), tree);
      if idx :| idx in grid && tree in grid[idx] {
        BucketOfHolds(trees, idx, tree);
      }
    }
  }

  /** The tree half of `InitMap`: the store holds exactly the loaded trees, each in its bucket. */
  method LoadTrees(trees: seq<Tree>) returns (grid: TreeGrid)
    ensures forall idx :: (if idx in grid then grid[idx] else []) == BucketOf(trees, idx)
    ensures Indexed(grid)
    ensures forall tree :: Stored(grid, tree) <==> tree in trees
  {
    grid := map[];
    for i := 0 to |trees|
      invariant forall idx :: (if idx in grid then grid[idx] else []) == BucketOf(trees[..i], idx)
    {
      var idx := TreeGridIdx(trees[i]);
      assert trees[..i + 1][..i] == trees[..i];
      grid := grid[idx := (if idx in grid then grid[idx] else []) + [trees[i]]];
    }
    assert trees[..|trees|] == trees;
    BucketsHoldAll(grid, trees);
  }

  /** The search visits cell (gx, gy). */
  predicate VisitedCell(gx: int, gy: int, x1: real, y1: real, x2: real, y2: real) {
    && CellX(MinF(x1, x2) - BLOCK_RADIUS) <= gx <= CellX(MaxF(x1, x2) + BLOCK_RADIUS)
    && CellY(MinF(y1, y2) - BLOCK_RADIUS) <= gy <= CellY(MaxF(y1, y2) + BLOCK_RADIUS)
  }

  /** A near tree lies in one of the cells the search visits. */
  lemma NearTreeIsVisited(tree: Tree, x1: real, y1: real, x2: real, y2: real)
    ensures Near(tree, x1, y1, x2, y2) ==> VisitedCell(CellX(tree.x), CellY(tree.y), x1, y1, x2, y2)
  {
    if Near(tree, x1, y1, x2, y2) {
      NearInPaddedBox(tree, x1, y1, x2, y2);
      TruncMonotone((MinF(x1, x2) - BLOCK_RADIUS - X_MIN) / TREE_CELL, (tree.x - X_MIN) / TREE_CELL);
      TruncMonotone((tree.x - X_MIN) / TREE_CELL, (MaxF(x1, x2) + BLOCK_RADIUS - X_MIN) / TREE_CELL);
      TruncMonotone((MinF(y1, y2) - BLOCK_RADIUS - Y_MIN) / TREE_CELL, (tree.y - Y_MIN) / TREE_CELL);
      TruncMonotone((tree.y - Y_MIN) / TREE_CELL, (MaxF(y1, y2) + BLOCK_RADIUS - Y_MIN) / TREE_CELL);
    }
  }

  /** No tree of the bucket numbered by cell (gx, gy) is near the segment. */
  predicate CellClear(grid: TreeGrid, gx: int, gy: int, x1: real, y1: real, x2: real, y2: real) {
    var idx := Bucket(gx, gy);
    idx in grid ==> forall k | 0 <= k < |grid[idx]| :: !Near(grid[idx][k], x1, y1, x2, y2)
  }

  /** `IsPathBlockedByTrees`: looking only into the buckets around the segment answers the question for all trees,
      also for trees and segments outside the map. */
  method IsPathBlockedByTrees(grid: TreeGrid, x1: real, y1: real, x2: real, y2: real) returns (blocked: bool)
    requires Indexed(grid)
    ensures blocked <==> SomeTreeBlocks(grid, x1, y1, x2, y2)
  {
    var startGX, endGX := CellX(MinF(x1, x2) - BLOCK_RADIUS), CellX(MaxF(x1, x2) + BLOCK_RADIUS);
    var startGY, endGY := CellY(MinF(y1, y2) - BLOCK_RADIUS), CellY(MaxF(y1, y2) + BLOCK_RADIUS);
    var gx := startGX;
    while gx <= endGX
      invariant startGX <= gx
      invariant forall i, j | startGX <= i < gx && startGY <= j <= endGY :: CellClear(grid, i, j, x1, y1, x2, y2)
    {
      var gy := startGY;
      while gy <= endGY
        invariant startGY <= gy
        invariant forall j | startGY <= j < gy && j <= endGY :: CellClear(grid, gx, j, x1, y1, x2, y2)
      {
        var idx := Bucket(gx, gy);
        if idx in grid {
          var trees := grid[idx];
          for k := 0 to |trees|
            invariant forall m | 0 <= m < k :: !Near(trees[m], x1, y1, x2, y2)
          {
            if IsPointNearSegment(trees[k].x, trees[k].y, x1, y1, x2, y2, BLOCK_RADIUS) {
              NearExactly(trees[k], x1, y1, x2, y2);
              assert Stored(grid, trees[k]) && Blocks(trees[k], x1, y1, x2, y2);
              return true;
            }
          }
        }
        gy := gy + 1;
      }
      gx := gx + 1;
    }
    blocked := false;
    forall tree | Stored(grid, tree)
      ensures !Blocks(tree, x1, y1, x2, y2)
    {
      NearExactly(tree, x1, y1, x2, y2);
      NearTreeIsVisited(tree, x1, y1, x2, y2);
      var idx :| idx in grid && tree in grid[idx];
      var k :| 0 <= k < |grid[idx]| && grid[idx][k] == tree;
      var i, j := CellX(tree.x), CellY(tree.y);
      assert VisitedCell(i, j, x1, y1, x2, y2) ==> CellClear(grid, i, j, x1, y1, x2, y2);
    }
  }

  /** Blocking is symmetric: if trees hide B from A they hide A from B. */
  lemma BlockingSymmetric(grid: TreeGrid, x1: real, y1: real, x2: real, y2: real)
    ensures SomeTreeBlocks(grid, x1, y1, x2, y2) <==> SomeTreeBlocks(grid, x2, y2, x1, y1)
  {
    forall tree
      ensures Blocks(tree, x1, y1, x2, y2) <==> Blocks(tree, x2, y2, x1, y1)
    {
      NearExactly(tree, x1, y1, x2, y2);
      NearExactly(tree, x2, y2, x1, y1);
      NearSymmetric(tree, x1, y1, x2, y2);
    }
  }
}
