/** `flatten_mapping`: nested dictionaries become one dictionary with dotted keys.  Dictionaries inside dictionaries and
    inside lists are opened; a list inside a list is kept whole; empty dictionaries and lists leave no entry. */
module Flatten {
  import opened Numbers

  datatype Entry = Entry(key: string, value: Value)

  datatype Value = Leaf(id: int) | Dict(entries: seq<Entry>) | List(items: seq<Value>)

  type Path = seq<string>

  // ---------- the code ----------

  function NestedKey(prefix: string, key: string): string {
    if prefix != "" then prefix + "." + key else key
  }

  function ListKey(nested: string, index: nat): string {
    nested + "." + Decimal(index)
  }

  /** The entries that the first `n` items of a dictionary contribute; a later entry replaces an earlier one. */
  function Flat(v: Value, n: nat, prefix: string): map<string, Value>
    requires v.Dict? && n <= |v.entries|
    decreases v, 0, n
  {
    if n == 0 then map[]
    else Flat(v, n - 1, prefix) + FlatValue(v.entries[n - 1].value, NestedKey(prefix, v.entries[n - 1].key))
  }

  function FlatItems(v: Value, n: nat, nested: string): map<string, Value>
    requires v.List? && n <= |v.items|
    decreases v, 0, n
  {
    if n == 0 then map[]
    else FlatItems(v, n - 1, nested) + FlatItem(v.items[n - 1], ListKey(nested, n - 1))
  }

  function FlatItem(v: Value, nested: string): map<string, Value>
    decreases v, 1, 0
  {
    if v.Dict? then Flat(v, |v.entries|, nested) else map[nested := v]
  }

  function FlatValue(v: Value, nested: string): map<string, Value>
    decreases v, 1, 0
  {
    match v
    case Dict(entries) => Flat(v, |entries|, nested)
    case List(items) => FlatItems(v, |items|, nested)
    case Leaf(_) => map[nested := v]
  }

  method FlattenMapping(data: Value, prefix: string) returns (flat: map<string, Value>)
    requires data.Dict?
    ensures flat == Flat(data, |data.entries|, prefix)
    decreases data
  {
    flat := map[];
    for i := 0 to |data.entries|
      invariant flat == Flat(data, i, prefix)
    {
      var value := data.entries[i].value;
      var nested := NestedKey(prefix, data.entries[i].key);
      match value
      case Dict(entries) =>
        var inner := FlattenMapping(value, nested);
        flat := flat + inner;
      case List(_) =>
        var inner := FlattenList(value, nested);
        flat := flat + inner;
      case Leaf(_) =>
        flat := flat[nested := value];
    }
  }

  /** The loop over a list, which `flatten_mapping` runs inside the loop over the dictionary. */
  method FlattenList(value: Value, nested: string) returns (flat: map<string, Value>)
    requires value.List?
    ensures flat == FlatItems(value, |value.items|, nested)
    decreases value
  {
    flat := map[];
    for j := 0 to |value.items|
      invariant flat == FlatItems(value, j, nested)
    {
      var item := value.items[j];
      if item.Dict? {
        var inner := FlattenMapping(item, ListKey(nested, j));
        flat := flat + inner;
      } else {
        flat := flat[ListKey(nested, j) := item];
      }
    }
  }

  // ---------- what it is for ----------

  /** Following `path` through dictionary keys and list indices leads to `leaf`. */
  predicate LeafAt(v: Value, path: Path, leaf: Value)
    decreases v, 1
  {
    match v
    case Leaf(_) => path == [] && leaf == v
    case Dict(entries) =>
      path != []
      && exists i | 0 <= i < |entries| :: entries[i].key == path[0] && LeafAt(entries[i].value, path[1..], leaf)
    case List(items) =>
      path != [] && exists j | 0 <= j < |items| :: Decimal(j) == path[0] && ItemLeafAt(items[j], path[1..], leaf)
  }

  /** An item of a list is opened only if it is a dictionary. */
  predicate ItemLeafAt(v: Value, path: Path, leaf: Value)
    decreases v, 2
  {
    if v.Dict? then LeafAt(v, path, leaf) else path == [] && leaf == v
  }

  predicate DotFree(s: string) {
    '.' !in s
  }

  /** The keys of every opened dictionary are pairwise different, nonempty and without a dot. */
  predicate WellKeyed(v: Value) {
    match v
    case Leaf(_) => true
    case Dict(entries) =>
      && (forall i | 0 <= i < |entries| ::
            entries[i].key != "" && DotFree(entries[i].key) && WellKeyed(entries[i].value))
      && (forall i, j | 0 <= i < j < |entries| :: entries[i].key != entries[j].key)
    case List(items) => forall j | 0 <= j < |items| :: items[j].Dict? ==> WellKeyed(items[j])
  }

  /** Each part of the path behind a dot. */
  function Tail(path: Path): string {
    if path == [] then "" else "." + path[0] + Tail(path[1..])
  }

  /** The dotted form of a path. */
  function Join(path: Path): string
    requires path != []
  {
    path[0] + Tail(path[1..])
  }

  predicate Tokens(path: Path) {
    forall i | 0 <= i < |path| :: DotFree(path[i])
  }

  // ---------- joining is injective ----------

  predicate DotOrEnd(s: string) {
    s == "" || s[0] == '.'
  }

  lemma {:induction false} SplitUnique(a: string, x: string, b: string, y: string)
    requires DotFree(a) && DotFree(b) && DotOrEnd(x) && DotOrEnd(y) && a + x == b + y
    ensures a == b && x == y
  {
    FirstOfConcat(a, x);
    FirstOfConcat(b, y);
    assert a == "" <==> b == "";
    if a == "" {
      assert a + x == x && b + y == y;
    } else {
      assert (a + x)[1..] == a[1..] + x && (b + y)[1..] == b[1..] + y;
      SplitUnique(a[1..], x, b[1..], y);
      assert a == [a[0]] + a[1..] && b == [b[0]] + b[1..];
    }
  }

  lemma FirstOfConcat(a: string, x: string)
    ensures if a == "" then a + x == x else |a + x| > 0 && (a + x)[0] == a[0] && a[0] in a
  {}

  lemma {:induction false} TailInjective(p: Path, q: Path)
    requires Tokens(p) && Tokens(q) && Tail(p) == Tail(q)
    ensures p == q
  {
    if p != [] && q != [] {
      assert Tail(p)[1..] == p[0] + Tail(p[1..]);
      assert Tail(q)[1..] == q[0] + Tail(q[1..]);
      SplitUnique(p[0], Tail(p[1..]), q[0], Tail(q[1..]));
      TailInjective(p[1..], q[1..]);
      assert p == [p[0]] + p[1..] && q == [q[0]] + q[1..];
    }
  }

  /** Different paths have different dotted forms. */
  lemma JoinInjective(p: Path, q: Path)
    requires p != [] && q != [] && Tokens(p) && Tokens(q) && Join(p) == Join(q)
    ensures p == q
  {
    SplitUnique(p[0], Tail(p[1..]), q[0], Tail(q[1..]));
    TailInjective(p[1..], q[1..]);
    assert p == [p[0]] + p[1..] && q == [q[0]] + q[1..];
  }

  lemma IndexToken(j: nat)
    ensures DotFree(Decimal(j))
  {}

  lemma IndicesDiffer(i: nat, j: nat)
    ensures Decimal(i) == Decimal(j) <==> i == j
  {}

  // ---------- paths ----------

  lemma {:induction false} PathTokens(v: Value, path: Path, leaf: Value)
    requires WellKeyed(v) && LeafAt(v, path, leaf)
    ensures Tokens(path)
    decreases v
  {
    match v
    case Leaf(_) =>
    case Dict(entries) =>
      var i :| 0 <= i < |entries| && entries[i].key == path[0] && LeafAt(entries[i].value, path[1..], leaf);
      PathTokens(entries[i].value, path[1..], leaf);
      assert path == [path[0]] + path[1..];
    case List(items) =>
      var j: nat :| j < |items| && Decimal(j) == path[0] && ItemLeafAt(items[j], path[1..], leaf);
      IndexToken(j);
      if items[j].Dict? {
        PathTokens(items[j], path[1..], leaf);
      }
      assert path == [path[0]] + path[1..];
  }

  /** A path leads to one leaf. */
  lemma {:induction false} LeafUnique(v: Value, path: Path, a: Value, b: Value)
    requires WellKeyed(v) && LeafAt(v, path, a) && LeafAt(v, path, b)
    ensures a == b
    decreases v
  {
    match v
    case Leaf(_) =>
    case Dict(entries) =>
      var i :| 0 <= i < |entries| && entries[i].key == path[0] && LeafAt(entries[i].value, path[1..], a);
      var k :| 0 <= k < |entries| && entries[k].key == path[0] && LeafAt(entries[k].value, path[1..], b);
      assert i == k;
      LeafUnique(entries[i].value, path[1..], a, b);
    case List(items) =>
      var i: nat :| i < |items| && Decimal(i) == path[0] && ItemLeafAt(items[i], path[1..], a);
      var k: nat :| k < |items| && Decimal(k) == path[0] && ItemLeafAt(items[k], path[1..], b);
      IndicesDiffer(i, k);
      if items[i].Dict? {
        LeafUnique(items[i], path[1..], a, b);
      }
  }

  lemma LeafThroughKey(v: Value, i: nat, path: Path, leaf: Value)
    requires v.Dict? && i < |v.entries| && LeafAt(v.entries[i].value, path, leaf)
    ensures LeafAt(v, [v.entries[i].key] + path, leaf)
  {}

  lemma LeafThroughIndex(v: Value, j: nat, path: Path, leaf: Value)
    requires v.List? && j < |v.items| && ItemLeafAt(v.items[j], path, leaf)
    ensures LeafAt(v, [Decimal(j)] + path, leaf)
  {}

  // ---------- every key is a path ----------

  /** Key `k` of a part flattened under `nested` stands for a path to its value. */
  ghost predicate Explained(v: Value, nested: string, k: string, leaf: Value) {
    exists path: Path :: LeafAt(v, path, leaf) && k == nested + Tail(path)
  }

  lemma TailStep(nested: string, token: string, path: Path)
    ensures nested + Tail([token] + path) == (nested + "." + token) + Tail(path)
  {}

  lemma ExplainedInDict(v: Value, i: nat, nested: string, k: string, leaf: Value)
    requires v.Dict? && i < |v.entries| && nested != ""
    requires Explained(v.entries[i].value, NestedKey(nested, v.entries[i].key), k, leaf)
    ensures Explained(v, nested, k, leaf)
  {
    var e := v.entries[i];
    var path: Path :| LeafAt(e.value, path, leaf) && k == NestedKey(nested, e.key) + Tail(path);
    TailStep(nested, e.key, path);
    LeafThroughKey(v, i, path, leaf);
  }

  lemma ExplainedInList(v: Value, j: nat, nested: string, k: string, leaf: Value, path: Path)
    requires v.List? && j < |v.items|
    requires ItemLeafAt(v.items[j], path, leaf) && k == ListKey(nested, j) + Tail(path)
    ensures Explained(v, nested, k, leaf)
  {
    TailStep(nested, Decimal(j), path);
    LeafThroughIndex(v, j, path, leaf);
  }

  lemma {:induction false} ValueExplained(v: Value, nested: string, k: string)
    requires nested != "" && k in FlatValue(v, nested)
    ensures Explained(v, nested, k, FlatValue(v, nested)[k])
    decreases v, 1, 0
  {
    match v
    case Dict(entries) => DictExplained(v, |entries|, nested, k);
    case List(items) => ListExplained(v, |items|, nested, k);
    case Leaf(_) => assert LeafAt(v, [], v) && nested + Tail([]) == nested;
  }

  lemma {:induction false} DictExplained(v: Value, n: nat, nested: string, k: string)
    requires nested != "" && v.Dict? && n <= |v.entries| && k in Flat(v, n, nested)
    ensures Explained(v, nested, k, Flat(v, n, nested)[k])
    decreases v, 0, n
  {
    var e := v.entries[n - 1];
    if k in FlatValue(e.value, NestedKey(nested, e.key)) {
      ValueExplained(e.value, NestedKey(nested, e.key), k);
      ExplainedInDict(v, n - 1, nested, k, Flat(v, n, nested)[k]);
    } else {
      DictExplained(v, n - 1, nested, k);
    }
  }

  lemma {:induction false} ListExplained(v: Value, n: nat, nested: string, k: string)
    requires v.List? && n <= |v.items| && k in FlatItems(v, n, nested)
    ensures Explained(v, nested, k, FlatItems(v, n, nested)[k])
    decreases v, 0, n
  {
    var (item, key) := (v.items[n - 1], ListKey(nested, n - 1));
    var leaf := FlatItems(v, n, nested)[k];
    if k in FlatItem(item, key) {
      if item.Dict? {
        DictExplained(item, |item.entries|, key, k);
        var path: Path :| LeafAt(item, path, leaf) && k == key + Tail(path);
        ExplainedInList(v, n - 1, nested, k, leaf, path);
      } else {
        assert k == key + Tail([]);
        ExplainedInList(v, n - 1, nested, k, leaf, []);
      }
    } else {
      ListExplained(v, n - 1, nested, k);
    }
  }

  // ---------- every path is a key ----------

  lemma {:induction false} PathHasKey(v: Value, nested: string, path: Path, leaf: Value)
    requires nested != "" && LeafAt(v, path, leaf)
    ensures nested + Tail(path) in FlatValue(v, nested)
    decreases v, 0
  {
    match v
    case Leaf(_) => assert nested + Tail([]) == nested;
    case Dict(entries) =>
      var i: nat :| i < |entries| && entries[i].key == path[0] && LeafAt(entries[i].value, path[1..], leaf);
      PathHasKey(entries[i].value, NestedKey(nested, path[0]), path[1..], leaf);
      assert path == [path[0]] + path[1..];
      TailStep(nested, path[0], path[1..]);
      EntryKeys(v, |entries|, i, nested);
    case List(items) =>
      var j: nat :| j < |items| && Decimal(j) == path[0] && ItemLeafAt(items[j], path[1..], leaf);
      ItemPathHasKey(items[j], ListKey(nested, j), path[1..], leaf);
      assert path == [path[0]] + path[1..];
      TailStep(nested, path[0], path[1..]);
      ItemKeys(v, |items|, j, nested);
  }

  lemma {:induction false} ItemPathHasKey(item: Value, key: string, path: Path, leaf: Value)
    requires key != "" && ItemLeafAt(item, path, leaf)
    ensures key + Tail(path) in FlatItem(item, key)
    decreases item, 1
  {
    if item.Dict? {
      PathHasKey(item, key, path, leaf);
    } else {
      assert key + Tail([]) == key;
    }
  }

  lemma {:induction false} EntryKeys(v: Value, n: nat, i: nat, prefix: string)
    requires v.Dict? && i < n <= |v.entries|
    ensures FlatValue(v.entries[i].value, NestedKey(prefix, v.entries[i].key)).Keys <= Flat(v, n, prefix).Keys
    decreases n
  {
    if i < n - 1 {
      EntryKeys(v, n - 1, i, prefix);
    }
  }

  lemma {:induction false} ItemKeys(v: Value, n: nat, j: nat, nested: string)
    requires v.List? && j < n <= |v.items|
    ensures FlatItem(v.items[j], ListKey(nested, j)).Keys <= FlatItems(v, n, nested).Keys
    decreases n
  {
    if j < n - 1 {
      ItemKeys(v, n - 1, j, nested);
    }
  }

  // ---------- the whole dictionary ----------

  lemma TopExplained(v: Value, n: nat, k: string)
    requires v.Dict? && n <= |v.entries| && WellKeyed(v) && k in Flat(v, n, "")
    ensures exists path: Path :: path != [] && LeafAt(v, path, Flat(v, n, "")[k]) && Join(path) == k
    decreases n
  {
    var e := v.entries[n - 1];
    var leaf := Flat(v, n, "")[k];
    if k in FlatValue(e.value, e.key) {
      ValueExplained(e.value, e.key, k);
      var path: Path :| LeafAt(e.value, path, leaf) && k == e.key + Tail(path);
      LeafThroughKey(v, n - 1, path, leaf);
      assert ([e.key] + path)[1..] == path && Join([e.key] + path) == k;
    } else {
      TopExplained(v, n - 1, k);
    }
  }

  lemma TopPathHasKey(v: Value, path: Path, leaf: Value)
    requires v.Dict? && WellKeyed(v) && LeafAt(v, path, leaf)
    ensures path != [] && Join(path) in Flat(v, |v.entries|, "")
  {
    var i: nat :| i < |v.entries| && v.entries[i].key == path[0] && LeafAt(v.entries[i].value, path[1..], leaf);
    PathHasKey(v.entries[i].value, path[0], path[1..], leaf);
    EntryKeys(v, |v.entries|, i, "");
  }

  /** Flattening loses and merges nothing: with well-formed keys the flat dictionary maps `k` to `leaf` exactly when
      `k` is the dotted form of a path to `leaf`. */
  lemma FlatIsPaths(v: Value, k: string, leaf: Value)
    requires v.Dict? && WellKeyed(v)
    ensures (k in Flat(v, |v.entries|, "") && Flat(v, |v.entries|, "")[k] == leaf)
            <==> exists path: Path :: path != [] && LeafAt(v, path, leaf) && Join(path) == k
  {
    var flat := Flat(v, |v.entries|, "");
    if k in flat {
      TopExplained(v, |v.entries|, k);
    }
    if path: Path :| path != [] && LeafAt(v, path, leaf) && Join(path) == k {
      TopPathHasKey(v, path, leaf);
      var found: Path :| found != [] && LeafAt(v, found, flat[k]) && Join(found) == k;
      PathTokens(v, path, leaf);
      PathTokens(v, found, flat[k]);
      JoinInjective(path, found);
      LeafUnique(v, path, leaf, flat[k]);
    }
  }

  /** Two leaves at different paths keep different keys. */
  lemma PathsStayApart(v: Value, p: Path, q: Path, a: Value, b: Value)
    requires v.Dict? && WellKeyed(v) && LeafAt(v, p, a) && LeafAt(v, q, b) && p != q
    ensures p != [] && q != [] && Join(p) != Join(q)
  {
    PathTokens(v, p, a);
    PathTokens(v, q, b);
    if Join(p) == Join(q) {
      JoinInjective(p, q);
    }
  }

  // ---------- exactly when nothing is lost ----------

  type Pairs = seq<(string, Value)>

  /** The leaves in the order the loops meet them, each with the key it is written to. */
  function Walk(v: Value, n: nat, prefix: string): Pairs
    requires v.Dict? && n <= |v.entries|
    decreases v, 0, n
  {
    if n == 0 then []
    else Walk(v, n - 1, prefix) + WalkValue(v.entries[n - 1].value, NestedKey(prefix, v.entries[n - 1].key))
  }

  function WalkItems(v: Value, n: nat, nested: string): Pairs
    requires v.List? && n <= |v.items|
    decreases v, 0, n
  {
    if n == 0 then []
    else WalkItems(v, n - 1, nested) + WalkItem(v.items[n - 1], ListKey(nested, n - 1))
  }

  function WalkItem(v: Value, nested: string): Pairs
    decreases v, 1, 0
  {
    if v.Dict? then Walk(v, |v.entries|, nested) else [(nested, v)]
  }

  function WalkValue(v: Value, nested: string): Pairs
    decreases v, 1, 0
  {
    match v
    case Dict(entries) => Walk(v, |entries|, nested)
    case List(items) => WalkItems(v, |items|, nested)
    case Leaf(_) => [(nested, v)]
  }

  /** The number of leaves, whatever the keys are. */
  function Leaves(v: Value): nat
    decreases v, 1, 0
  {
    match v
    case Dict(entries) => LeavesOfEntries(v, |entries|)
    case List(items) => LeavesOfItems(v, |items|)
    case Leaf(_) => 1
  }

  function LeavesOfEntries(v: Value, n: nat): nat
    requires v.Dict? && n <= |v.entries|
    decreases v, 0, n
  {
    if n == 0 then 0 else LeavesOfEntries(v, n - 1) + Leaves(v.entries[n - 1].value)
  }

  function LeavesOfItems(v: Value, n: nat): nat
    requires v.List? && n <= |v.items|
    decreases v, 0, n
  {
    if n == 0 then 0 else LeavesOfItems(v, n - 1) + if v.items[n - 1].Dict? then Leaves(v.items[n - 1]) else 1
  }

  /** Write the pairs into a dictionary one after the other. */
  function LastWins(pairs: Pairs): map<string, Value> {
    if pairs == [] then map[]
    else
      var (n, last) := (|pairs| - 1, pairs[|pairs| - 1]);
      LastWins(pairs[..n])[last.0 := last.1]
  }

  lemma {:induction false} LastWinsConcat(a: Pairs, b: Pairs)
    ensures LastWins(a + b) == LastWins(a) + LastWins(b)
    decreases |b|
  {
    if b == [] {
      assert a + b == a;
    } else {
      var n := |b| - 1;
      LastWinsConcat(a, b[..n]);
      assert (a + b)[..|a + b| - 1] == a + b[..n];
    }
  }

  lemma OneLastWins(k: string, leaf: Value)
    ensures LastWins([(k, leaf)]) == map[k := leaf]
  {}

  lemma {:induction false} ValueIsLastWins(v: Value, nested: string)
    ensures FlatValue(v, nested) == LastWins(WalkValue(v, nested)) && |WalkValue(v, nested)| == Leaves(v)
    decreases v, 1, 0
  {
    match v
    case Dict(entries) => FlatIsLastWins(v, |entries|, nested);
    case List(items) => ItemsAreLastWins(v, |items|, nested);
    case Leaf(_) => OneLastWins(nested, v);
  }

  lemma OneMoreEntry(v: Value, n: nat, prefix: string)
    requires v.Dict? && 0 < n <= |v.entries|
    requires Flat(v, n - 1, prefix) == LastWins(Walk(v, n - 1, prefix))
    requires |Walk(v, n - 1, prefix)| == LeavesOfEntries(v, n - 1)
    requires var (value, key) := (v.entries[n - 1].value, NestedKey(prefix, v.entries[n - 1].key));
             FlatValue(value, key) == LastWins(WalkValue(value, key)) && |WalkValue(value, key)| == Leaves(value)
    ensures Flat(v, n, prefix) == LastWins(Walk(v, n, prefix)) && |Walk(v, n, prefix)| == LeavesOfEntries(v, n)
  {
    LastWinsConcat(Walk(v, n - 1, prefix), WalkValue(v.entries[n - 1].value, NestedKey(prefix, v.entries[n - 1].key)));
  }

  /** For every dictionary, whatever its keys: the flat dictionary is what the last writes to each key leave, and the
      walk meets every leaf once. */
  lemma {:induction false} FlatIsLastWins(v: Value, n: nat, prefix: string)
    requires v.Dict? && n <= |v.entries|
    ensures Flat(v, n, prefix) == LastWins(Walk(v, n, prefix)) && |Walk(v, n, prefix)| == LeavesOfEntries(v, n)
    decreases v, 0, n
  {
    if n > 0 {
      FlatIsLastWins(v, n - 1, prefix);
      ValueIsLastWins(v.entries[n - 1].value, NestedKey(prefix, v.entries[n - 1].key));
      OneMoreEntry(v, n, prefix);
    }
  }

  lemma {:induction false} ItemsAreLastWins(v: Value, n: nat, nested: string)
    requires v.List? && n <= |v.items|
    ensures FlatItems(v, n, nested) == LastWins(WalkItems(v, n, nested))
    ensures |WalkItems(v, n, nested)| == LeavesOfItems(v, n)
    decreases v, 0, n
  {
    if n > 0 {
      var (item, key) := (v.items[n - 1], ListKey(nested, n - 1));
      ItemsAreLastWins(v, n - 1, nested);
      if item.Dict? {
        FlatIsLastWins(item, |item.entries|, key);
      } else {
        OneLastWins(key, item);
      }
      LastWinsConcat(WalkItems(v, n - 1, nested), WalkItem(item, key));
    }
  }

  predicate HasKey(pairs: Pairs, k: string) {
    exists i | 0 <= i < |pairs| :: pairs[i].0 == k
  }

  predicate KeysDiffer(pairs: Pairs) {
    forall i, j | 0 <= i < j < |pairs| :: pairs[i].0 != pairs[j].0
  }

  lemma HasKeyStep(pairs: Pairs, k: string)
    requires pairs != []
    ensures HasKey(pairs, k) <==> HasKey(pairs[..|pairs| - 1], k) || pairs[|pairs| - 1].0 == k
    ensures KeysDiffer(pairs) <==>
              KeysDiffer(pairs[..|pairs| - 1]) && !HasKey(pairs[..|pairs| - 1], pairs[|pairs| - 1].0)
  {}

  lemma {:induction false} KeysOfLastWins(pairs: Pairs, k: string)
    ensures k in LastWins(pairs) <==> HasKey(pairs, k)
  {
    if pairs != [] {
      KeysOfLastWins(pairs[..|pairs| - 1], k);
      HasKeyStep(pairs, k);
    }
  }

  /** Writing pairs loses none of them exactly when their keys differ. */
  lemma {:induction false} SizeOfLastWins(pairs: Pairs)
    ensures |LastWins(pairs)| <= |pairs|
    ensures |LastWins(pairs)| == |pairs| <==> KeysDiffer(pairs)
  {
    if pairs != [] {
      var n := |pairs| - 1;
      SizeOfLastWins(pairs[..n]);
      KeysOfLastWins(pairs[..n], pairs[n].0);
      SizeOfUpdate(LastWins(pairs[..n]), pairs[n].0, pairs[n].1);
      HasKeyStep(pairs, pairs[n].0);
    }
  }

  lemma SizeOfUpdate(m: map<string, Value>, k: string, leaf: Value)
    ensures |m[k := leaf]| == if k in m then |m| else |m| + 1
  {}

  lemma {:induction false} EachPairKept(pairs: Pairs, i: nat)
    requires KeysDiffer(pairs) && i < |pairs|
    ensures pairs[i].0 in LastWins(pairs) && LastWins(pairs)[pairs[i].0] == pairs[i].1
  {
    var n := |pairs| - 1;
    if i < n {
      EachPairKept(pairs[..n], i);
    }
  }

  /** The flat dictionary keeps the leaf of every pair under the pair's key. */
  predicate KeepsAll(flat: map<string, Value>, pairs: Pairs) {
    forall i | 0 <= i < |pairs| :: pairs[i].0 in flat && flat[pairs[i].0] == pairs[i].1
  }

  /** For every dictionary: the flat dictionary has as many entries as there are leaves if and only if the keys they are
      written to are pairwise different, and then it keeps every leaf under its key. */
  lemma {:induction false} NothingLostExactly(v: Value)
    requires v.Dict?
    ensures |Flat(v, |v.entries|, "")| == Leaves(v) <==> KeysDiffer(Walk(v, |v.entries|, ""))
    ensures KeysDiffer(Walk(v, |v.entries|, "")) ==> KeepsAll(Flat(v, |v.entries|, ""), Walk(v, |v.entries|, ""))
  {
    var walk := Walk(v, |v.entries|, "");
    FlatIsLastWins(v, |v.entries|, "");
    SizeOfLastWins(walk);
    if KeysDiffer(walk) {
      forall i | 0 <= i < |walk|
        ensures walk[i].0 in LastWins(walk) && LastWins(walk)[walk[i].0] == walk[i].1
      {
        EachPairKept(walk, i);
      }
    }
  }

  // ---------- well-formed keys differ ----------

  /** Every key is `nested` or goes on behind it with a dot. */
  predicate KeysUnder(pairs: Pairs, nested: string) {
    forall i | 0 <= i < |pairs| :: nested <= pairs[i].0 && DotOrEnd(pairs[i].0[|nested|..])
  }

  lemma UnderNested(pairs: Pairs, nested: string, token: string)
    requires KeysUnder(pairs, nested + "." + token)
    ensures KeysUnder(pairs, nested)
  {}

  /** Keys under different dot-free tokens differ. */
  lemma TokensApart(a: Pairs, b: Pairs, stem: string, p: string, q: string)
    requires DotFree(p) && DotFree(q) && p != q && KeysUnder(a, stem + p) && KeysUnder(b, stem + q)
    ensures Apart(a, b)
  {
    forall i, j | 0 <= i < |a| && 0 <= j < |b|
      ensures a[i].0 != b[j].0
    {
      var (x, y) := (a[i].0[|stem + p|..], b[j].0[|stem + q|..]);
      assert a[i].0 == (stem + p) + x && b[j].0 == (stem + q) + y;
      if a[i].0 == b[j].0 {
        assert p + x == a[i].0[|stem|..] && q + y == b[j].0[|stem|..];
        SplitUnique(p, x, q, y);
      }
    }
  }

  predicate Apart(a: Pairs, b: Pairs) {
    forall i, j | 0 <= i < |a| && 0 <= j < |b| :: a[i].0 != b[j].0
  }

  lemma ConcatDiffer(a: Pairs, b: Pairs)
    requires KeysDiffer(a) && KeysDiffer(b) && Apart(a, b)
    ensures KeysDiffer(a + b)
  {}

  lemma ConcatApart(a: Pairs, b: Pairs, c: Pairs)
    requires Apart(a, c) && Apart(b, c)
    ensures Apart(a + b, c)
  {}

  lemma ConcatUnder(a: Pairs, b: Pairs, nested: string)
    requires KeysUnder(a, nested) && KeysUnder(b, nested)
    ensures KeysUnder(a + b, nested)
  {}

  lemma {:induction false} ValueKeysDiffer(v: Value, nested: string)
    requires WellKeyed(v) && nested != ""
    ensures KeysDiffer(WalkValue(v, nested)) && KeysUnder(WalkValue(v, nested), nested)
    decreases v, 1, 0
  {
    match v
    case Dict(entries) => EntryKeysDiffer(v, |entries|, nested);
    case List(items) => ItemKeysDiffer(v, |items|, nested);
    case Leaf(_) =>
  }

  function Stem(prefix: string): string {
    if prefix != "" then prefix + "." else ""
  }

  /** What the `m`-th entry contributes. */
  function EntryWalk(v: Value, m: nat, prefix: string): Pairs
    requires v.Dict? && m < |v.entries|
  {
    WalkValue(v.entries[m].value, NestedKey(prefix, v.entries[m].key))
  }

  lemma EntryUnderKey(v: Value, m: nat, prefix: string)
    requires v.Dict? && WellKeyed(v) && m < |v.entries|
    ensures KeysDiffer(EntryWalk(v, m, prefix))
    ensures KeysUnder(EntryWalk(v, m, prefix), Stem(prefix) + v.entries[m].key)
    decreases v, 0, 0
  {
    ValueKeysDiffer(v.entries[m].value, NestedKey(prefix, v.entries[m].key));
    assert NestedKey(prefix, v.entries[m].key) == Stem(prefix) + v.entries[m].key;
  }

  lemma TwoEntriesApart(v: Value, i: nat, m: nat, prefix: string)
    requires v.Dict? && WellKeyed(v) && i < m < |v.entries|
    ensures Apart(EntryWalk(v, i, prefix), EntryWalk(v, m, prefix))
    decreases v, 0, 1
  {
    EntryUnderKey(v, i, prefix);
    EntryUnderKey(v, m, prefix);
    TokensApart(EntryWalk(v, i, prefix), EntryWalk(v, m, prefix), Stem(prefix), v.entries[i].key, v.entries[m].key);
  }

  lemma {:induction false} EntriesApart(v: Value, n: nat, m: nat, prefix: string)
    requires v.Dict? && WellKeyed(v) && n <= m < |v.entries|
    ensures Apart(Walk(v, n, prefix), EntryWalk(v, m, prefix))
    decreases v, 0, n + 1
  {
    if n > 0 {
      EntriesApart(v, n - 1, m, prefix);
      TwoEntriesApart(v, n - 1, m, prefix);
      ConcatApart(Walk(v, n - 1, prefix), EntryWalk(v, n - 1, prefix), EntryWalk(v, m, prefix));
    }
  }

  lemma {:induction false} EntryKeysDiffer(v: Value, n: nat, prefix: string)
    requires v.Dict? && WellKeyed(v) && n <= |v.entries|
    ensures KeysDiffer(Walk(v, n, prefix)) && (prefix != "" ==> KeysUnder(Walk(v, n, prefix), prefix))
    decreases v, 0, n + 1
  {
    if n > 0 {
      EntryKeysDiffer(v, n - 1, prefix);
      EntriesApart(v, n - 1, n - 1, prefix);
      EntryUnderKey(v, n - 1, prefix);
      ConcatDiffer(Walk(v, n - 1, prefix), EntryWalk(v, n - 1, prefix));
      if prefix != "" {
        UnderNested(EntryWalk(v, n - 1, prefix), prefix, v.entries[n - 1].key);
        ConcatUnder(Walk(v, n - 1, prefix), EntryWalk(v, n - 1, prefix), prefix);
      }
    }
  }

  lemma ItemUnderKey(v: Value, m: nat, nested: string)
    requires v.List? && WellKeyed(v) && m < |v.items| && nested != ""
    ensures KeysDiffer(WalkItem(v.items[m], ListKey(nested, m)))
    ensures KeysUnder(WalkItem(v.items[m], ListKey(nested, m)), nested + "." + Decimal(m))
    decreases v, 0, 0
  {
    if v.items[m].Dict? {
      EntryKeysDiffer(v.items[m], |v.items[m].entries|, ListKey(nested, m));
    }
  }

  lemma {:induction false} ItemsApart(v: Value, n: nat, m: nat, nested: string)
    requires v.List? && WellKeyed(v) && n <= m < |v.items| && nested != ""
    ensures Apart(WalkItems(v, n, nested), WalkItem(v.items[m], ListKey(nested, m)))
    decreases v, 0, n + 1
  {
    if n > 0 {
      ItemsApart(v, n - 1, m, nested);
      ItemUnderKey(v, n - 1, nested);
      ItemUnderKey(v, m, nested);
      IndexToken(n - 1);
      IndexToken(m);
      IndicesDiffer(n - 1, m);
      TokensApart(WalkItem(v.items[n - 1], ListKey(nested, n - 1)), WalkItem(v.items[m], ListKey(nested, m)),
                  nested + ".", Decimal(n - 1), Decimal(m));
      ConcatApart(WalkItems(v, n - 1, nested), WalkItem(v.items[n - 1], ListKey(nested, n - 1)),
                  WalkItem(v.items[m], ListKey(nested, m)));
    }
  }

  lemma {:induction false} ItemKeysDiffer(v: Value, n: nat, nested: string)
    requires v.List? && WellKeyed(v) && n <= |v.items| && nested != ""
    ensures KeysDiffer(WalkItems(v, n, nested)) && KeysUnder(WalkItems(v, n, nested), nested)
    decreases v, 0, n + 1
  {
    if n > 0 {
      var piece := WalkItem(v.items[n - 1], ListKey(nested, n - 1));
      ItemKeysDiffer(v, n - 1, nested);
      ItemsApart(v, n - 1, n - 1, nested);
      ItemUnderKey(v, n - 1, nested);
      ConcatDiffer(WalkItems(v, n - 1, nested), piece);
      UnderNested(piece, nested, Decimal(n - 1));
      ConcatUnder(WalkItems(v, n - 1, nested), piece, nested);
    }
  }

  /** Nonempty, dot-free and pairwise different keys are enough: every leaf is kept. */
  lemma {:induction false} WellKeyedLosesNothing(v: Value)
    requires v.Dict? && WellKeyed(v)
    ensures |Flat(v, |v.entries|, "")| == Leaves(v)
  {
    EntryKeysDiffer(v, |v.entries|, "");
    NothingLostExactly(v);
  }

  /** Whatever stands before and behind the dot, a dotted key can meet a nested key: one of two leaves is lost. */
  lemma DottedKeysMerge(a: string, b: string)
    requires a != ""
    ensures (var key := a + "." + b;
             var v := Dict([Entry(key, Leaf(1)), Entry(a, Dict([Entry(b, Leaf(2))]))]);
             LeafAt(v, [key], Leaf(1)) && LeafAt(v, [a, b], Leaf(2)) && Flat(v, 2, "") == map[key := Leaf(2)])
  {
    var key := a + "." + b;
    var inner := Dict([Entry(b, Leaf(2))]);
    var v := Dict([Entry(key, Leaf(1)), Entry(a, inner)]);
    LeafThroughKey(inner, 0, [], Leaf(2));
    LeafThroughKey(v, 1, [b], Leaf(2));
    LeafThroughKey(v, 0, [], Leaf(1));
    assert [a] + [b] == [a, b] && [key] + [] == [key] && NestedKey(a, b) == key;
    assert Flat(v, 1, "") == map[key := Leaf(1)];
    assert Flat(inner, 0, a) == map[];
    assert Flat(inner, 1, a) == map[key := Leaf(2)];
  }

  /** An empty key drops the separator, with the same effect. */
  lemma EmptyKeysMerge()
    ensures (var v := Dict([Entry("", Dict([Entry("a", Leaf(1))])), Entry("a", Leaf(2))]);
             LeafAt(v, ["", "a"], Leaf(1)) && LeafAt(v, ["a"], Leaf(2)) && Flat(v, 2, "") == map["a" := Leaf(2)])
  {
    var inner := Dict([Entry("a", Leaf(1))]);
    var v := Dict([Entry("", inner), Entry("a", Leaf(2))]);
    LeafThroughKey(inner, 0, [], Leaf(1));
    LeafThroughKey(v, 0, ["a"], Leaf(1));
    LeafThroughKey(v, 1, [], Leaf(2));
    assert [""] + ["a"] == ["", "a"] && ["a"] + [] == ["a"];
    assert Flat(inner, 0, "") == map[];
    assert Flat(inner, 1, "") == map["a" := Leaf(1)];
    assert Flat(v, 1, "") == map["a" := Leaf(1)];
  }
}
