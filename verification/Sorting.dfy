/** Lexicographic order on strings, and the one ascending list of a set of names. */
module Sorting {

  /** Go's `a < b` on strings. */
  predicate Before(a: string, b: string) {
    if a == [] then b != []
    else if b == [] then false
    else if a[0] != b[0] then a[0] < b[0]
    else Before(a[1..], b[1..])
  }

  /** The strings agree up to index `i`, and there `a` ends or has the smaller character. */
  predicate SmallerAt(a: string, b: string, i: nat) {
    i <= |a| && i < |b| && a[..i] == b[..i] && (i == |a| || a[i] < b[i])
  }

  lemma {:induction false} BeforeExactly(a: string, b: string)
    ensures Before(a, b) <==> exists i: nat :: SmallerAt(a, b, i)
  {
    if a == [] || b == [] || a[0] != b[0] {
      assert Before(a, b) ==> SmallerAt(a, b, 0);
    } else {
      BeforeExactly(a[1..], b[1..]);
      SameFirst(a, b);
    }
  }

  lemma SameFirst(a: string, b: string)
    requires a != [] && b != [] && a[0] == b[0]
    ensures (exists i: nat :: SmallerAt(a, b, i)) <==> exists i: nat :: SmallerAt(a[1..], b[1..], i)
  {
    if i: nat :| SmallerAt(a, b, i) {
      assert a[1..][..i - 1] == a[..i][1..] && b[1..][..i - 1] == b[..i][1..];
      assert SmallerAt(a[1..], b[1..], i - 1);
    }
    if i: nat :| SmallerAt(a[1..], b[1..], i) {
      assert a[..i + 1] == [a[0]] + a[1..][..i] && b[..i + 1] == [b[0]] + b[1..][..i];
      assert SmallerAt(a, b, i + 1);
    }
  }

  lemma {:induction false} BeforeTotal(a: string, b: string)
    ensures a == b || Before(a, b) || Before(b, a)
    ensures !(Before(a, b) && Before(b, a))
    ensures !Before(a, a)
  {
    if a != [] && b != [] {
      BeforeTotal(a[1..], b[1..]);
      assert a == [a[0]] + a[1..] && b == [b[0]] + b[1..];
    } else if a != [] {
      BeforeTotal(a[1..], []);
    }
  }

  lemma {:induction false} BeforeTransitive(a: string, b: string, c: string)
    requires Before(a, b) && Before(b, c)
    ensures Before(a, c)
  {
    if a != [] && a[0] == b[0] == c[0] {
      BeforeTransitive(a[1..], b[1..], c[1..]);
    }
  }

  predicate Ascending(names: seq<string>) {
    forall i, j | 0 <= i < j < |names| :: Before(names[i], names[j])
  }

  /** Two ascending lists of the same names are the same list. */
  lemma {:induction false} AscendingUnique(a: seq<string>, b: seq<string>)
    requires Ascending(a) && Ascending(b)
    requires forall n :: n in a <==> n in b
    ensures a == b
  {
    assert a != [] ==> a[0] in b;
    assert b != [] ==> b[0] in a;
    if a != [] {
      FirstIsLeast(a, b);
      FirstIsLeast(b, a);
      BeforeTotal(a[0], b[0]);
      forall n
        ensures n in a[1..] <==> n in b[1..]
      {
        TailMembers(a, n);
        TailMembers(b, n);
      }
      AscendingUnique(a[1..], b[1..]);
    }
  }

  lemma FirstIsLeast(a: seq<string>, b: seq<string>)
    requires Ascending(a) && a != [] && b != [] && b[0] in a
    ensures a[0] == b[0] || Before(a[0], b[0])
  {}

  lemma TailMembers(a: seq<string>, n: string)
    requires Ascending(a) && a != []
    ensures n in a[1..] <==> n in a && n != a[0]
  {
    BeforeTotal(a[0], a[0]);
    if n in a && n != a[0] {
      var i :| 0 <= i < |a| && a[i] == n;
      assert a[1..][i - 1] == n;
    }
  }

  predicate IsLeast(least: string, names: set<string>) {
    least in names && forall n | n in names :: n == least || Before(least, n)
  }

  lemma {:induction false} LeastExists(names: set<string>) returns (least: string)
    requires names != {}
    ensures IsLeast(least, names)
  {
    var x :| x in names;
    if names == {x} {
      least := x;
    } else {
      var m := LeastExists(names - {x});
      BeforeTotal(x, m);
      least := if Before(x, m) then x else m;
      forall n | n in names
        ensures n == least || Before(least, n)
      {
        if n != x && n != m && least == x {
          BeforeTransitive(x, m, n);
        }
      }
    }
  }

  /** The names of a set in ascending order. */
  ghost function SortedNames(names: set<string>): (sorted: seq<string>)
    ensures Ascending(sorted)
    ensures forall n :: n in sorted <==> n in names
  {
    if names == {} then []
    else
      SomeLeast(names);
      var least :| IsLeast(least, names);
      [least] + SortedNames(names - {least})
  }

  lemma SomeLeast(names: set<string>)
    requires names != {}
    ensures exists least :: IsLeast(least, names)
  {
    var least := LeastExists(names);
  }

  /** Sort the pairwise different names of a list: stands for `sort.Slice` with the name comparison. */
  method SortByName(names: seq<string>) returns (sorted: seq<string>)
    requires forall i, j | 0 <= i < j < |names| :: names[i] != names[j]
    ensures Ascending(sorted)
    ensures forall n :: n in sorted <==> n in names
  {
    sorted := [];
    for i := 0 to |names|
      invariant Ascending(sorted)
      invariant forall n :: n in sorted <==> n in names[..i]
    {
      var x := names[i];
      var p := 0;
      while p < |sorted| && Before(sorted[p], x)
        invariant p <= |sorted|
        invariant forall k | 0 <= k < p :: Before(sorted[k], x)
      {
        p := p + 1;
      }
      forall k | p <= k < |sorted|
        ensures Before(x, sorted[k])
      {
        assert sorted[k] in names[..i];
        BeforeTotal(x, sorted[p]);
        assert x != sorted[p] by {
          assert sorted[p] in names[..i];
        }
        if k > p {
          BeforeTransitive(x, sorted[p], sorted[k]);
        }
      }
      sorted := sorted[..p] + [x] + sorted[p..];
      assert names[..i + 1] == names[..i] + [x];
    }
    assert names[..|names|] == names;
  }
}
