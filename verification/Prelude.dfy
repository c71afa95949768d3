/** Values shared by the modules: optional results and filtering in list order. */
module Prelude {

  datatype Option<+T> = None | Some(value: T)

  ghost predicate Distinct<T>(s: seq<T>) {
    forall i, j :: 0 <= i < j < |s| ==> s[i] != s[j]
  }

  /** Every member stands in `rel` to every later one. */
  ghost predicate Pairwise<T>(s: seq<T>, rel: (T, T) -> bool) {
    forall i, j :: 0 <= i < j < |s| ==> rel(s[i], s[j])
  }

  lemma PairwiseParts<T>(a: seq<T>, b: seq<T>, rel: (T, T) -> bool)
    requires Pairwise(a + b, rel)
    ensures Pairwise(a, rel) && Pairwise(b, rel) && forall x, y | x in a && y in b :: rel(x, y)
  {
    var s := a + b;
    forall i, j | 0 <= i < j < |a| ensures rel(a[i], a[j]) { assert rel(s[i], s[j]); }
    forall i, j | 0 <= i < j < |b| ensures rel(b[i], b[j]) { assert rel(s[|a| + i], s[|a| + j]); }
    forall x, y | x in a && y in b ensures rel(x, y) {
      var i :| 0 <= i < |a| && a[i] == x;
      var j :| 0 <= j < |b| && b[j] == y;
      assert rel(s[i], s[|a| + j]);
    }
  }

  lemma DistinctParts<T>(a: seq<T>, b: seq<T>)
    requires Distinct(a + b)
    ensures Distinct(a) && Distinct(b) && forall x | x in a :: x !in b
  {
    PairwiseParts(a, b, (x: T, y: T) => x != y);
  }

  /** The members of `s` that satisfy `keep`, in order (Array.prototype.filter). */
  function Filter<T>(s: seq<T>, keep: T -> bool): (r: seq<T>)
    ensures |r| <= |s|
  {
    if s == [] then []
    else (if keep(s[0]) then [s[0]] else []) + Filter(s[1..], keep)
  }

  lemma FilterCons<T>(first: T, rest: seq<T>, keep: T -> bool)
    ensures Filter([first] + rest, keep) == (if keep(first) then [first] else []) + Filter(rest, keep)
  {
    assert ([first] + rest)[1..] == rest;
  }

  lemma {:induction false} FilterMembers<T>(s: seq<T>, keep: T -> bool)
    ensures forall x | x in Filter(s, keep) :: x in s && keep(x)
    ensures forall x | x in s && keep(x) :: x in Filter(s, keep)
  {
    if s != [] {
      FilterMembers(s[1..], keep);
      assert s == [s[0]] + s[1..];
    }
  }

  lemma {:induction false} FilterKeepsPairwise<T>(s: seq<T>, keep: T -> bool, rel: (T, T) -> bool)
    requires Pairwise(s, rel)
    ensures Pairwise(Filter(s, keep), rel)
  {
    if s != [] {
      FilterKeepsPairwise(s[1..], keep, rel);
      FilterMembers(s[1..], keep);
      PairwiseCons(s, Filter(s[1..], keep), rel);
    }
  }

  lemma PairwiseCons<T>(s: seq<T>, part: seq<T>, rel: (T, T) -> bool)
    requires s != [] && Pairwise(s, rel) && Pairwise(part, rel) && forall x | x in part :: x in s[1..]
    ensures Pairwise([s[0]] + part, rel)
  {
    forall i | 0 <= i < |part| ensures rel(s[0], part[i]) {
      assert part[i] in s[1..];
      var k :| 0 < k < |s| && s[k] == part[i];
    }
  }

  lemma {:induction false} FilterAppend<T>(a: seq<T>, b: seq<T>, keep: T -> bool)
    ensures Filter(a + b, keep) == Filter(a, keep) + Filter(b, keep)
  {
    if a == [] {
      assert a + b == b;
    } else {
      var first := if keep(a[0]) then [a[0]] else [];
      assert (a + b)[1..] == a[1..] + b;
      FilterAppend(a[1..], b, keep);
      assert Filter(a + b, keep) == first + (Filter(a[1..], keep) + Filter(b, keep));
    }
  }

  lemma FilterSnoc<T>(s: seq<T>, i: nat, keep: T -> bool)
    requires i < |s|
    ensures Filter(s[..i + 1], keep) == Filter(s[..i], keep) + if keep(s[i]) then [s[i]] else []
  {
    assert s[..i + 1] == s[..i] + [s[i]];
    FilterAppend(s[..i], [s[i]], keep);
  }

  /** Only the values of `keep` on the list's own members matter. */
  lemma {:induction false} FilterSame<T>(s: seq<T>, f: T -> bool, g: T -> bool)
    requires forall x | x in s :: f(x) == g(x)
    ensures Filter(s, f) == Filter(s, g)
  {
    if s != [] {
      FilterSame(s[1..], f, g);
    }
  }

  lemma {:induction false} FilterTwice<T>(s: seq<T>, f: T -> bool, g: T -> bool, both: T -> bool)
    requires forall x | x in s :: both(x) == (f(x) && g(x))
    ensures Filter(Filter(s, f), g) == Filter(s, both)
  {
    if s != [] {
      FilterTwice(s[1..], f, g, both);
      FilterAppend(if f(s[0]) then [s[0]] else [], Filter(s[1..], f), g);
    }
  }

  lemma {:induction false} FilterAll<T>(s: seq<T>, keep: T -> bool)
    requires forall x | x in s :: keep(x)
    ensures Filter(s, keep) == s
  {
    if s != [] {
      FilterAll(s[1..], keep);
    }
  }

  lemma {:induction false} FilterNone<T>(s: seq<T>, keep: T -> bool)
    requires forall x | x in s :: !keep(x)
    ensures Filter(s, keep) == []
  {
    if s != [] {
      FilterNone(s[1..], keep);
    }
  }

  /** What `f` makes of the members of `s`, one after the other. */
  function Collect<T, U>(s: seq<T>, f: T -> seq<U>): seq<U>
    decreases |s|
  {
    if s == [] then [] else Collect(s[..|s| - 1], f) + f(s[|s| - 1])
  }

  lemma CollectSnoc<T, U>(s: seq<T>, i: nat, f: T -> seq<U>)
    requires i < |s|
    ensures Collect(s[..i + 1], f) == Collect(s[..i], f) + f(s[i])
  {
    assert s[..i + 1][..i] == s[..i];
  }

  lemma CollectMore<T, U>(seed: seq<U>, s: seq<T>, i: nat, f: T -> seq<U>, have: seq<U>)
    requires i < |s| && have == seed + Collect(s[..i], f)
    ensures have + f(s[i]) == seed + Collect(s[..i + 1], f)
  {
    CollectSnoc(s, i, f);
  }

  lemma {:induction false} CollectPrefix<T, U>(s: seq<T>, i: nat, f: T -> seq<U>)
    requires i <= |s|
    ensures Collect(s[..i], f) <= Collect(s, f)
    decreases |s|
  {
    if i < |s| {
      CollectPrefix(s[..|s| - 1], i, f);
      assert s[..|s| - 1][..i] == s[..i];
    } else {
      assert s[..i] == s;
    }
  }

  lemma {:induction false} CollectCons<T, U>(first: T, rest: seq<T>, f: T -> seq<U>)
    ensures Collect([first] + rest, f) == f(first) + Collect(rest, f)
    decreases |rest|
  {
    var all := [first] + rest;
    if rest == [] {
      assert all[..|all| - 1] == [] && all[|all| - 1] == first;
      assert Collect(all[..|all| - 1], f) == [];
      assert f(first) + [] == [] + f(first);
    } else {
      var n := |rest| - 1;
      CollectCons(first, rest[..n], f);
      assert all[..|all| - 1] == [first] + rest[..n];
      assert f(first) + (Collect(rest[..n], f) + f(rest[n])) == (f(first) + Collect(rest[..n], f)) + f(rest[n]);
    }
  }

  lemma CollectFirst<T, U>(s: seq<T>, f: T -> seq<U>)
    requires s != []
    ensures Collect(s, f) == f(s[0]) + Collect(s[1..], f)
  {
    CollectCons(s[0], s[1..], f);
    assert [s[0]] + s[1..] == s;
  }

  lemma {:induction false} CollectMembers<T, U>(s: seq<T>, f: T -> seq<U>, x: U)
    ensures x in Collect(s, f) <==> exists e | e in s :: x in f(e)
    decreases |s|
  {
    if s != [] {
      CollectMembers(s[..|s| - 1], f, x);
      assert s == s[..|s| - 1] + [s[|s| - 1]];
    }
  }
}
