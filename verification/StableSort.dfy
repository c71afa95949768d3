/** Array.prototype.sort with the comparator (a, b) => key(b) - key(a): descending, equals in their old order. */
module StableSort {
  import opened Prelude

  function Insert<T>(e: T, sorted: seq<T>, key: T -> real): seq<T>
    decreases |sorted|
  {
    if sorted == [] then [e]
    else if key(sorted[0]) >= key(e) then [sorted[0]] + Insert(e, sorted[1..], key)
    else [e] + sorted
  }

  function SortDown<T>(s: seq<T>, key: T -> real): (r: seq<T>)
    decreases |s|
  {
    if s == [] then [] else Insert(s[|s| - 1], SortDown(s[..|s| - 1], key), key)
  }

  ghost predicate Descending<T>(s: seq<T>, key: T -> real) {
    forall i, j :: 0 <= i < j < |s| ==> key(s[i]) >= key(s[j])
  }

  function OfKey<T>(key: T -> real, p: real): T -> bool {
    (e: T) => key(e) == p
  }

  lemma DescendingCons<T>(first: T, rest: seq<T>, key: T -> real)
    requires Descending(rest, key) && AtMost(rest, key, key(first))
    ensures Descending([first] + rest, key)
  {
  }

  ghost predicate AtMost<T>(s: seq<T>, key: T -> real, most: real) {
    forall i | 0 <= i < |s| :: key(s[i]) <= most
  }

  lemma {:induction false} InsertSorts<T>(e: T, sorted: seq<T>, key: T -> real, most: real)
    requires Descending(sorted, key) && AtMost(sorted, key, most) && key(e) <= most
    ensures Descending(Insert(e, sorted, key), key) && AtMost(Insert(e, sorted, key), key, most)
    decreases |sorted|
  {
    if sorted != [] {
      if key(sorted[0]) >= key(e) {
        InsertSorts(e, sorted[1..], key, key(sorted[0]));
        DescendingCons(sorted[0], Insert(e, sorted[1..], key), key);
      } else {
        DescendingCons(e, sorted, key);
      }
    }
  }

  lemma {:induction false} InsertAdds<T>(e: T, sorted: seq<T>, key: T -> real)
    ensures multiset(Insert(e, sorted, key)) == multiset(sorted) + multiset{e}
    decreases |sorted|
  {
    if sorted != [] {
      InsertAdds(e, sorted[1..], key);
      assert sorted == [sorted[0]] + sorted[1..];
    }
  }

  /** A new last element of key `p` comes after the others of key `p`. */
  ghost predicate Stably<T>(inserted: seq<T>, e: T, sorted: seq<T>, f: T -> bool) {
    Filter(inserted, f) == Filter(sorted, f) + if f(e) then [e] else []
  }

  lemma InsertAtFront<T>(e: T, sorted: seq<T>, f: T -> bool)
    requires f(e) ==> forall x | x in sorted :: !f(x)
    ensures Stably([e] + sorted, e, sorted, f)
  {
    FilterCons(e, sorted, f);
    if f(e) {
      FilterNone(sorted, f);
    }
  }

  lemma InsertBehind<T>(first: T, rest: seq<T>, inserted: seq<T>, e: T, f: T -> bool)
    requires Stably(inserted, e, rest, f)
    ensures Stably([first] + inserted, e, [first] + rest, f)
  {
    FilterCons(first, rest, f);
    FilterCons(first, inserted, f);
  }

  lemma {:induction false} InsertIsStable<T>(e: T, sorted: seq<T>, key: T -> real, p: real)
    requires Descending(sorted, key)
    ensures Stably(Insert(e, sorted, key), e, sorted, OfKey(key, p))
    decreases |sorted|
  {
    if sorted == [] {
      InsertAtFront(e, sorted, OfKey(key, p));
      assert [e] + sorted == [e];
    } else if key(sorted[0]) >= key(e) {
      InsertIsStable(e, sorted[1..], key, p);
      InsertBehind(sorted[0], sorted[1..], Insert(e, sorted[1..], key), e, OfKey(key, p));
      assert sorted == [sorted[0]] + sorted[1..];
    } else {
      InsertAtFront(e, sorted, OfKey(key, p));
    }
  }

  function Highest<T>(sorted: seq<T>, e: T, key: T -> real): real {
    if sorted != [] && key(sorted[0]) >= key(e) then key(sorted[0]) else key(e)
  }

  lemma InsertKeeps<T>(e: T, sorted: seq<T>, key: T -> real)
    requires Descending(sorted, key)
    ensures Descending(Insert(e, sorted, key), key)
    ensures multiset(Insert(e, sorted, key)) == multiset(sorted) + multiset{e}
  {
    InsertSorts(e, sorted, key, Highest(sorted, e, key));
    InsertAdds(e, sorted, key);
  }

  /** The sorted list is the same elements, higher keys first. */
  lemma {:induction false} SortDescends<T>(s: seq<T>, key: T -> real)
    ensures Descending(SortDown(s, key), key) && multiset(SortDown(s, key)) == multiset(s)
    decreases |s|
  {
    if s != [] {
      var n := |s| - 1;
      SortDescends(s[..n], key);
      InsertKeeps(s[n], SortDown(s[..n], key), key);
      assert s == s[..n] + [s[n]];
    }
  }

  /** Equals stay in their old order. */
  lemma {:induction false} SortIsStable<T>(s: seq<T>, key: T -> real, p: real)
    ensures Filter(SortDown(s, key), OfKey(key, p)) == Filter(s, OfKey(key, p))
    decreases |s|
  {
    if s != [] {
      var n := |s| - 1;
      SortDescends(s[..n], key);
      SortIsStable(s[..n], key, p);
      InsertIsStable(s[n], SortDown(s[..n], key), key, p);
      FilterSnoc(s, n, OfKey(key, p));
      assert s[..n + 1] == s;
    }
  }

  lemma SortMembers<T>(s: seq<T>, key: T -> real)
    ensures |SortDown(s, key)| == |s|
    ensures forall x | x in SortDown(s, key) :: x in s
    ensures forall x | x in s :: x in SortDown(s, key)
  {
    SortDescends(s, key);
    assert |multiset(SortDown(s, key))| == |multiset(s)|;
    forall x | x in SortDown(s, key) ensures x in s {
      assert x in multiset(s);
    }
    forall x | x in s ensures x in SortDown(s, key) {
      assert x in multiset(SortDown(s, key));
    }
  }

  lemma HeadKey<T>(s: seq<T>, t: seq<T>, key: T -> real)
    requires s != [] && Descending(t, key) && Filter(s, OfKey(key, key(s[0]))) == Filter(t, OfKey(key, key(s[0])))
    ensures t != [] && key(t[0]) >= key(s[0])
  {
    var f := OfKey(key, key(s[0]));
    assert Filter(s, f)[0] == s[0];
    FilterMembers(t, f);
    assert s[0] in Filter(t, f);
  }

  /** Descending order, and the old order within every key, leave only one list. */
  lemma {:induction false} SortIsUnique<T>(s: seq<T>, t: seq<T>, key: T -> real)
    requires Descending(s, key) && Descending(t, key)
    requires forall p: real :: Filter(s, OfKey(key, p)) == Filter(t, OfKey(key, p))
    ensures s == t
    decreases |s|
  {
    if s == [] {
      if t != [] {
        HeadKey(t, s, key);
      }
    } else {
      HeadKey(s, t, key);
      HeadKey(t, s, key);
      var f := OfKey(key, key(s[0]));
      assert Filter(s, f)[0] == s[0] && Filter(t, f)[0] == t[0];
      forall p: real ensures Filter(s[1..], OfKey(key, p)) == Filter(t[1..], OfKey(key, p)) {
        var g := OfKey(key, p);
        var first := if g(s[0]) then [s[0]] else [];
        assert Filter(s, g) == first + Filter(s[1..], g) && Filter(t, g) == first + Filter(t[1..], g);
        assert Filter(s, g)[|first|..] == Filter(s[1..], g) && Filter(t, g)[|first|..] == Filter(t[1..], g);
      }
      SortIsUnique(s[1..], t[1..], key);
      assert s == [s[0]] + s[1..] && t == [t[0]] + t[1..];
    }
  }

  lemma {:induction false} CollectInserted<T, U>(e: T, sorted: seq<T>, key: T -> real, f: T -> seq<U>)
    ensures multiset(Collect(Insert(e, sorted, key), f)) == multiset(Collect(sorted, f)) + multiset(f(e))
    decreases |sorted|
  {
    if sorted != [] && key(sorted[0]) >= key(e) {
      CollectInserted(e, sorted[1..], key, f);
      CollectCons(sorted[0], Insert(e, sorted[1..], key), f);
      CollectCons(sorted[0], sorted[1..], f);
      assert [sorted[0]] + sorted[1..] == sorted;
    } else {
      CollectCons(e, sorted, f);
      assert sorted == [] ==> [e] + sorted == [e];
    }
  }

  /** What is collected from the members does not depend on their order, up to its own order. */
  lemma {:induction false} CollectSorted<T, U>(s: seq<T>, key: T -> real, f: T -> seq<U>)
    ensures multiset(Collect(SortDown(s, key), f)) == multiset(Collect(s, f))
    decreases |s|
  {
    if s != [] {
      var n := |s| - 1;
      CollectSorted(s[..n], key, f);
      CollectInserted(s[n], SortDown(s[..n], key), key, f);
    }
  }
}
