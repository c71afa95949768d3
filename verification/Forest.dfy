/** Trees given by parent pointers: what is reached from the roots, and how often. */
module Forest {
  import opened Prelude

  type Parents = map<string, Option<string>>

  ghost predicate Closed(keys: seq<string>, up: Parents) {
    forall x {:trigger x in up} :: x in keys ==> x in up && (up[x].Some? ==> up[x].value in keys)
  }

  function HasParent(up: Parents, p: Option<string>): string -> bool {
    (x: string) => x in up && up[x] == p
  }

  /** The children of a node in order; those without a parent are the roots. */
  function ChildrenOf(keys: seq<string>, up: Parents, p: Option<string>): seq<string> {
    Filter(keys, HasParent(up, p))
  }

  /** The tree below `k`, listed from the top, as far as depth `n`. */
  function Listed(keys: seq<string>, up: Parents, k: string, n: nat): seq<string>
    decreases n, 0, 0
  {
    if n == 0 then [] else [k] + ListedAll(keys, up, ChildrenOf(keys, up, Some(k)), n - 1)
  }

  function ListedAll(keys: seq<string>, up: Parents, ks: seq<string>, n: nat): seq<string>
    decreases n, 1, |ks|
  {
    if ks == [] then [] else Listed(keys, up, ks[0], n) + ListedAll(keys, up, ks[1..], n)
  }

  /** The whole forest as far as depth `n`. */
  function ListedForest(keys: seq<string>, up: Parents, n: nat): seq<string> {
    ListedAll(keys, up, ChildrenOf(keys, up, None), n)
  }

  /** The node `d` steps above `x`. */
  function Climb(up: Parents, x: string, d: nat): Option<string> {
    if d == 0 then Some(x)
    else Above(up, Climb(up, x, d - 1))
  }

  function Above(up: Parents, at: Option<string>): Option<string> {
    if at.Some? && at.value in up then up[at.value] else None
  }

  lemma {:induction false} ClimbStays(keys: seq<string>, up: Parents, x: string, d: nat)
    requires Closed(keys, up) && x in keys
    ensures Climb(up, x, d).Some? ==> Climb(up, x, d).value in keys
  {
    if d > 0 {
      ClimbStays(keys, up, x, d - 1);
    }
  }

  // ---- Counting ----

  function One(b: bool): nat {
    if b then 1 else 0
  }

  /** How many of the first `n` steps up from `x` are at `k`. */
  function Hits(up: Parents, x: string, k: string, n: nat): nat {
    if n == 0 then 0 else Hits(up, x, k, n - 1) + One(Climb(up, x, n - 1) == Some(k))
  }

  function HitsIn(up: Parents, x: string, ks: seq<string>, n: nat): nat {
    if ks == [] then 0 else Hits(up, x, ks[0], n) + HitsIn(up, x, ks[1..], n)
  }

  function At(ks: seq<string>, y: Option<string>): nat {
    if ks == [] then 0 else One(y == Some(ks[0])) + At(ks[1..], y)
  }

  lemma {:induction false} AtOnce(ks: seq<string>, y: Option<string>)
    requires Distinct(ks)
    ensures At(ks, y) == One(y.Some? && y.value in ks)
  {
    if ks != [] {
      AtOnce(ks[1..], y);
      assert ks[0] !in ks[1..];
      assert ks == [ks[0]] + ks[1..];
    }
  }

  lemma {:induction false} HitsInStep(up: Parents, x: string, ks: seq<string>, n: nat)
    ensures HitsIn(up, x, ks, n + 1) == HitsIn(up, x, ks, n) + At(ks, Climb(up, x, n))
  {
    if ks != [] {
      HitsInStep(up, x, ks[1..], n);
    }
  }

  lemma FilterKeepsDistinct(keys: seq<string>, keep: string -> bool)
    requires Distinct(keys)
    ensures Distinct(Filter(keys, keep))
  {
    FilterKeepsPairwise(keys, keep, (x: string, y: string) => x != y);
  }

  lemma ChildStep(keys: seq<string>, up: Parents, k: string, at: Option<string>)
    requires Distinct(keys) && Closed(keys, up) && (at.Some? ==> at.value in keys)
    ensures At(ChildrenOf(keys, up, Some(k)), at) == One(Above(up, at) == Some(k))
  {
    FilterKeepsDistinct(keys, HasParent(up, Some(k)));
    FilterMembers(keys, HasParent(up, Some(k)));
    AtOnce(ChildrenOf(keys, up, Some(k)), at);
  }

  ghost predicate Follow(up: Parents, x: string, k: string, children: seq<string>, n: nat) {
    HitsIn(up, x, children, n) + One(x == k) == Hits(up, x, k, n + 1)
  }

  lemma FollowStep(up: Parents, x: string, k: string, children: seq<string>, n: nat)
    requires Follow(up, x, k, children, n)
    requires At(children, Climb(up, x, n)) == One(Above(up, Climb(up, x, n)) == Some(k))
    ensures Follow(up, x, k, children, n + 1)
  {
    HitsInStep(up, x, children, n);
    assert Climb(up, x, n + 1) == Above(up, Climb(up, x, n));
  }

  /** Steps at a child of `k` are followed by steps at `k`. */
  lemma {:induction false} HitsBelow(keys: seq<string>, up: Parents, x: string, k: string, n: nat)
    requires Distinct(keys) && Closed(keys, up) && x in keys
    ensures Follow(up, x, k, ChildrenOf(keys, up, Some(k)), n)
  {
    if n == 0 {
      NoHits(up, x, ChildrenOf(keys, up, Some(k)));
      assert Hits(up, x, k, 1) == Hits(up, x, k, 0) + One(Climb(up, x, 0) == Some(k));
    } else {
      HitsBelow(keys, up, x, k, n - 1);
      ClimbStays(keys, up, x, n - 1);
      ChildStep(keys, up, k, Climb(up, x, n - 1));
      FollowStep(up, x, k, ChildrenOf(keys, up, Some(k)), n - 1);
    }
  }

  lemma {:induction false} NoHits(up: Parents, x: string, ks: seq<string>)
    ensures HitsIn(up, x, ks, 0) == 0
  {
    if ks != [] {
      NoHits(up, x, ks[1..]);
    }
  }

  /** A step is at a root exactly when it is the last one of its climb. */
  lemma RootStep(keys: seq<string>, up: Parents, at: Option<string>)
    requires Distinct(keys) && Closed(keys, up) && (at.Some? ==> at.value in keys)
    ensures One(at.None?) + At(ChildrenOf(keys, up, None), at) == One(Above(up, at).None?)
  {
    FilterKeepsDistinct(keys, HasParent(up, None));
    FilterMembers(keys, HasParent(up, None));
    AtOnce(ChildrenOf(keys, up, None), at);
  }

  ghost predicate Ends(up: Parents, x: string, roots: seq<string>, n: nat) {
    HitsIn(up, x, roots, n) == One(Climb(up, x, n).None?)
  }

  lemma EndsStep(up: Parents, x: string, roots: seq<string>, n: nat)
    requires Ends(up, x, roots, n)
    requires One(Climb(up, x, n).None?) + At(roots, Climb(up, x, n)) == One(Above(up, Climb(up, x, n)).None?)
    ensures Ends(up, x, roots, n + 1)
  {
    HitsInStep(up, x, roots, n);
    assert Climb(up, x, n + 1) == Above(up, Climb(up, x, n));
  }

  /** The climb passes at most one root, its last node; it has passed it once it is over. */
  lemma {:induction false} HitsAtRoots(keys: seq<string>, up: Parents, x: string, n: nat)
    requires Distinct(keys) && Closed(keys, up) && x in keys
    ensures Ends(up, x, ChildrenOf(keys, up, None), n)
  {
    if n == 0 {
      NoHits(up, x, ChildrenOf(keys, up, None));
    } else {
      HitsAtRoots(keys, up, x, n - 1);
      ClimbStays(keys, up, x, n - 1);
      RootStep(keys, up, Climb(up, x, n - 1));
      EndsStep(up, x, ChildrenOf(keys, up, None), n - 1);
    }
  }

  lemma ConsCounts(k: string, rest: seq<string>, x: string)
    ensures multiset([k] + rest)[x] == One(x == k) + multiset(rest)[x]
  {
    assert multiset([k] + rest) == multiset{k} + multiset(rest);
  }

  lemma ListedStep(keys: seq<string>, up: Parents, x: string, k: string, children: seq<string>, n: nat)
    requires n > 0 && children == ChildrenOf(keys, up, Some(k)) && Follow(up, x, k, children, n - 1)
    requires multiset(ListedAll(keys, up, children, n - 1))[x] == HitsIn(up, x, children, n - 1)
    ensures multiset(Listed(keys, up, k, n))[x] == Hits(up, x, k, n)
  {
    ConsCounts(k, ListedAll(keys, up, children, n - 1), x);
  }

  lemma {:induction false} ListedCounts(keys: seq<string>, up: Parents, x: string, k: string, n: nat)
    requires Distinct(keys) && Closed(keys, up) && x in keys
    ensures multiset(Listed(keys, up, k, n))[x] == Hits(up, x, k, n)
    decreases n, 0, 0
  {
    if n > 0 {
      var children := ChildrenOf(keys, up, Some(k));
      ListedAllCounts(keys, up, x, children, n - 1);
      HitsBelow(keys, up, x, k, n - 1);
      ListedStep(keys, up, x, k, children, n);
    }
  }

  lemma {:induction false} ListedAllCounts(keys: seq<string>, up: Parents, x: string, ks: seq<string>, n: nat)
    requires Distinct(keys) && Closed(keys, up) && x in keys
    ensures multiset(ListedAll(keys, up, ks, n))[x] == HitsIn(up, x, ks, n)
    decreases n, 1, |ks|
  {
    if ks != [] {
      ListedCounts(keys, up, x, ks[0], n);
      ListedAllCounts(keys, up, x, ks[1..], n);
    }
  }

  /**
   Whatever the parent pointers: as far as depth `n` the forest holds a node once if its climb ends within
   `n` steps, and otherwise not at all. In particular no node is ever in it twice.
   */
  lemma HeldOnceIffClimbEnds(keys: seq<string>, up: Parents, x: string, n: nat)
    requires Distinct(keys) && Closed(keys, up) && x in keys
    ensures multiset(ListedForest(keys, up, n))[x] == if Climb(up, x, n).None? then 1 else 0
  {
    ListedAllCounts(keys, up, x, ChildrenOf(keys, up, None), n);
    HitsAtRoots(keys, up, x, n);
  }

  lemma {:induction false} ListedAreKeys(keys: seq<string>, up: Parents, k: string, n: nat)
    requires k in keys
    ensures forall x | x in Listed(keys, up, k, n) :: x in keys
    decreases n, 0, 0
  {
    if n > 0 {
      FilterMembers(keys, HasParent(up, Some(k)));
      ListedAllAreKeys(keys, up, ChildrenOf(keys, up, Some(k)), n - 1);
    }
  }

  lemma {:induction false} ListedAllAreKeys(keys: seq<string>, up: Parents, ks: seq<string>, n: nat)
    requires forall k | k in ks :: k in keys
    ensures forall x | x in ListedAll(keys, up, ks, n) :: x in keys
    decreases n, 1, |ks|
  {
    if ks != [] {
      ListedAreKeys(keys, up, ks[0], n);
      ListedAllAreKeys(keys, up, ks[1..], n);
    }
  }

  lemma {:induction false} DistinctOnce(keys: seq<string>, x: string)
    requires Distinct(keys)
    ensures multiset(keys)[x] == One(x in keys)
  {
    if keys != [] {
      DistinctOnce(keys[1..], x);
      assert keys == [keys[0]] + keys[1..];
      assert keys[0] !in keys[1..];
    }
  }

  /** When every climb ends within `n` steps, the forest holds exactly the nodes, each once. */
  lemma HoldsAllOnce(keys: seq<string>, up: Parents, n: nat)
    requires Distinct(keys) && Closed(keys, up) && forall x | x in keys :: Climb(up, x, n).None?
    ensures multiset(ListedForest(keys, up, n)) == multiset(keys)
  {
    FilterMembers(keys, HasParent(up, None));
    ListedAllAreKeys(keys, up, ChildrenOf(keys, up, None), n);
    forall x ensures multiset(ListedForest(keys, up, n))[x] == multiset(keys)[x] {
      DistinctOnce(keys, x);
      if x in keys {
        HeldOnceIffClimbEnds(keys, up, x, n);
      } else {
        assert x !in ListedForest(keys, up, n);
      }
    }
  }
}
