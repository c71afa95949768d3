/**
 Which kept nodes a page with a circular parent relation loses
 (packages/browser-core/src/browser-semantic-tree.ts).
 */
module SemanticCycles {
  import opened Prelude
  import opened SemanticRegistry
  import opened SemanticTree
  import F = Forest

  /** `a` is `b` or an ancestor of it, by the page's own parents. */
  ghost predicate IsAbove(r: Registry, a: string, b: string) {
    exists d: nat :: Ancestor(r, b, d) == Some(a)
  }

  /** The parents of `x` lead into a cycle on which two different kept nodes lie. */
  ghost predicate EntersSharedCycle(r: Registry, kept: seq<string>, x: string) {
    exists y, z :: y in kept && z in kept && y != z && IsAbove(r, y, x) && IsAbove(r, z, y) && IsAbove(r, y, z)
  }

  lemma {:induction false} AncestorsAdd(r: Registry, x: string, m: nat, k: nat)
    requires Ancestor(r, x, m).Some?
    ensures Ancestor(r, x, m + k) == Ancestor(r, Ancestor(r, x, m).value, k)
  {
    if k > 0 {
      AncestorsAdd(r, x, m, k - 1);
    }
  }

  lemma AboveTwice(r: Registry, a: string, b: string, c: string)
    requires IsAbove(r, a, b) && IsAbove(r, b, c)
    ensures IsAbove(r, a, c)
  {
    var k: nat :| Ancestor(r, b, k) == Some(a);
    var m: nat :| Ancestor(r, c, m) == Some(b);
    AncestorsAdd(r, c, m, k);
  }

  lemma AttachedIsNearest(r: Registry, kept: seq<string>, x: string)
    ensures var p := Walk(r, kept, Next(r, x), {});
      IsNearest(r, kept, x, p) && Attached(r, kept, x) == if p == Some(x) then None else p
  {
    assert Ancestor(r, x, 0) == Some(x);
    WalkIsNearest(r, kept, x, Next(r, x), {}, 1);
  }

  // ---- A climb that never ends goes round a shared cycle ----

  lemma ParentIsAbove(r: Registry, kept: seq<string>, x: string)
    requires Attached(r, kept, x).Some?
    ensures var p := Attached(r, kept, x).value; p in kept && p != x && IsAbove(r, p, x)
  {
    AttachedIsNearest(r, kept, x);
    var p := Attached(r, kept, x);
    var d: nat :| d > 0 && FirstAt(r, kept, x, p, d);
  }

  lemma {:induction false} ClimbsAdd(up: F.Parents, x: string, m: nat, k: nat)
    requires F.Climb(up, x, m).Some?
    ensures F.Climb(up, x, m + k) == F.Climb(up, F.Climb(up, x, m).value, k)
  {
    if k > 0 {
      ClimbsAdd(up, x, m, k - 1);
    }
  }

  lemma {:induction false} ClimbIsAbove(r: Registry, kept: seq<string>, x: string, n: nat)
    requires x in kept && F.Climb(Attachments(r, kept), x, n).Some?
    ensures var y := F.Climb(Attachments(r, kept), x, n).value; y in kept && IsAbove(r, y, x)
  {
    if n == 0 {
      assert Ancestor(r, x, 0) == Some(x);
    } else {
      var up := Attachments(r, kept);
      ClimbIsAbove(r, kept, x, n - 1);
      var below := F.Climb(up, x, n - 1).value;
      ParentIsAbove(r, kept, below);
      AboveTwice(r, F.Climb(up, x, n).value, below, x);
    }
  }

  lemma {:induction false} MembersCounted(c: seq<string>, members: set<string>)
    requires Distinct(c) && forall x | x in c :: x in members
    ensures |c| <= |members|
    decreases |c|
  {
    if c != [] {
      assert c == [c[0]] + c[1..];
      forall x | x in c[1..] ensures x in members - {c[0]} {
        assert x in c;
      }
      MembersCounted(c[1..], members - {c[0]});
    }
  }

  ghost predicate EndsWithin(r: Registry, kept: seq<string>, x: string, n: nat) {
    F.Climb(Attachments(r, kept), x, n).None?
  }

  ghost predicate ClimbEnds(r: Registry, kept: seq<string>, x: string) {
    exists n: nat :: EndsWithin(r, kept, x, n)
  }

  /** The first `n` nodes of a climb. */
  ghost function Passed(r: Registry, kept: seq<string>, x: string, n: nat): (c: seq<string>)
    requires !ClimbEnds(r, kept, x)
    ensures |c| == n && forall i | 0 <= i < n :: Some(c[i]) == F.Climb(Attachments(r, kept), x, i)
  {
    if n == 0 then []
    else
      assert !EndsWithin(r, kept, x, n - 1);
      Passed(r, kept, x, n - 1) + [F.Climb(Attachments(r, kept), x, n - 1).value]
  }

  /** A climb of more steps than there are nodes comes back to one it has been at. */
  lemma ClimbRepeats(r: Registry, kept: seq<string>, x: string) returns (m: nat, n: nat)
    requires x in kept && !ClimbEnds(r, kept, x)
    ensures m < n && F.Climb(Attachments(r, kept), x, m) == F.Climb(Attachments(r, kept), x, n)
  {
    var members := set k | k in kept;
    var c := Passed(r, kept, x, |members| + 1);
    forall y | y in c ensures y in members {
      var i :| 0 <= i < |c| && c[i] == y;
      ClimbIsAbove(r, kept, x, i);
    }
    if Distinct(c) {
      MembersCounted(c, members);
    }
    var i, j :| 0 <= i < j < |c| && c[i] == c[j];
    m, n := i, j;
  }

  lemma ClimbStep(r: Registry, kept: seq<string>, x: string, m: nat)
    requires F.Climb(Attachments(r, kept), x, m).Some? && F.Climb(Attachments(r, kept), x, m).value in kept
    ensures F.Climb(Attachments(r, kept), x, m + 1) == Attached(r, kept, F.Climb(Attachments(r, kept), x, m).value)
  {
    assert F.Climb(Attachments(r, kept), x, m + 1) ==
      F.Above(Attachments(r, kept), F.Climb(Attachments(r, kept), x, m));
  }

  lemma RepeatIsShared(r: Registry, kept: seq<string>, x: string, y: string, z: string, k: nat)
    requires y in kept && IsAbove(r, y, x) && Attached(r, kept, y) == Some(z)
    requires F.Climb(Attachments(r, kept), z, k) == Some(y)
    ensures EntersSharedCycle(r, kept, x)
  {
    ParentIsAbove(r, kept, y);
    ClimbIsAbove(r, kept, z, k);
  }

  lemma EndlessClimbIsShared(r: Registry, kept: seq<string>, x: string)
    requires x in kept && !ClimbEnds(r, kept, x)
    ensures EntersSharedCycle(r, kept, x)
  {
    var m, n := ClimbRepeats(r, kept, x);
    assert !EndsWithin(r, kept, x, m) && !EndsWithin(r, kept, x, m + 1);
    var y, z := F.Climb(Attachments(r, kept), x, m).value, F.Climb(Attachments(r, kept), x, m + 1).value;
    ClimbIsAbove(r, kept, x, m);
    ClimbStep(r, kept, x, m);
    ClimbsAdd(Attachments(r, kept), x, m + 1, n - (m + 1));
    RepeatIsShared(r, kept, x, y, z, n - (m + 1));
  }

  // ---- A shared cycle keeps a climb from ending ----

  /** A node that is its own nearest kept ancestor has no other kept ancestor. */
  lemma {:induction false} AloneOnCycle(r: Registry, kept: seq<string>, x: string, m: nat, d: nat)
    requires m > 0 && FirstAt(r, kept, x, Some(x), m) && Ancestor(r, x, d).Some? && Ancestor(r, x, d).value in kept
    ensures Ancestor(r, x, d) == Some(x)
    decreases d
  {
    if d >= m {
      AncestorsAdd(r, x, m, d - m);
      AloneOnCycle(r, kept, x, m, d - m);
    }
  }

  /** The kept parent of a node below the cycle is below the cycle too, and not the node itself. */
  lemma StaysBelowCycle(r: Registry, kept: seq<string>, w: string, y: string, z: string)
    requires y in kept && z in kept && y != z && IsAbove(r, y, w) && IsAbove(r, z, y) && IsAbove(r, y, z)
    ensures Attached(r, kept, w).Some? && IsAbove(r, y, Attached(r, kept, w).value)
  {
    AttachedIsNearest(r, kept, w);
    AboveTwice(r, z, y, w);
    var other := if w == y then z else y;
    var d: nat :| Ancestor(r, w, d) == Some(other);
    var p := Walk(r, kept, Next(r, w), {});
    assert d > 0;
    var m: nat :| m > 0 && FirstAt(r, kept, w, p, m);
    if p == Some(w) {
      AloneOnCycle(r, kept, w, m, d);
      assert false;
    }
    assert m <= d;
    AncestorsAdd(r, w, m, d - m);
    assert IsAbove(r, other, p.value);
    if w == y {
      AboveTwice(r, y, z, p.value);
    }
  }

  lemma {:induction false} SharedCycleNeverEnds(r: Registry, kept: seq<string>, x: string, y: string, z: string, n: nat)
    requires x in kept && y in kept && z in kept && y != z && IsAbove(r, y, x) && IsAbove(r, z, y) && IsAbove(r, y, z)
    ensures var at := F.Climb(Attachments(r, kept), x, n); at.Some? && at.value in kept && IsAbove(r, y, at.value)
  {
    if n > 0 {
      var up := Attachments(r, kept);
      SharedCycleNeverEnds(r, kept, x, y, z, n - 1);
      var below := F.Climb(up, x, n - 1).value;
      StaysBelowCycle(r, kept, below, y, z);
    }
  }

  // ---- Main result ----

  lemma ClimbEndsIff(r: Registry, kept: seq<string>, x: string)
    requires x in kept
    ensures ClimbEnds(r, kept, x) <==> !EntersSharedCycle(r, kept, x)
  {
    if !ClimbEnds(r, kept, x) {
      EndlessClimbIsShared(r, kept, x);
    } else if EntersSharedCycle(r, kept, x) {
      var y, z :| y in kept && z in kept && y != z && IsAbove(r, y, x) && IsAbove(r, z, y) && IsAbove(r, y, z);
      var n: nat :| EndsWithin(r, kept, x, n);
      SharedCycleNeverEnds(r, kept, x, y, z, n);
    }
  }

  /** The tree, listed as far as depth `n`, holds `x`. */
  ghost predicate HeldWithin(r: Registry, kept: seq<string>, x: string, n: nat) {
    x in F.ListedForest(kept, Attachments(r, kept), n)
  }

  lemma HeldIffClimbEnds(r: Registry, readers: Readers, x: string, n: nat)
    requires OrderOk(r, r.main) && x in KeptKeys(r, readers)
    ensures HeldWithin(r, KeptKeys(r, readers), x, n) <==> EndsWithin(r, KeptKeys(r, readers), x, n)
  {
    KeptNodesAreNeverRepeated(r, readers, x, n);
    var listed := F.ListedForest(KeptKeys(r, readers), Attachments(r, KeptKeys(r, readers)), n);
    assert x in listed <==> x in multiset(listed);
  }

  /**
   On any page, a kept node is missing from the tree, at every depth, exactly when its parents lead into a cycle that
   two different kept nodes lie on. A kept node alone on its cycle becomes a root.
   */
  lemma LostIffCycleIsShared(r: Registry, readers: Readers, x: string)
    requires OrderOk(r, r.main) && x in KeptKeys(r, readers)
    ensures (exists n: nat :: HeldWithin(r, KeptKeys(r, readers), x, n)) <==>
      !EntersSharedCycle(r, KeptKeys(r, readers), x)
  {
    var kept := KeptKeys(r, readers);
    ClimbEndsIff(r, kept, x);
    if n: nat :| HeldWithin(r, kept, x, n) {
      HeldIffClimbEnds(r, readers, x, n);
    }
    if n: nat :| EndsWithin(r, kept, x, n) {
      HeldIffClimbEnds(r, readers, x, n);
    }
  }
}
