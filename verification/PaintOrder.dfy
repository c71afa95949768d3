/** Leaving out elements that a later-painted one covers (packages/browser-core/src/dom-serializer.ts). */
module PaintOrder {
  import opened Prelude
  import opened StableSort

  datatype Box = Box(x: real, y: real, width: real, height: real)
  datatype Element = Element(index: int, paintOrder: Option<real>, box: Box)

  function Paint(e: Element): (order: real)
    ensures e.paintOrder == Some(order) || (e.paintOrder.None? && order == 0.0)
  {
    if e.paintOrder.Some? then e.paintOrder.value else 0.0
  }

  predicate IsFullyContained(a: Box, b: Box) {
    a.x >= b.x && a.y >= b.y && a.x + a.width <= b.x + b.width && a.y + a.height <= b.y + b.height
  }

  predicate HoldsPoint(b: Box, x: real, y: real) {
    b.x <= x <= b.x + b.width && b.y <= y <= b.y + b.height
  }

  /** A box contains another exactly when it holds each of its points. */
  lemma ContainedIffPoints(a: Box, b: Box)
    requires a.width >= 0.0 && a.height >= 0.0
    ensures IsFullyContained(a, b) <==> forall x: real, y: real :: HoldsPoint(a, x, y) ==> HoldsPoint(b, x, y)
  {
    assert HoldsPoint(a, a.x, a.y) && HoldsPoint(a, a.x + a.width, a.y + a.height);
  }

  function SortByPaint(elements: seq<Element>): seq<Element> {
    SortDown(elements, Paint)
  }

  // ---- What stays visible ----

  predicate Covered(s: seq<Element>, i: nat)
    requires i < |s|
  {
    exists j | 0 <= j < i :: IsFullyContained(s[i].box, s[j].box)
  }

  /** Of a list sorted by paint order, the elements that no earlier one in it fully contains. */
  function Visible(s: seq<Element>): (r: seq<Element>)
    ensures |r| <= |s|
  {
    if s == [] then []
    else
      var n := |s| - 1;
      Visible(s[..n]) + if Covered(s, n) then [] else [s[n]]
  }

  ghost predicate DistinctIndices(s: seq<Element>) {
    forall i, j :: 0 <= i < j < |s| ==> s[i].index != s[j].index
  }

  lemma {:induction false} VisibleMembers(s: seq<Element>, i: nat)
    requires i < |s|
    ensures !Covered(s, i) ==> s[i] in Visible(s)
  {
    var n := |s| - 1;
    if i < n {
      VisibleMembers(s[..n], i);
      assert Covered(s, i) <==> Covered(s[..n], i) by {
        assert forall j | 0 <= j <= i :: s[..n][j] == s[j];
      }
    }
  }

  /** Even when the covering element was itself removed, some kept one contains it, and so everything it covers. */
  lemma {:induction false} CoverIsKept(s: seq<Element>, i: nat) returns (k: nat)
    requires i < |s|
    ensures k <= i && s[k] in Visible(s) && (k == i || IsFullyContained(s[i].box, s[k].box))
    decreases i
  {
    if Covered(s, i) {
      var j :| 0 <= j < i && IsFullyContained(s[i].box, s[j].box);
      k := CoverIsKept(s, j);
    } else {
      VisibleMembers(s, i);
      k := i;
    }
  }

  method IsOccluded(sorted: seq<Element>, i: nat) returns (occluded: bool)
    requires i < |sorted|
    ensures occluded <==> Covered(sorted, i)
  {
    var j := 0;
    while j < i
      invariant 0 <= j <= i
      invariant forall k | 0 <= k < j :: !IsFullyContained(sorted[i].box, sorted[k].box)
    {
      if IsFullyContained(sorted[i].box, sorted[j].box) {
        return true;
      }
      j := j + 1;
    }
    return false;
  }

  lemma VisibleStep(s: seq<Element>, i: nat)
    requires i < |s|
    ensures Visible(s[..i + 1]) == Visible(s[..i]) + if Covered(s, i) then [] else [s[i]]
  {
    var longer := s[..i + 1];
    assert longer[..i] == s[..i];
    assert forall j | 0 <= j <= i :: longer[j] == s[j];
  }

  method FilterByPaintOrder(elements: seq<Element>) returns (kept: seq<Element>, filteredCount: nat)
    ensures DistinctIndices(elements) ==> kept == Visible(SortByPaint(elements)) && |kept| + filteredCount == |elements|
  {
    var sorted := SortByPaint(elements);
    SortDescends(elements, Paint);
    assert |sorted| == |multiset(sorted)| == |multiset(elements)| == |elements|;
    ghost var distinct := DistinctIndices(elements);
    if distinct {
      SortedDistinct(elements, sorted);
    }
    var excluded: set<int> := {};
    kept := [];
    var i := 0;
    while i < |sorted|
      invariant 0 <= i <= |sorted|
      invariant distinct ==> kept == Visible(sorted[..i]) && |kept| + |excluded| == i
      invariant forall x | x in excluded :: exists j | 0 <= j < i :: sorted[j].index == x
    {
      var current := sorted[i];
      VisibleStep(sorted, i);
      if current.index !in excluded {
        var occluded := IsOccluded(sorted, i);
        if !occluded {
          kept := kept + [current];
        } else {
          excluded := excluded + {current.index};
        }
      }
      i := i + 1;
    }
    assert sorted[..i] == sorted;
    filteredCount := |excluded|;
  }

  lemma SortedDistinct(elements: seq<Element>, sorted: seq<Element>)
    requires multiset(sorted) == multiset(elements) && DistinctIndices(elements)
    ensures DistinctIndices(sorted)
  {
    forall i, j | 0 <= i < j < |sorted| ensures sorted[i].index != sorted[j].index {
      if sorted[i].index == sorted[j].index {
        var a, b := sorted[i], sorted[j];
        assert a in multiset(elements) && b in multiset(elements);
        assert a == b;
        TwiceInSequence(sorted, i, j);
        OnceInSequence(elements, a);
      }
    }
  }

  lemma TwiceInSequence(s: seq<Element>, i: nat, j: nat)
    requires i < j < |s| && s[i] == s[j]
    ensures multiset(s)[s[i]] >= 2
  {
    assert s == s[..i] + [s[i]] + s[i + 1..j] + [s[j]] + s[j + 1..];
  }

  lemma {:induction false} OnceInSequence(s: seq<Element>, e: Element)
    requires DistinctIndices(s)
    ensures multiset(s)[e] <= 1
  {
    if s != [] {
      OnceInSequence(s[1..], e);
      assert s == [s[0]] + s[1..];
      assert s[0] !in s[1..];
    }
  }

  /**
   With distinct indices, every element that is left out lies fully inside a kept element painted no
   earlier, and no kept element lies inside one that was painted after it.
   */
  lemma RemovedAreCovered(elements: seq<Element>, e: Element)
    requires DistinctIndices(elements) && e in elements
    ensures var kept := Visible(SortByPaint(elements));
      && (e !in kept ==> exists k :: k in kept && IsFullyContained(e.box, k.box) && Paint(k) >= Paint(e))
      && (e in kept ==>
        forall later | later in elements && Paint(later) > Paint(e) :: !IsFullyContained(e.box, later.box))
  {
    var s := SortByPaint(elements);
    SortDescends(elements, Paint);
    SortedDistinct(elements, s);
    assert e in multiset(s);
    var i: nat :| i < |s| && s[i] == e;
    if e !in Visible(s) {
      var k := CoverIsKept(s, i);
      assert IsFullyContained(e.box, s[k].box) && Paint(s[k]) >= Paint(e);
    } else {
      forall later | later in elements && Paint(later) > Paint(e) ensures !IsFullyContained(e.box, later.box) {
        assert later in multiset(s);
        var j :| 0 <= j < |s| && s[j] == later;
        VisibleIsUncovered(s, i);
      }
    }
  }

  lemma {:induction false} VisibleIsUncovered(s: seq<Element>, i: nat)
    requires DistinctIndices(s) && i < |s| && s[i] in Visible(s)
    ensures !Covered(s, i)
  {
    var n := |s| - 1;
    VisibleSubset(s[..n]);
    if i < n {
      assert s[i] != s[n];
      VisibleIsUncovered(s[..n], i);
      assert forall j | 0 <= j <= i :: s[..n][j] == s[j];
    } else {
      assert s[n] !in s[..n];
    }
  }

  lemma {:induction false} VisibleSubset(s: seq<Element>)
    ensures forall e | e in Visible(s) :: e in s
  {
    if s != [] {
      VisibleSubset(s[..|s| - 1]);
    }
  }
}
