/**
 Delivering a frozen list of elements page by page within a byte budget
 (packages/browser-core/src/browser-snapshot.ts and browser-query.ts).
 */
module SnapshotPaging {
  import opened Prelude
  import opened JsonSize

  const DEFAULT_PAGE_SIZE := 100
  const MAX_PAGE_SIZE := 200
  const MAX_PAGE_BYTES := 56 * 1024

  datatype Error = ResultTooLarge | ContinuationMismatch
  datatype Page = Page(offset: nat, count: nat, bytes: nat, withTree: bool)
  datatype Outcome = Paged(page: Page) | Failed(error: Error)

  /** A requested page size; None stands for anything that is not a finite number. */
  function PageLimit(requested: Option<real>): (limit: nat)
    ensures 1 <= limit <= MAX_PAGE_SIZE
    ensures requested.Some? && 1.0 <= requested.value < 201.0 ==> limit == requested.value.Floor
    ensures requested.Some? && requested.value < 1.0 ==> limit == 1
    ensures requested.Some? && requested.value >= 201.0 ==> limit == MAX_PAGE_SIZE
    ensures requested.None? ==> limit == DEFAULT_PAGE_SIZE
  {
    var asked := if requested.Some? then requested.value.Floor else DEFAULT_PAGE_SIZE;
    var capped := if asked > MAX_PAGE_SIZE then MAX_PAGE_SIZE else asked;
    if capped < 1 then 1 else capped
  }

  /** A requested offset; an announced one given back is taken as it is. */
  function PageOffset(requested: Option<real>): (offset: nat)
    ensures requested.Some? && requested.value >= 0.0 ==> offset as real <= requested.value < offset as real + 1.0
    ensures requested.None? || requested.value < 1.0 ==> offset == 0
  {
    if requested.Some? && requested.value.Floor > 0 then requested.value.Floor else 0
  }

  /**
   What the size of a page depends on: the JSON bytes of each element, the bytes of the fields that are
   the same on every page, those of the semantic tree of a page, and those of the notes about a left-out
   tree and about a continuation, without their numbers.
   */
  datatype Sizes = Sizes(elements: seq<nat>, fixed: nat, tree: (nat, nat) -> nat, omittedNote: nat,
                         continuationNote: nat) {

    function Bytes(offset: nat, count: nat, withTree: bool): nat
      requires offset + count <= |elements|
    {
      var end := offset + count;
      fixed + Digits(offset) + Digits(|elements|) + Digits(count) + ArrayBytes(elements[offset..end]) +
      (if withTree then tree(offset, count) else omittedNote) +
      (if end < |elements| then |"true"| + continuationNote + 2 * Digits(end) else |"false"|)
    }

    predicate Fits(offset: nat, count: nat, withTree: bool)
      requires offset + count <= |elements|
    {
      Bytes(offset, count, withTree) <= MAX_PAGE_BYTES
    }

    function Rest(offset: nat, limit: nat): nat
      requires offset <= |elements|
    {
      if limit < |elements| - offset then limit else |elements| - offset
    }
  }

  /** The texts a page is made of; each string stands between two of its parts, and a character for a byte. */
  datatype Texts = Texts(elements: seq<string>, head: string, afterOffset: string, afterTotal: string,
                         afterCount: string, tree: (nat, nat) -> string, omitted: string, afterTree: string,
                         beforeNext: string, beforeOffset: string, afterNext: string, tail: string) {

    /** The JSON text of a page. */
    function Page(offset: nat, count: nat, withTree: bool): string
      requires offset + count <= |elements|
    {
      var end := offset + count;
      head + Decimal(offset) + afterOffset + Decimal(|elements|) + afterTotal + Decimal(count) + afterCount +
      ArrayText(elements[offset..end]) + (if withTree then tree(offset, count) else omitted) + afterTree +
      (if end < |elements| then "true" + beforeNext + Decimal(end) + beforeOffset + Decimal(end) + afterNext
       else "false") + tail
    }

    function AsSizes(): Sizes {
      Sizes(Lengths(elements), |head| + |afterOffset| + |afterTotal| + |afterCount| + |afterTree| + |tail|,
            (offset: nat, count: nat) => |tree(offset, count)|, |omitted|,
            |beforeNext| + |beforeOffset| + |afterNext|)
    }
  }

  /** The bytes of a page are the length of its text, and the page fits when its text does. */
  lemma BytesOfText(t: Texts, offset: nat, count: nat, withTree: bool)
    requires offset + count <= |t.elements|
    ensures t.AsSizes().Bytes(offset, count, withTree) == |t.Page(offset, count, withTree)|
    ensures t.AsSizes().Fits(offset, count, withTree) <==> |t.Page(offset, count, withTree)| <= MAX_PAGE_BYTES
  {
    var end := offset + count;
    DecimalLength(offset);
    DecimalLength(|t.elements|);
    DecimalLength(count);
    DecimalLength(end);
    ArrayTextLength(t.elements[offset..end]);
    assert Lengths(t.elements)[offset..end] == Lengths(t.elements[offset..end]);
  }

  /** Among pages with a continuation, more elements take no fewer bytes. */
  lemma BytesMonotone(s: Sizes, offset: nat, a: nat, b: nat)
    requires a <= b && offset + b < |s.elements|
    ensures s.Bytes(offset, a, false) <= s.Bytes(offset, b, false)
  {
    ArrayMonotone(s.elements[offset..], a, b);
    assert s.elements[offset..][..a] == s.elements[offset..offset + a];
    assert s.elements[offset..][..b] == s.elements[offset..offset + b];
    DigitsMonotone(a, b);
    DigitsMonotone(offset + a, offset + b);
  }

  /** The number of elements on the page from `offset`, and whether it has a tree: the most that fit. */
  ghost predicate LargestFitting(s: Sizes, offset: nat, limit: nat, count: nat, withTree: bool)
    requires offset <= |s.elements|
  {
    var rest := s.Rest(offset, limit);
    && count <= rest && s.Fits(offset, count, withTree)
    && (withTree ==> count == rest)
    && (!withTree ==> !s.Fits(offset, rest, true))
    && (rest > 0 ==> count > 0)
    && forall n | count < n <= rest :: !s.Fits(offset, n, false)
  }

  ghost predicate NothingFits(s: Sizes, offset: nat, limit: nat)
    requires offset <= |s.elements|
  {
    var rest := s.Rest(offset, limit);
    && !s.Fits(offset, rest, true) && !s.Fits(offset, rest, false)
    && forall n | 0 < n < rest :: !s.Fits(offset, n, false)
  }

  /** A page is determined by the budget: at most one count is the largest, and then something fits. */
  lemma LargestIsUnique(s: Sizes, offset: nat, limit: nat, c: nat, t: bool, c': nat, t': bool)
    requires offset <= |s.elements| && LargestFitting(s, offset, limit, c, t)
    ensures LargestFitting(s, offset, limit, c', t') ==> c == c' && t == t'
    ensures !NothingFits(s, offset, limit)
  {
  }

  /** The number of elements a page holds, or None when not even the smallest one fits. */
  ghost function InspectPage(s: Sizes): (nat, nat) -> Option<nat> {
    (offset: nat, limit: nat) =>
      if offset <= |s.elements| && exists count: nat, withTree :: LargestFitting(s, offset, limit, count, withTree)
      then var count: nat, withTree :| LargestFitting(s, offset, limit, count, withTree); Some(count)
      else None
  }

  lemma InspectPageIs(s: Sizes, offset: nat, limit: nat, count: nat, withTree: bool)
    requires offset <= |s.elements| && LargestFitting(s, offset, limit, count, withTree)
    ensures InspectPage(s)(offset, limit) == Some(count)
  {
    var c: nat, t :| LargestFitting(s, offset, limit, c, t) && InspectPage(s)(offset, limit) == Some(c);
    LargestIsUnique(s, offset, limit, count, withTree, c, t);
  }

  lemma {:induction false} LargestBelow(s: Sizes, offset: nat, fitting: nat, most: nat) returns (count: nat)
    requires fitting <= most && offset + most <= |s.elements| && s.Fits(offset, fitting, false)
    ensures fitting <= count <= most && s.Fits(offset, count, false)
    ensures forall n | count < n <= most :: !s.Fits(offset, n, false)
    decreases most
  {
    if s.Fits(offset, most, false) {
      count := most;
    } else {
      count := LargestBelow(s, offset, fitting, most - 1);
    }
  }

  /** A page fails exactly when nothing fits. */
  lemma FailsIffNothingFits(s: Sizes, offset: nat, limit: nat)
    requires offset <= |s.elements|
    ensures InspectPage(s)(offset, limit).None? <==> NothingFits(s, offset, limit)
  {
    var rest := s.Rest(offset, limit);
    if InspectPage(s)(offset, limit).Some? {
      var c: nat, t :| LargestFitting(s, offset, limit, c, t);
      LargestIsUnique(s, offset, limit, c, t, c, t);
    } else if s.Fits(offset, rest, true) {
      InspectPageIs(s, offset, limit, rest, true);
    } else if s.Fits(offset, rest, false) {
      InspectPageIs(s, offset, limit, rest, false);
    } else if n :| 0 < n < rest && s.Fits(offset, n, false) {
      var count := LargestBelow(s, offset, n, rest);
      InspectPageIs(s, offset, limit, count, false);
    }
  }

  /** The search between `lower` and `upper` for the most elements that fit without the tree; 0 when none do. */
  method LongestFitting(sizes: Sizes, offset: nat, candidates: nat) returns (fitting: nat)
    requires candidates > 1 && offset + candidates <= |sizes.elements|
    ensures fitting < candidates && (fitting > 0 ==> sizes.Fits(offset, fitting, false))
    ensures forall n | fitting < n < candidates :: !sizes.Fits(offset, n, false)
  {
    var lower, upper := 1, candidates - 1;
    fitting := 0;
    while lower <= upper
      invariant 1 <= lower <= upper + 1 <= candidates && fitting == lower - 1
      invariant fitting > 0 ==> sizes.Fits(offset, fitting, false)
      invariant forall n | upper < n < candidates :: !sizes.Fits(offset, n, false)
    {
      var middle := (lower + upper) / 2;
      if sizes.Fits(offset, middle, false) {
        fitting := middle;
        lower := middle + 1;
      } else {
        forall n | middle <= n < candidates ensures !sizes.Fits(offset, n, false) {
          BytesMonotone(sizes, offset, middle, n);
        }
        upper := middle - 1;
      }
    }
  }

  class Snapshot {
    const sizes: Sizes
    var nextOffset: Option<nat>

    constructor (sizes: Sizes)
      ensures this.sizes == sizes && nextOffset == Some(0)
    {
      this.sizes, nextOffset := sizes, Some(0);
    }

    /** The page from `offset`: all of it if it fits, if need be without the tree, else as many elements as fit. */
    method SnapshotPage(offset: nat, limit: nat) returns (r: Outcome)
      requires offset <= |sizes.elements| && limit >= 1
      modifies this`nextOffset
      ensures r.Paged? ==>
        && r.page.offset == offset && LargestFitting(sizes, offset, limit, r.page.count, r.page.withTree)
        && r.page.bytes == sizes.Bytes(offset, r.page.count, r.page.withTree)
        && nextOffset == if offset + r.page.count < |sizes.elements| then Some(offset + r.page.count) else None
      ensures r.Failed? ==>
        r.error == ResultTooLarge && NothingFits(sizes, offset, limit) && nextOffset == old(nextOffset)
      ensures InspectPage(sizes)(offset, limit) == if r.Paged? then Some(r.page.count) else None
    {
      var candidates := sizes.Rest(offset, limit);
      var count, withTree := candidates, true;
      if !sizes.Fits(offset, count, withTree) {
        withTree := false;
      }
      if !sizes.Fits(offset, count, withTree) && count > 1 {
        var fitting := LongestFitting(sizes, offset, candidates);
        if fitting > 0 {
          count := fitting;
        }
      }
      if !sizes.Fits(offset, count, withTree) {
        FailsIffNothingFits(sizes, offset, limit);
        return Failed(ResultTooLarge);
      }
      InspectPageIs(sizes, offset, limit, count, withTree);
      var end := offset + count;
      nextOffset := if end < |sizes.elements| then Some(end) else None;
      return Paged(Page(offset, count, sizes.Bytes(offset, count, withTree), withTree));
    }

    /** A continuation has to name exactly the offset the previous page returned. */
    method Continue(offset: Option<real>, limit: Option<real>) returns (r: Outcome)
      requires nextOffset.Some? ==> nextOffset.value <= |sizes.elements|
      modifies this`nextOffset
      ensures nextOffset.Some? ==> nextOffset.value <= |sizes.elements|
      ensures old(nextOffset) != Some(PageOffset(offset)) <==> r == Failed(ContinuationMismatch)
      ensures r.Failed? ==> nextOffset == old(nextOffset)
      ensures r == Failed(ResultTooLarge) ==> NothingFits(sizes, PageOffset(offset), PageLimit(limit))
      ensures r.Paged? ==>
        && LargestFitting(sizes, PageOffset(offset), PageLimit(limit), r.page.count, r.page.withTree)
        && nextOffset == if PageOffset(offset) + r.page.count < |sizes.elements|
          then Some(PageOffset(offset) + r.page.count) else None
    {
      if nextOffset != Some(PageOffset(offset)) {
        return Failed(ContinuationMismatch);
      }
      r := SnapshotPage(PageOffset(offset), PageLimit(limit));
    }
  }

  // ---- Editable targets: pages that shrink from the end, never to nothing ----

  const TARGETS_WRAPPER := |"{'targets':}"|

  predicate TargetsFit(targets: seq<nat>) {
    TARGETS_WRAPPER + ArrayBytes(targets) <= MAX_PAGE_BYTES
  }

  /** The targets of a page fit when their text does. */
  lemma TargetsFitText(texts: seq<string>)
    ensures TargetsFit(Lengths(texts)) <==> |"{'targets':" + ArrayText(texts) + "}"| <= MAX_PAGE_BYTES
  {
    ArrayTextLength(texts);
  }

  /** The most targets within the page size and the budget, but at least one while any are left. */
  function TargetCount(targets: seq<nat>, limit: nat): (n: nat)
    ensures n <= limit && n <= |targets| && (limit > 0 && |targets| > 0 ==> n > 0)
    ensures n > 1 ==> TargetsFit(targets[..n])
    decreases limit
  {
    if limit > |targets| then TargetCount(targets, |targets|)
    else if limit <= 1 || TargetsFit(targets[..limit]) then limit
    else TargetCount(targets, limit - 1)
  }

  class EditableQuery {
    const targets: seq<nat>
    var nextOffset: Option<nat>

    constructor (targets: seq<nat>)
      ensures this.targets == targets && nextOffset == Some(0)
    {
      this.targets, nextOffset := targets, Some(0);
    }

    method EditablePage(offset: nat, limit: nat) returns (count: nat)
      requires offset <= |targets| && limit >= 1
      modifies this`nextOffset
      ensures count == TargetCount(targets[offset..], limit)
      ensures nextOffset == if offset + count < |targets| then Some(offset + count) else None
    {
      var returned := ShrinkToFit(targets[offset..], limit);
      count := |returned|;
      nextOffset := if offset + count < |targets| then Some(offset + count) else None;
    }
  }

  /** Targets are taken off the end of the page until it fits or only one is left. */
  method ShrinkToFit(rest: seq<nat>, limit: nat) returns (returned: seq<nat>)
    requires limit >= 1
    ensures returned == rest[..TargetCount(rest, limit)]
  {
    var count := if limit < |rest| then limit else |rest|;
    returned := rest[..count];
    while |returned| > 1 && !TargetsFit(returned)
      invariant |returned| <= |rest| && returned == rest[..|returned|]
      invariant TargetCount(rest, limit) == TargetCount(rest, |returned|)
    {
      returned := returned[..|returned| - 1];
    }
  }

  /** No page could have held one target more, unless it is the last the caller asked for. */
  lemma {:induction false} TargetCountIsLargest(targets: seq<nat>, limit: nat, n: nat)
    requires TargetCount(targets, limit) < n <= limit && n <= |targets|
    ensures !TargetsFit(targets[..n])
    decreases limit
  {
    if limit > |targets| {
      TargetCountIsLargest(targets, |targets|, n);
    } else if n < limit {
      TargetCountIsLargest(targets, limit - 1, n);
    }
  }

  // ---- Following continuations ----

  datatype End = Complete | Broken | Waiting(nextOffset: nat)
  datatype Walk = Walk(delivered: seq<nat>, end: End)

  function Range(from: nat, to: nat): (r: seq<nat>)
    requires from <= to
    ensures |r| == to - from && forall i | 0 <= i < |r| :: r[i] == from + i
  {
    seq(to - from, i requires 0 <= i => from + i)
  }

  /** `page(offset, limit)` is the size of the page from `offset`, or None when it fails. */
  ghost predicate Advances(total: nat, page: (nat, nat) -> Option<nat>) {
    forall offset: nat, limit: nat :: offset < total && limit >= 1 && page(offset, limit).Some? ==>
      0 < page(offset, limit).value <= limit && page(offset, limit).value <= total - offset
  }

  ghost predicate Positive(limits: seq<nat>) {
    forall i | 0 <= i < |limits| :: limits[i] >= 1
  }

  /** The indices delivered by asking for a page of each of `limits` in turn, always from the offset returned last. */
  ghost function Follow(total: nat, page: (nat, nat) -> Option<nat>, offset: nat, limits: seq<nat>): Walk
    requires Advances(total, page) && offset < total && Positive(limits)
    decreases |limits|
  {
    if limits == [] then Walk([], Waiting(offset))
    else
      var size := page(offset, limits[0]);
      if size.None? then Walk([], Broken)
      else
        var end := offset + size.value;
        if end == total then Walk(Range(offset, end), Complete)
        else
          var rest := Follow(total, page, end, limits[1..]);
          Walk(Range(offset, end) + rest.delivered, rest.end)
  }

  /**
   Whatever page sizes are asked for, the pages deliver consecutive elements without gap or repetition;
   a walk that completes has delivered every element once and in order, and one that neither fails nor
   completes has come at least one element further per page.
   */
  lemma {:induction false} PagesCoverOnce(total: nat, page: (nat, nat) -> Option<nat>, offset: nat, limits: seq<nat>)
    requires Advances(total, page) && offset < total && Positive(limits)
    ensures var walk := Follow(total, page, offset, limits);
      && offset + |walk.delivered| <= total && walk.delivered == Range(offset, offset + |walk.delivered|)
      && (walk.end.Complete? ==> walk.delivered == Range(offset, total))
      && (walk.end.Waiting? ==>
        walk.end.nextOffset == offset + |walk.delivered| && |limits| <= |walk.delivered| < total - offset)
    decreases |limits|
  {
    if limits != [] && page(offset, limits[0]).Some? {
      var end := offset + page(offset, limits[0]).value;
      if end < total {
        PagesCoverOnce(total, page, end, limits[1..]);
      }
    }
  }

  function EditablePageSize(targets: seq<nat>): (nat, nat) -> Option<nat> {
    (offset: nat, limit: nat) => if offset <= |targets| then Some(TargetCount(targets[offset..], limit)) else None
  }

  lemma InspectCoversOnce(s: Sizes, limits: seq<nat>)
    requires s.elements != [] && Positive(limits)
    ensures Advances(|s.elements|, InspectPage(s))
    ensures var walk := Follow(|s.elements|, InspectPage(s), 0, limits);
      && walk.delivered == Range(0, |walk.delivered|)
      && (walk.end.Complete? ==> walk.delivered == Range(0, |s.elements|))
      && (|limits| >= |s.elements| ==> !walk.end.Waiting?)
  {
    PagesCoverOnce(|s.elements|, InspectPage(s), 0, limits);
  }

  lemma EditableAdvances(targets: seq<nat>)
    ensures Advances(|targets|, EditablePageSize(targets))
  {
  }

  lemma {:induction false} EditableNeverBreaks(targets: seq<nat>, offset: nat, limits: seq<nat>)
    requires Advances(|targets|, EditablePageSize(targets)) && offset < |targets| && Positive(limits)
    ensures !Follow(|targets|, EditablePageSize(targets), offset, limits).end.Broken?
    decreases |limits|
  {
    if limits != [] {
      var size := EditablePageSize(targets)(offset, limits[0]);
      var end := offset + size.value;
      if end < |targets| {
        EditableNeverBreaks(targets, end, limits[1..]);
      }
    }
  }

  /** An editable query asked often enough always delivers its whole list. */
  lemma EditableCoversOnce(targets: seq<nat>, limits: seq<nat>)
    requires targets != [] && |limits| >= |targets| && Positive(limits)
    ensures Advances(|targets|, EditablePageSize(targets))
    ensures Follow(|targets|, EditablePageSize(targets), 0, limits) == Walk(Range(0, |targets|), Complete)
  {
    EditableAdvances(targets);
    EditableNeverBreaks(targets, 0, limits);
    PagesCoverOnce(|targets|, EditablePageSize(targets), 0, limits);
  }
}
