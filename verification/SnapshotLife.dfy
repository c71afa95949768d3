/**
 The life of an observation, told by the events alone: which inspects publish, what a stored snapshot holds, when it is
 closed for continuation, how long it stays, and which one is the latest (packages/browser-core/src/browser-state.ts).
 */
module SnapshotLife {
  import opened Prelude
  import opened SnapshotStore
  import opened SnapshotAuthority
  import opened SnapshotRuns

  // ---- Which inspects publish ----

  /** What the scan of the inspect begun at `token` returned last. */
  function LastScan(trace: Trace, token: nat): Option<seq<Element>>
    decreases |trace|
  {
    if |trace| <= token + 1 then None
    else
      var last := trace[|trace| - 1];
      if last.Narrow? && last.token == token then Some(last.scanned) else LastScan(trace[..|trace| - 1], token)
  }

  ghost predicate Unfinished(trace: Trace, token: nat) {
    forall i | token < i < |trace| :: !(trace[i].Commit? && trace[i].token == token)
  }

  /** An inspect began here, no navigation has come since, and it has not ended. */
  ghost predicate InFlight(trace: Trace, token: nat) {
    token < |trace| && trace[token].Begin? && NoNavigation(trace, token) && Unfinished(trace, token)
  }

  /** What the session holds of an inspect. */
  ghost predicate Tracked(trace: Trace, s: State, token: nat) {
    && (token in s.inspections ==> token < |trace| && Unfinished(trace, token))
    && (InFlight(trace, token) ==>
        && token in s.inspections
        && s.inspections[token].narrowedAt.Some? == LastScan(trace, token).Some?
        && (LastScan(trace, token).Some? ==> s.inspections[token].scanned == LastScan(trace, token).value))
  }

  lemma InFlightBefore(trace: Trace, event: Event, token: nat)
    requires InFlight(trace + [event], token) && token < |trace|
    ensures InFlight(trace, token) && !event.Navigate? && !(event.Commit? && event.token == token)
  {
    var longer := trace + [event];
    assert longer[|trace|] == event && longer[token] == trace[token];
    forall i | token <= i < |trace| ensures !trace[i].Navigate? { assert longer[i] == trace[i]; }
    forall i | token < i < |trace| ensures !(trace[i].Commit? &&
      trace[i].token == token) { assert longer[i] == trace[i]; }
  }

  lemma UnfinishedStep(trace: Trace, event: Event, token: nat)
    requires token < |trace| && Unfinished(trace, token) && !(event.Commit? && event.token == token)
    ensures Unfinished(trace + [event], token)
  {
  }

  lemma LastScanStep(trace: Trace, event: Event, token: nat)
    requires token < |trace|
    ensures LastScan(trace + [event], token) ==
      if event.Narrow? && event.token == token then Some(event.scanned) else LastScan(trace, token)
  {
    assert (trace + [event])[..|trace|] == trace;
  }

  lemma TrackedStep(trace: Trace, s: State, event: Event, token: nat)
    requires Inv(s, trace) && Tracked(trace, s, token)
    ensures Tracked(trace + [event], Step(s, event), token)
  {
    var next := Step(s, event);
    if token in next.inspections && token < |trace| {
      UnfinishedStep(trace, event, token);
    }
    if InFlight(trace + [event], token) && token < |trace| {
      InFlightBefore(trace, event, token);
      LastScanStep(trace, event, token);
      assert InspectionLive(s, token, s.inspections[token], trace);
    }
  }

  lemma {:induction false} InspectionsAreTracked(trace: Trace, token: nat)
    ensures Tracked(trace, Run(trace), token)
  {
    if trace != [] {
      var n := |trace| - 1;
      RunKeepsInv(trace[..n]);
      InspectionsAreTracked(trace[..n], token);
      TrackedStep(trace[..n], Run(trace[..n]), trace[n], token);
      assert trace[..n] + [trace[n]] == trace;
    }
  }

  /** An inspect publishes exactly when it has scanned, has not ended, and no navigation has come since it began. */
  lemma PublishesIff(trace: Trace, token: nat)
    ensures Publishes(Run(trace), token) <==> InFlight(trace, token) && LastScan(trace, token).Some?
    ensures Publishes(Run(trace), token) ==> Run(trace).inspections[token].scanned == LastScan(trace, token).value
  {
    InspectionsAreTracked(trace, token);
    RunKeepsInv(trace);
    if token in Run(trace).inspections {
      assert InspectionLive(Run(trace), token, Run(trace).inspections[token], trace);
    }
  }

  // ---- What an event does to a stored snapshot ----

  predicate Unexpired(snap: Snap, now: int) {
    AccessTime(snap) >= now - TTL_MS
  }

  /** Lookups drop what has expired; other events but navigations and publishing inspects keep everything. */
  predicate Stays(snap: Snap, event: Event) {
    match event
    case Get(_, now) => Unexpired(snap, now)
    case Resolve(_, now) => Unexpired(snap, now)
    case _ => true
  }

  /** A lookup by id finds its snapshot if it is open, one by ref the last that holds the ref. */
  predicate IsUsed(s: State, event: Event, k: nat)
    requires k < |s.snaps|
  {
    match event
    case Get(id, _) => s.snaps[k].id == id && !s.snaps[k].invalidated
    case Resolve(ref, now) =>
      && HasRef(s.snaps[k].elements, ref)
      && forall j | k < j < |s.snaps| :: Unexpired(s.snaps[j], now) ==> !HasRef(s.snaps[j].elements, ref)
    case _ => false
  }

  predicate TakesFrom(event: Event, snap: Snap) {
    event.FrameGone? && exists e | e in snap.elements :: Matches(e.identity, event.identity)
  }

  /** Frame events take elements and close; mutations close; uses are stamped; nothing else changes. */
  function AfterEvent(s: State, event: Event, k: nat): Snap
    requires k < |s.snaps|
  {
    var was := s.snaps[k];
    was.(elements := if event.FrameGone? then Filter(was.elements, Outside(event.identity)) else was.elements,
         invalidated := was.invalidated || event.PageMutated? || TakesFrom(event, was),
         accessedAt := if IsUsed(s, event, k) then NowOf(event) else was.accessedAt)
  }

  ghost predicate Becomes(s: State, event: Event, k: nat, snap: Snap) {
    k < |s.snaps| && Stays(s.snaps[k], event) && snap == AfterEvent(s, event, k)
  }

  /** The snapshots after the event are those that stay, as the event leaves them. */
  ghost predicate Follows(s: State, event: Event, snaps: seq<Snap>) {
    forall snap :: snap in snaps <==> exists k: nat :: Becomes(s, event, k, snap)
  }

  lemma MappedFollow(s: State, event: Event, snaps: seq<Snap>)
    requires |snaps| == |s.snaps| && !event.Get? && !event.Resolve?
    requires forall k | 0 <= k < |snaps| :: snaps[k] == AfterEvent(s, event, k)
    ensures Follows(s, event, snaps)
  {
    forall snap ensures snap in snaps <==> exists k: nat :: Becomes(s, event, k, snap) {
      if snap in snaps {
        var k :| 0 <= k < |snaps| && snaps[k] == snap;
        assert Becomes(s, event, k, snap);
      }
      if k: nat :| Becomes(s, event, k, snap) {
        assert snaps[k] == snap;
      }
    }
  }

  lemma FrameGoneIs(s: State, event: Event, k: nat)
    requires event.FrameGone? && k < |s.snaps|
    ensures FrameInvalidated(s, event.identity).snaps[k] == AfterEvent(s, event, k)
  {
    var was := s.snaps[k];
    WithoutFrameElements(was, event.identity);
    if !TakesFrom(event, was) {
      FilterAll(was.elements, Outside(event.identity));
    } else if |Filter(was.elements, Outside(event.identity))| == |was.elements| {
      FilterFull(was.elements, Outside(event.identity));
      FilterMembers(was.elements, Outside(event.identity));
    }
  }

  function Looked(kept: seq<Snap>, at: Option<nat>, now: int): seq<Snap>
    requires at.Some? ==> at.value < |kept|
  {
    if at.None? then kept else Touch(kept, at.value, now)
  }

  ghost predicate UsesAt(s: State, event: Event, kept: seq<Snap>, at: Option<nat>, i: nat, k: nat)
    requires i < |kept| && k < |s.snaps|
  {
    s.snaps[k] == kept[i] && (IsUsed(s, event, k) <==> at == Some(i))
  }

  lemma LookedAt(s: State, event: Event, kept: seq<Snap>, at: Option<nat>, now: int, i: nat, k: nat)
    requires NowOf(event) == Some(now) && (event.Get? || event.Resolve?)
    requires (at.Some? ==> at.value < |kept|) && i < |kept| && k < |s.snaps| && UsesAt(s, event, kept, at, i, k)
    ensures Looked(kept, at, now)[i] == AfterEvent(s, event, k)
  {
  }

  /** `kept` are the unexpired snapshots; the one at `at`, if any, is the one that is used. */
  lemma LookedUpFollow(s: State, event: Event, kept: seq<Snap>, at: Option<nat>, now: int)
    requires NowOf(event) == Some(now) && (event.Get? || event.Resolve?)
    requires (forall x :: x in kept <==> x in s.snaps && Unexpired(x, now)) && (at.Some? ==> at.value < |kept|)
    requires forall i, k | 0 <= i < |kept| && 0 <= k < |s.snaps| && s.snaps[k] == kept[i] ::
      UsesAt(s, event, kept, at, i, k)
    ensures Follows(s, event, Looked(kept, at, now))
  {
    var snaps := Looked(kept, at, now);
    forall snap ensures snap in snaps <==> exists k: nat :: Becomes(s, event, k, snap) {
      if snap in snaps {
        var i :| 0 <= i < |snaps| && snaps[i] == snap;
        assert kept[i] in s.snaps;
        var k :| 0 <= k < |s.snaps| && s.snaps[k] == kept[i];
        LookedAt(s, event, kept, at, now, i, k);
        assert Becomes(s, event, k, snap);
      }
      if k: nat :| Becomes(s, event, k, snap) {
        assert s.snaps[k] in kept;
        var i :| 0 <= i < |kept| && kept[i] == s.snaps[k];
        LookedAt(s, event, kept, at, now, i, k);
        assert snaps[i] == snap;
      }
    }
  }

  lemma KeptAre(s: State, trace: Trace, now: int)
    requires Inv(s, trace)
    ensures var kept := Prune(s.snaps, s.generation, now);
      DistinctIds(kept) && forall x :: x in kept <==> x in s.snaps && Unexpired(x, now)
  {
    FilterMembers(s.snaps, FreshIn(s.generation, now));
    FilterDistinct(s.snaps, FreshIn(s.generation, now));
    forall x | x in s.snaps ensures x.generation == s.generation {
      assert SnapLive(x, s.generation, trace);
    }
  }

  lemma SameSnap(snaps: seq<Snap>, i: nat, j: nat)
    requires DistinctIds(snaps) && i < |snaps| && j < |snaps| && snaps[i].id == snaps[j].id
    ensures i == j
  {
  }

  lemma GetFollows(s: State, trace: Trace, id: string, now: int)
    requires Inv(s, trace)
    ensures Follows(s, Get(id, now), Step(s, Get(id, now)).snaps)
  {
    var event, kept, at := Get(id, now), Prune(s.snaps, s.generation, now), Available(s, id, now);
    KeptAre(s, trace, now);
    forall i, k | 0 <= i < |kept| && 0 <= k < |s.snaps| && s.snaps[k] == kept[i]
      ensures UsesAt(s, event, kept, at, i, k)
    {
      var found := Find(kept, id);
      assert SnapLive(s.snaps[k], s.generation, trace);
      if found.Some? && kept[i].id == id {
        SameSnap(kept, i, found.value);
      }
    }
    LookedUpFollow(s, event, kept, at, now);
  }

  lemma ResolveFollows(s: State, trace: Trace, ref: string, now: int)
    requires Inv(s, trace)
    ensures Follows(s, Resolve(ref, now), Step(s, Resolve(ref, now)).snaps)
  {
    var event, kept := Resolve(ref, now), Prune(s.snaps, s.generation, now);
    var at := Holder(kept, s.generation, ref);
    KeptAre(s, trace, now);
    forall i, k | 0 <= i < |kept| && 0 <= k < |s.snaps| && s.snaps[k] == kept[i]
      ensures UsesAt(s, event, kept, at, i, k)
    {
      ResolveUses(s, trace, ref, now, i, k);
    }
    LookedUpFollow(s, event, kept, at, now);
  }

  ghost predicate Earlier(snaps: seq<Snap>, x: Snap, y: Snap) {
    exists a, b :: 0 <= a < b < |snaps| && snaps[a] == x && snaps[b] == y
  }

  lemma StoredInOrder(snaps: seq<Snap>, rel: (Snap, Snap) -> bool)
    requires forall x, y :: rel(x, y) <==> Earlier(snaps, x, y)
    ensures Pairwise(snaps, rel)
  {
    forall a, b | 0 <= a < b < |snaps| ensures rel(snaps[a], snaps[b]) {
      assert Earlier(snaps, snaps[a], snaps[b]);
    }
  }

  lemma FilterInOrder(snaps: seq<Snap>, keep: Snap -> bool, i: nat, j: nat)
    requires i < j < |Filter(snaps, keep)|
    ensures Earlier(snaps, Filter(snaps, keep)[i], Filter(snaps, keep)[j])
  {
    ghost var rel := (x: Snap, y: Snap) => Earlier(snaps, x, y);
    StoredInOrder(snaps, rel);
    FilterKeepsPairwise(snaps, keep, rel);
    assert rel(Filter(snaps, keep)[i], Filter(snaps, keep)[j]);
  }

  lemma EarlierIs(snaps: seq<Snap>, k: nat, l: nat)
    requires DistinctIds(snaps) && k < |snaps| && l < |snaps| && Earlier(snaps, snaps[k], snaps[l])
    ensures k < l
  {
    var a, b :| 0 <= a < b < |snaps| && snaps[a] == snaps[k] && snaps[b] == snaps[l];
    SameSnap(snaps, a, k);
    SameSnap(snaps, b, l);
  }

  /** Of two snapshots that are kept, the later one was stored later. */
  lemma KeptInOrder(snaps: seq<Snap>, keep: Snap -> bool, i: nat, j: nat, k: nat, l: nat)
    requires DistinctIds(snaps) && i < |Filter(snaps, keep)| && j < |Filter(snaps, keep)|
    requires k < |snaps| && l < |snaps| && snaps[k] == Filter(snaps, keep)[i] && snaps[l] == Filter(snaps, keep)[j]
    ensures i < j ==> k < l
    ensures j < i ==> l < k
  {
    if i < j {
      FilterInOrder(snaps, keep, i, j);
      EarlierIs(snaps, k, l);
    } else if j < i {
      FilterInOrder(snaps, keep, j, i);
      EarlierIs(snaps, l, k);
    }
  }

  lemma ResolveUses(s: State, trace: Trace, ref: string, now: int, i: nat, k: nat)
    requires Inv(s, trace)
    requires i < |Prune(s.snaps, s.generation, now)| && k < |s.snaps|
    requires s.snaps[k] == Prune(s.snaps, s.generation, now)[i]
    ensures var kept := Prune(s.snaps, s.generation, now);
      UsesAt(s, Resolve(ref, now), kept, Holder(kept, s.generation, ref), i, k)
  {
    var kept, event := Prune(s.snaps, s.generation, now), Resolve(ref, now);
    var at := Holder(kept, s.generation, ref);
    KeptAre(s, trace, now);
    assert SnapLive(s.snaps[k], s.generation, trace);
    if at.Some? {
      assert kept[at.value] in s.snaps;
      var l :| 0 <= l < |s.snaps| && s.snaps[l] == kept[at.value];
      KeptInOrder(s.snaps, FreshIn(s.generation, now), i, at.value, k, l);
      KeptInOrder(s.snaps, FreshIn(s.generation, now), at.value, i, l, k);
      if at.value == i {
        forall j | k < j < |s.snaps| && Unexpired(s.snaps[j], now) ensures !HasRef(s.snaps[j].elements, ref) {
          assert s.snaps[j] in kept;
          var m :| 0 <= m < |kept| && kept[m] == s.snaps[j];
          KeptInOrder(s.snaps, FreshIn(s.generation, now), i, m, k, j);
          assert SnapLive(s.snaps[j], s.generation, trace);
        }
      }
    }
  }

  lemma StepFollows(s: State, trace: Trace, event: Event)
    requires Inv(s, trace) && !event.Navigate? && !(event.Commit? && Publishes(s, event.token))
    ensures Follows(s, event, Step(s, event).snaps)
  {
    match event
    case Get(id, now) =>
      GetFollows(s, trace, id, now);
    case Resolve(ref, now) =>
      ResolveFollows(s, trace, ref, now);
    case FrameGone(identity) =>
      var next := Step(s, event).snaps;
      forall k | 0 <= k < |s.snaps| ensures next[k] == AfterEvent(s, event, k) {
        FrameGoneIs(s, event, k);
      }
      MappedFollow(s, event, next);
    case _ =>
      MappedFollow(s, event, Step(s, event).snaps);
  }

  /**
   In every run, an event other than a navigation or a publishing inspect leaves exactly the snapshots that stay:
   lookups drop what has expired and stamp what they find, frame events take the elements they match, and nothing but
   the loss of an element or a mutation closes a snapshot.
   */
  lemma StoredUnlessExpired(trace: Trace, event: Event)
    requires !event.Navigate? && !(event.Commit? && Publishes(Run(trace), event.token))
    ensures Follows(Run(trace), event, Run(trace + [event]).snaps)
  {
    RunKeepsInv(trace);
    StepFollows(Run(trace), trace, event);
    assert (trace + [event])[..|trace|] == trace;
  }

  // ---- What a stored snapshot holds ----

  /** Event `c` ended the inspect of the snapshot and published what its scan had returned. */
  ghost predicate BornAt(trace: Trace, c: nat, snap: Snap) {
    && c < |trace| && trace[c].Commit? && trace[c].token == snap.begunAt && trace[c].id == snap.id
    && InFlight(trace[..c], snap.begunAt) && LastScan(trace[..c], snap.begunAt) == Some(snap.scanned)
  }

  /** Since `c` the page was mutated, or a frame of one of the elements went away. */
  ghost predicate ClosedSince(trace: Trace, c: nat, elements: seq<Element>) {
    exists i :: c < i < |trace| && Closes(trace[i], elements)
  }

  predicate Closes(event: Event, elements: seq<Element>) {
    event.PageMutated? || (event.FrameGone? && exists e | e in elements :: Matches(e.identity, event.identity))
  }

  function Born(trace: Trace, c: nat, snap: Snap): seq<Element>
    requires c <= |trace|
  {
    Survivors(trace[..c], snap.begunAt, snap.scanned)
  }

  ghost predicate Story(trace: Trace, c: nat, snap: Snap) {
    && BornAt(trace, c, snap)
    && (snap.invalidated <==> ClosedSince(trace, c, Born(trace, c, snap)))
    && (!snap.invalidated ==> snap.elements == Born(trace, c, snap))
  }

  lemma ClosedStep(trace: Trace, event: Event, c: nat, elements: seq<Element>)
    requires c < |trace|
    ensures ClosedSince(trace + [event], c, elements) <==> ClosedSince(trace, c, elements) || Closes(event, elements)
  {
    var longer := trace + [event];
    assert longer[|trace|] == event;
    if i :| c < i < |longer| && Closes(longer[i], elements) {
      assert i < |trace| ==> Closes(trace[i], elements);
    }
    if i :| c < i < |trace| && Closes(trace[i], elements) {
      assert Closes(longer[i], elements);
    }
  }

  lemma StoryGoesOn(trace: Trace, event: Event, c: nat, was: Snap, snap: Snap)
    requires Story(trace, c, was)
    requires was.id == snap.id && was.begunAt == snap.begunAt && was.scanned == snap.scanned
    requires snap.invalidated == (was.invalidated || Closes(event, was.elements))
    requires !snap.invalidated ==> snap.elements == was.elements
    ensures Story(trace + [event], c, snap)
  {
    assert (trace + [event])[..c] == trace[..c] && (trace + [event])[c] == trace[c];
    ClosedStep(trace, event, c, Born(trace, c, was));
  }

  lemma OpenKeepsElements(s: State, event: Event, k: nat)
    requires k < |s.snaps| && !AfterEvent(s, event, k).invalidated
    ensures AfterEvent(s, event, k).elements == s.snaps[k].elements
  {
    if event.FrameGone? {
      FilterAll(s.snaps[k].elements, Outside(event.identity));
    }
  }

  lemma PublishedAre(trace: Trace, token: nat)
    requires Publishes(Run(trace), token)
    ensures InFlight(trace, token) && LastScan(trace, token) == Some(Run(trace).inspections[token].scanned)
    ensures PublishedElements(Run(trace), token) == Survivors(trace, token, Run(trace).inspections[token].scanned)
  {
    RunKeepsInv(trace);
    PublishesIff(trace, token);
    var live := PublishedIsLive(Run(trace), token, "", 0, trace);
  }

  lemma StoryBegins(trace: Trace, event: Event, snap: Snap)
    requires event.Commit? && snap.begunAt == event.token && snap.id == event.id && !snap.invalidated
    requires InFlight(trace, snap.begunAt) && LastScan(trace, snap.begunAt) == Some(snap.scanned)
    requires snap.elements == Survivors(trace, snap.begunAt, snap.scanned)
    ensures Story(trace + [event], |trace|, snap)
  {
    var longer := trace + [event];
    assert longer[..|trace|] == trace && longer[|trace|] == event;
  }

  lemma {:induction false} StoredHasStory(trace: Trace, snap: Snap)
    requires snap in Run(trace).snaps
    ensures exists c: nat :: Story(trace, c, snap)
  {
    var n := |trace| - 1;
    var shorter, event := trace[..n], trace[n];
    var s := Run(shorter);
    assert shorter + [event] == trace;
    RunKeepsInv(shorter);
    if JustPublished(s, event, snap) {
      PublishedAre(shorter, event.token);
      StoryBegins(shorter, event, snap);
      assert Story(trace, n, snap);
    } else {
      var was := Before(shorter, event, snap);
      StoredHasStory(shorter, was);
      var c: nat :| Story(shorter, c, was);
      StoryGoesOn(shorter, event, c, was, snap);
      assert Story(trace, c, snap);
    }
  }

  lemma Before(trace: Trace, event: Event, snap: Snap) returns (was: Snap)
    requires snap in Step(Run(trace), event).snaps && !JustPublished(Run(trace), event, snap)
    ensures was in Run(trace).snaps
    ensures was.id == snap.id && was.begunAt == snap.begunAt && was.scanned == snap.scanned
    ensures snap.invalidated == (was.invalidated || Closes(event, was.elements))
    ensures !snap.invalidated ==> snap.elements == was.elements
  {
    var s := Run(trace);
    RunKeepsInv(trace);
    if event.Commit? && Publishes(s, event.token) {
      StoredBefore(s, event, snap);
      was := snap;
    } else {
      StepFollows(s, trace, event);
      was := BecameOf(s, event, snap);
    }
  }

  lemma StoredBefore(s: State, event: Event, snap: Snap)
    requires DistinctIds(s.snaps) && event.Commit? && Publishes(s, event.token)
    requires snap in Step(s, event).snaps && !JustPublished(s, event, snap)
    ensures snap in s.snaps
  {
    StoreMembers(s.snaps, NewSnap(s, event.token, event.id, event.now), s.generation, event.now);
  }

  lemma BecameOf(s: State, event: Event, snap: Snap) returns (was: Snap)
    requires exists k: nat :: Becomes(s, event, k, snap)
    ensures was in s.snaps
    ensures was.id == snap.id && was.begunAt == snap.begunAt && was.scanned == snap.scanned
    ensures snap.invalidated == (was.invalidated || Closes(event, was.elements))
    ensures !snap.invalidated ==> snap.elements == was.elements
  {
    var k: nat :| Becomes(s, event, k, snap);
    was := s.snaps[k];
    if !snap.invalidated {
      OpenKeepsElements(s, event, k);
    }
  }

  /**
   In every run, a stored snapshot was published by an inspect that was still current and holds what its scan returned,
   without what frame events have taken away since the inspect began. It is closed for continuation exactly when,
   since it was published, the page was mutated or a frame of one of its elements went away.
   */
  lemma StoredIsPublished(trace: Trace, snap: Snap)
    requires snap in Run(trace).snaps
    ensures snap.elements == Survivors(trace, snap.begunAt, snap.scanned)
    ensures exists c: nat ::
      BornAt(trace, c, snap) && (snap.invalidated <==> ClosedSince(trace, c, Born(trace, c, snap)))
  {
    RunKeepsInv(trace);
    assert SnapLive(snap, Run(trace).generation, trace);
    StoredHasStory(trace, snap);
    var c: nat :| Story(trace, c, snap);
    assert BornAt(trace, c, snap);
  }

  // ---- Which snapshot may be continued ----

  ghost predicate MayContinue(trace: Trace, id: string, now: int, snap: Snap) {
    snap in Run(trace).snaps && snap.id == id && Unexpired(snap, now) && !snap.invalidated
  }

  lemma FoundMayContinue(trace: Trace, id: string, now: int)
    requires Available(Run(trace), id, now).Some?
    ensures MayContinue(trace, id, now, Pruned(Run(trace), now).snaps[Available(Run(trace), id, now).value])
  {
    RunKeepsInv(trace);
    var s := Run(trace);
    var snaps := Pruned(s, now).snaps;
    KeptAre(s, trace, now);
    assert snaps[Available(s, id, now).value] in snaps;
  }

  lemma MayContinueIsFound(trace: Trace, id: string, now: int, snap: Snap)
    requires MayContinue(trace, id, now, snap)
    ensures Available(Run(trace), id, now).Some?
  {
    RunKeepsInv(trace);
    var s := Run(trace);
    var kept := Prune(s.snaps, s.generation, now);
    KeptAre(s, trace, now);
    assert snap in kept && SnapLive(snap, s.generation, trace);
    var i :| 0 <= i < |kept| && kept[i] == snap;
    SameSnap(kept, i, Find(kept, id).value);
  }

  /** A snapshot is found for continuation exactly when it is stored, has not expired and is open. */
  lemma AvailableIff(trace: Trace, id: string, now: int)
    ensures var at := Available(Run(trace), id, now);
      && (at.Some? <==> exists snap :: MayContinue(trace, id, now, snap))
      && (at.Some? ==> MayContinue(trace, id, now, Pruned(Run(trace), now).snaps[at.value]))
  {
    if Available(Run(trace), id, now).Some? {
      FoundMayContinue(trace, id, now);
    }
    if snap :| MayContinue(trace, id, now, snap) {
      MayContinueIsFound(trace, id, now, snap);
    }
  }

  lemma OnlyOneMayContinue(trace: Trace, id: string, now: int, x: Snap, y: Snap)
    requires MayContinue(trace, id, now, x) && MayContinue(trace, id, now, y)
    ensures x == y
  {
    RunKeepsInv(trace);
    var snaps := Run(trace).snaps;
    var i :| 0 <= i < |snaps| && snaps[i] == x;
    var j :| 0 <= j < |snaps| && snaps[j] == y;
    SameSnap(snaps, i, j);
  }

  /** A ref leads to its first element in the snapshot stored last, of those unexpired, in which it lives. */
  lemma ResolvesToLastStored(trace: Trace, ref: string, now: int)
    requires Target(Run(trace), ref, now).Some?
    ensures var s, (snap, element) := Run(trace), Target(Run(trace), ref, now).value;
      IsFirstWithRef(snap.elements, ref, element) &&
      exists k: nat :: k < |s.snaps| && s.snaps[k] == snap && Unexpired(snap, now) && IsUsed(s, Resolve(ref, now), k)
  {
    RunKeepsInv(trace);
    var s := Run(trace);
    var kept := Prune(s.snaps, s.generation, now);
    var at := Holder(kept, s.generation, ref);
    KeptAre(s, trace, now);
    assert kept[at.value] in s.snaps;
    var k: nat :| k < |s.snaps| && s.snaps[k] == kept[at.value];
    ResolveUses(s, trace, ref, now, at.value, k);
  }

  // ---- The latest observation ----

  /** With a clock that does not run back, an inspect that publishes becomes the latest observation. */
  lemma PublishedIsLatest(trace: Trace, token: nat, id: string, now: int)
    requires ClockForward(trace + [Commit(token, id, now)]) && Publishes(Run(trace), token)
    ensures Run(trace + [Commit(token, id, now)]).latest == Some(id)
  {
    CommitDropsLeastRecentlyUsed(trace, token, id, now);
    assert (trace + [Commit(token, id, now)])[..|trace|] == trace;
  }

  ghost predicate IsStored(snaps: seq<Snap>, id: Option<string>) {
    id.Some? && exists snap | snap in snaps :: snap.id == id.value
  }

  lemma SameIdsStored(a: seq<Snap>, b: seq<Snap>, id: Option<string>)
    requires SameIds(a, b) && IsStored(a, id)
    ensures IsStored(b, id)
  {
    var i :| 0 <= i < |a| && a[i].id == id.value;
    assert b[i] in b;
  }

  ghost predicate LatestOf(was: Option<string>, snaps: seq<Snap>, latest: Option<string>) {
    latest == if IsStored(snaps, was) then was else if snaps == [] then None else Some(snaps[|snaps| - 1].id)
  }

  lemma LatestKept(s: State, snaps: seq<Snap>)
    requires StoreShaped(s.snaps, s.latest) && SameIds(s.snaps, snaps)
    ensures LatestOf(s.latest, snaps, s.latest)
  {
    if s.latest.Some? {
      SameIdsStored(s.snaps, snaps, s.latest);
    }
  }

  lemma GotLatest(s: State, id: string, now: int)
    ensures LatestOf(s.latest, Got(s, id, now).snaps, Got(s, id, now).latest)
  {
    LookupKeepsLatest(s.latest, Pruned(s, now).snaps, Got(s, id, now).snaps);
  }

  lemma ResolvedLatest(s: State, ref: string, now: int)
    ensures LatestOf(s.latest, Resolved(s, ref, now).snaps, Resolved(s, ref, now).latest)
  {
    LookupKeepsLatest(s.latest, Pruned(s, now).snaps, Resolved(s, ref, now).snaps);
  }

  lemma LatestStep(s: State, event: Event)
    requires StoreShaped(s.snaps, s.latest) && !(event.Commit? && Publishes(s, event.token))
    ensures LatestOf(s.latest, Step(s, event).snaps, Step(s, event).latest)
  {
    match event
    case Get(id, now) =>
      GotLatest(s, id, now);
    case Resolve(ref, now) =>
      ResolvedLatest(s, ref, now);
    case Navigate =>
    case _ =>
      LatestKept(s, Step(s, event).snaps);
  }

  lemma LookupKeepsLatest(was: Option<string>, a: seq<Snap>, b: seq<Snap>)
    requires SameIds(a, b)
    ensures LatestOf(was, b, Latest(was, a))
  {
    if IsStored(a, was) {
      SameIdsStored(a, b, was);
    }
    if IsStored(b, was) {
      SameIdsStored(b, a, was);
    }
  }

  /** Otherwise the latest observation stays while it is stored, and then the one stored last takes its place. */
  lemma LatestStaysWhileStored(trace: Trace, event: Event)
    requires !(event.Commit? && Publishes(Run(trace), event.token))
    ensures var was, after := Run(trace).latest, Run(trace + [event]);
      after.latest == if IsStored(after.snaps, was) then was
                      else if after.snaps == [] then None else Some(after.snaps[|after.snaps| - 1].id)
  {
    RunKeepsInv(trace);
    LatestStep(Run(trace), event);
    assert (trace + [event])[..|trace|] == trace;
  }
}
