/**
 What every run of a session guarantees: opaque refs resolve only while the document they came from still lives
 (packages/browser-core/src/browser-state.ts).
 */
module SnapshotRuns {
  import opened Prelude
  import opened SnapshotStore
  import opened SnapshotAuthority

  lemma {:induction false} RunKeepsInv(trace: Trace)
    ensures Inv(Run(trace), trace)
  {
    if trace != [] {
      var shorter := trace[..|trace| - 1];
      RunKeepsInv(shorter);
      InvStep(Run(shorter), shorter, trace[|trace| - 1]);
      assert shorter + [trace[|trace| - 1]] == trace;
    }
  }

  // ---- Main results ----

  /**
   Whatever interleaving of inspects, navigations and frame events led here, a ref resolves only
   to an element whose inspect began after the last main-document invalidation and after the last
   invalidation of the element's own frame or session.
   */
  lemma RefsOutliveNothing(trace: Trace, ref: string, now: int)
    ensures var target := Target(Run(trace), ref, now);
      target.Some? ==>
        var (snap, element) := target.value;
        && element.ref == ref && element in snap.elements && element in snap.scanned
        && snap.begunAt < |trace| && trace[snap.begunAt].Begin?
        && forall i | snap.begunAt <= i < |trace| :: !Revokes(trace[i], element)
  {
    RunKeepsInv(trace);
    var s := Run(trace);
    var target := Target(s, ref, now);
    if target.Some? {
      var snap, element := target.value.0, target.value.1;
      PruneLive(s, now, trace);
      LiveElement(snap, s.generation, trace, element);
    }
  }

  lemma LiveElement(snap: Snap, generation: nat, trace: Trace, element: Element)
    requires SnapLive(snap, generation, trace) && element in snap.elements
    ensures element in snap.scanned && Survives(trace, snap.begunAt, element)
    ensures forall i | snap.begunAt <= i < |trace| :: !Revokes(trace[i], element)
  {
    FilterMembers(snap.scanned, SurvivesIn(trace, snap.begunAt));
    assert Survives(trace, snap.begunAt, element);
  }

  /** The generation an inspect captured still being current says exactly that no navigation came in between. */
  lemma GenerationCheckIsExact(trace: Trace, token: nat)
    requires token in Run(trace).inspections
    ensures Run(trace).inspections[token].generation == Run(trace).generation <==> NoNavigation(trace, token)
  {
    RunKeepsInv(trace);
    assert InspectionLive(Run(trace), token, Run(trace).inspections[token], trace);
  }

  /** An unexpired snapshot whose scan saw `element`, whose document has not been taken away since. */
  ghost predicate SeenAlive(trace: Trace, ref: string, now: int, snap: Snap, element: Element) {
    && snap in Run(trace).snaps && AccessTime(snap) >= now - TTL_MS
    && element in snap.scanned && element.ref == ref && Survives(trace, snap.begunAt, element)
  }

  lemma ResolvedIsAlive(trace: Trace, ref: string, now: int)
    requires Inv(Run(trace), trace) && Target(Run(trace), ref, now).Some?
    ensures exists snap, element :: SeenAlive(trace, ref, now, snap, element)
  {
    var s := Run(trace);
    var snaps := Pruned(s, now).snaps;
    var snap := snaps[Holder(snaps, s.generation, ref).value];
    var element := FirstWithRef(snap.elements, ref);
    FilterMembers(s.snaps, FreshIn(s.generation, now));
    assert snap in s.snaps && SnapLive(snap, s.generation, trace);
    LiveElement(snap, s.generation, trace, element);
    assert SeenAlive(trace, ref, now, snap, element);
  }

  lemma AliveIsResolved(trace: Trace, ref: string, now: int, snap: Snap, element: Element)
    requires Inv(Run(trace), trace) && SeenAlive(trace, ref, now, snap, element)
    ensures Target(Run(trace), ref, now).Some?
  {
    var s := Run(trace);
    assert SnapLive(snap, s.generation, trace);
    FilterMembers(s.snaps, FreshIn(s.generation, now));
    FilterMembers(snap.scanned, SurvivesIn(trace, snap.begunAt));
    var snaps := Pruned(s, now).snaps;
    var i :| 0 <= i < |snaps| && snaps[i] == snap;
    assert HasRef(snaps[i].elements, ref);
  }

  /** A ref resolves exactly when an unexpired snapshot's scan saw it and its document is still there. */
  lemma RefResolvesIffLive(trace: Trace, ref: string, now: int)
    ensures Target(Run(trace), ref, now).Some? <==> exists snap, element :: SeenAlive(trace, ref, now, snap, element)
  {
    RunKeepsInv(trace);
    if Target(Run(trace), ref, now).Some? {
      ResolvedIsAlive(trace, ref, now);
    }
    if snap, element :| SeenAlive(trace, ref, now, snap, element) {
      AliveIsResolved(trace, ref, now, snap, element);
    }
  }

  /** The latest observation is absent or one of the stored ones, and the store holds at most three. */
  lemma LatestIsStored(trace: Trace)
    ensures var s := Run(trace);
      |s.snaps| <= MAX_RETAINED && (s.latest.Some? ==> s.latest.value in Ids(s.snaps)) &&
        (s.latest.None? <==> s.snaps == [])
  {
    RunKeepsInv(trace);
  }

  // ---- What stays open for continuation stays as it was ----

  /** The same observation, closed for continuation or with the same elements. */
  predicate ClosedOrSame(was: Snap, snap: Snap) {
    was.id == snap.id && was.begunAt == snap.begunAt &&
      (snap.invalidated || (!was.invalidated && was.elements == snap.elements))
  }

  ghost predicate FromBefore(s: State, snap: Snap) {
    exists was :: was in s.snaps && ClosedOrSame(was, snap)
  }

  predicate JustPublished(s: State, event: Event, snap: Snap) {
    event.Commit? && Publishes(s, event.token) &&
      snap == NewSnap(s, event.token, event.id, event.now).(accessedAt := Some(event.now))
  }

  lemma TouchedFromBefore(s: State, p: State, i: nat, now: int, snap: Snap)
    requires i < |p.snaps| && (forall t | t in p.snaps :: t in s.snaps) && snap in Touch(p.snaps, i, now)
    ensures FromBefore(s, snap)
  {
    var touched := Touch(p.snaps, i, now);
    var k :| 0 <= k < |touched| && touched[k] == snap;
    assert p.snaps[k] in s.snaps && ClosedOrSame(p.snaps[k], snap);
  }

  lemma FrameGoneFromBefore(s: State, identity: Identity, snap: Snap)
    requires snap in FrameInvalidated(s, identity).snaps
    ensures FromBefore(s, snap)
  {
    if Keys(identity) == [] {
      assert ClosedOrSame(snap, snap);
    } else {
      var next := FrameInvalidated(s, identity).snaps;
      var k :| 0 <= k < |next| && next[k] == snap;
      assert s.snaps[k] in s.snaps && ClosedOrSame(s.snaps[k], WithoutFrame(s.snaps[k], identity));
    }
  }

  lemma StoredFromBefore(s: State, event: Event, snap: Snap)
    requires DistinctIds(s.snaps) && event.Commit? && Publishes(s, event.token)
    requires snap in Store(s.snaps, NewSnap(s, event.token, event.id, event.now), s.generation, event.now)
    ensures FromBefore(s, snap) || JustPublished(s, event, snap)
  {
    StoreMembers(s.snaps, NewSnap(s, event.token, event.id, event.now), s.generation, event.now);
    if snap in s.snaps {
      assert ClosedOrSame(snap, snap);
    }
  }

  /** Every stored snapshot was stored before, then closed or unchanged, or is published by this very event. */
  lemma StepClosesOrKeeps(s: State, event: Event, snap: Snap)
    requires DistinctIds(s.snaps) && snap in Step(s, event).snaps
    ensures FromBefore(s, snap) || JustPublished(s, event, snap)
  {
    assert ClosedOrSame(snap, snap);
    match event
    case Commit(token, id, now) =>
      if Publishes(s, token) {
        StoredFromBefore(s, event, snap);
      }
    case FrameGone(identity) =>
      FrameGoneFromBefore(s, identity, snap);
    case Get(id, now) =>
      FilterMembers(s.snaps, FreshIn(s.generation, now));
      if Available(s, id, now).Some? {
        TouchedFromBefore(s, Pruned(s, now), Available(s, id, now).value, now, snap);
      }
    case Resolve(ref, now) =>
      FilterMembers(s.snaps, FreshIn(s.generation, now));
      var p := Pruned(s, now);
      if Holder(p.snaps, s.generation, ref).Some? {
        TouchedFromBefore(s, p, Holder(p.snaps, s.generation, ref).value, now, snap);
      }
    case PageMutated =>
      var k :| 0 <= k < |s.snaps| && Step(s, event).snaps[k] == snap;
      assert s.snaps[k] in s.snaps && ClosedOrSame(s.snaps[k], snap);
    case _ =>
  }

  /** Event `c` published the snapshot with exactly the elements it holds. */
  ghost predicate PublishedAt(trace: Trace, c: nat, snap: Snap) {
    && c < |trace| && trace[c].Commit? && trace[c].token == snap.begunAt && trace[c].id == snap.id
    && Publishes(Run(trace[..c]), snap.begunAt) && snap.elements == PublishedElements(Run(trace[..c]), snap.begunAt)
  }

  lemma PublishedEarlier(trace: Trace, event: Event, c: nat, was: Snap, snap: Snap)
    requires PublishedAt(trace, c, was) && ClosedOrSame(was, snap) && !snap.invalidated
    ensures PublishedAt(trace + [event], c, snap)
  {
    assert (trace + [event])[..c] == trace[..c];
  }

  /**
   Whatever happens, a snapshot that is still open for continuation holds exactly the elements it was published with.
   */
  lemma {:induction false} OpenSnapshotsAreFrozen(trace: Trace, snap: Snap)
    requires snap in Run(trace).snaps && !snap.invalidated
    ensures exists c :: PublishedAt(trace, c, snap)
  {
    var n := |trace| - 1;
    var shorter, event := trace[..n], trace[n];
    assert shorter + [event] == trace;
    RunKeepsInv(shorter);
    StepClosesOrKeeps(Run(shorter), event, snap);
    if JustPublished(Run(shorter), event, snap) {
      assert PublishedAt(trace, n, snap);
    } else {
      var was :| was in Run(shorter).snaps && ClosedOrSame(was, snap);
      OpenSnapshotsAreFrozen(shorter, was);
      var c :| PublishedAt(shorter, c, was);
      PublishedEarlier(shorter, event, c, was, snap);
    }
  }

  // ---- The least recently used snapshot leaves ----

  function NowOf(event: Event): Option<int> {
    match event
    case Commit(_, _, now) => Some(now)
    case Get(_, now) => Some(now)
    case Resolve(_, now) => Some(now)
    case _ => None
  }

  ghost predicate Until(trace: Trace, now: int) {
    forall i | 0 <= i < |trace| && NowOf(trace[i]).Some? :: NowOf(trace[i]).value <= now
  }

  ghost predicate ClockForward(trace: Trace) {
    forall i, j | 0 <= i < j < |trace| && NowOf(trace[i]).Some? && NowOf(trace[j]).Some? ::
      NowOf(trace[i]).value <= NowOf(trace[j]).value
  }

  ghost predicate UsedUntil(snaps: seq<Snap>, now: int) {
    forall s | s in snaps :: AccessTime(s) <= now
  }

  lemma TouchUsedUntil(snaps: seq<Snap>, i: nat, at: int, now: int)
    requires UsedUntil(snaps, now) && i < |snaps| && at <= now
    ensures UsedUntil(Touch(snaps, i, at), now)
  {
    forall s | s in Touch(snaps, i, at) ensures AccessTime(s) <= now {
      var k :| 0 <= k < |snaps| && Touch(snaps, i, at)[k] == s;
      assert snaps[k] in snaps;
    }
  }

  lemma PruneUsedUntil(s: State, at: int, now: int)
    requires UsedUntil(s.snaps, now)
    ensures UsedUntil(Pruned(s, at).snaps, now)
  {
    FilterMembers(s.snaps, FreshIn(s.generation, at));
  }

  lemma MapUsedUntil(snaps: seq<Snap>, f: Snap -> Snap, now: int)
    requires UsedUntil(snaps, now) && forall s | s in snaps :: AccessTime(f(s)) == AccessTime(s)
    ensures UsedUntil(MapSnaps(snaps, f), now)
  {
    forall s | s in MapSnaps(snaps, f) ensures AccessTime(s) <= now {
      var k :| 0 <= k < |snaps| && MapSnaps(snaps, f)[k] == s;
      assert snaps[k] in snaps;
    }
  }

  lemma StepUsedUntil(s: State, event: Event, now: int)
    requires DistinctIds(s.snaps) && UsedUntil(s.snaps, now) && (NowOf(event).Some? ==> NowOf(event).value <= now)
    ensures UsedUntil(Step(s, event).snaps, now)
  {
    match event
    case Commit(token, id, at) =>
      if Publishes(s, token) {
        StoreMembers(s.snaps, NewSnap(s, token, id, at), s.generation, at);
      }
    case FrameGone(identity) =>
      MapUsedUntil(s.snaps, (snap: Snap) => WithoutFrame(snap, identity), now);
    case PageMutated =>
      MapUsedUntil(s.snaps, (snap: Snap) => snap.(invalidated := true), now);
    case Get(id, at) =>
      PruneUsedUntil(s, at, now);
      if Available(s, id, at).Some? {
        TouchUsedUntil(Pruned(s, at).snaps, Available(s, id, at).value, at, now);
      }
    case Resolve(ref, at) =>
      PruneUsedUntil(s, at, now);
      var p := Pruned(s, at);
      if Holder(p.snaps, s.generation, ref).Some? {
        TouchUsedUntil(p.snaps, Holder(p.snaps, s.generation, ref).value, at, now);
      }
    case _ =>
  }

  lemma {:induction false} UsedInThePast(trace: Trace, now: int)
    requires Until(trace, now)
    ensures UsedUntil(Run(trace).snaps, now)
  {
    if trace != [] {
      var n := |trace| - 1;
      UsedInThePast(trace[..n], now);
      RunKeepsInv(trace[..n]);
      StepUsedUntil(Run(trace[..n]), trace[n], now);
    }
  }

  /**
   With a clock that does not run back, every inspect that publishes keeps its snapshot, in a store of at most three
   that holds nothing expired; at most one unexpired snapshot leaves, and only when the store is full without it; none
   that stays was used before it.
   */
  lemma CommitDropsLeastRecentlyUsed(trace: Trace, token: nat, id: string, now: int)
    requires ClockForward(trace + [Commit(token, id, now)]) && Publishes(Run(trace), token)
    ensures var before, after := Run(trace).snaps, Run(trace + [Commit(token, id, now)]).snaps;
      var published := NewSnap(Run(trace), token, id, now).(accessedAt := Some(now));
      && published in after && |after| <= MAX_RETAINED
      && (forall s | s in after :: s == published || (s in before && AccessTime(s) >= now - TTL_MS))
      && (forall s | Leaves(s, Run(trace), after, id, now) :: |after| == MAX_RETAINED)
      && (forall s, t | Leaves(s, Run(trace), after, id, now) && t in after :: AccessTime(s) <= AccessTime(t))
      && (forall s, t | Leaves(s, Run(trace), after, id, now) && Leaves(t, Run(trace), after, id, now) :: s == t)
  {
    var longer := trace + [Commit(token, id, now)];
    assert longer[..|trace|] == trace && longer[|trace|] == Commit(token, id, now);
    assert Until(trace, now) by {
      forall i | 0 <= i < |trace| && NowOf(trace[i]).Some? ensures NowOf(trace[i]).value <= now {
        assert longer[i] == trace[i];
      }
    }
    UsedInThePast(trace, now);
    RunKeepsInv(trace);
    StoreKeepsRecent(Run(trace).snaps, NewSnap(Run(trace), token, id, now), Run(trace).generation, now);
  }

  /** An unexpired snapshot of another id that is no longer stored. */
  predicate Leaves(snap: Snap, before: State, after: seq<Snap>, id: string, now: int) {
    snap in before.snaps && Fresh(snap, before.generation, now) && snap.id != id && snap !in after
  }
}
