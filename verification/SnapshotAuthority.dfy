/**
 Browser observations under interference: an inspect captures the generation and the frame epochs,
 scans the page for as long as it takes, and publishes what it saw, while navigation and frame
 events arrive at any moment (packages/browser-core/src/browser-snapshot.ts and browser-state.ts).
 */
module SnapshotAuthority {
  import opened Prelude
  import opened SnapshotStore

  /** One uninterrupted step of the session. A token is the position at which its inspect began. */
  datatype Event =
    | Begin
    | Narrow(token: nat, scanned: seq<Element>)
    | Commit(token: nat, id: string, now: int)
    | Navigate
    | FrameGone(identity: Identity)
    | PageMutated
    | Get(id: string, now: int)
    | Resolve(ref: string, now: int)

  type Trace = seq<Event>

  /** `narrowedAt` is None until the scan has returned `scanned`. */
  datatype Inspection = Inspection(
    generation: nat, baseline: map<string, nat>,
    narrowedAt: Option<nat>, scanned: seq<Element>, pending: seq<Element>)

  datatype State = State(
    generation: nat, epochs: Option<map<string, nat>>,
    snaps: seq<Snap>, latest: Option<string>,
    inspections: map<nat, Inspection>, steps: nat)

  const INITIAL := State(0, None, [], None, map[], 0)

  function EpochIn(epochs: map<string, nat>, key: string): nat {
    if key in epochs then epochs[key] else 0
  }

  function Epoch(epochs: Option<map<string, nat>>, key: string): nat {
    if epochs.None? then 0 else EpochIn(epochs.value, key)
  }

  predicate FrameIsCurrent(epochs: Option<map<string, nat>>, baseline: map<string, nat>, element: Element) {
    epochs.None? || forall key | key in Keys(element.identity) :: EpochIn(epochs.value, key) == EpochIn(baseline, key)
  }

  function CurrentIn(epochs: Option<map<string, nat>>, baseline: map<string, nat>): Element -> bool {
    (e: Element) => FrameIsCurrent(epochs, baseline, e)
  }

  function Bump(epochs: map<string, nat>, keys: seq<string>): map<string, nat>
    decreases |keys|
  {
    if keys == [] then epochs else Bump(epochs[keys[0] := EpochIn(epochs, keys[0]) + 1], keys[1..])
  }

  function WithStore(s: State, snaps: seq<Snap>, latest: Option<string>): State {
    s.(snaps := snaps, latest := Latest(latest, snaps))
  }

  function Pruned(s: State, now: int): State {
    WithStore(s, Prune(s.snaps, s.generation, now), s.latest)
  }

  function Invalidated(s: State): State {
    s.(generation := s.generation + 1, epochs := if s.epochs.None? then None else Some(map[]), snaps := [],
       latest := None)
  }

  function FrameInvalidated(s: State, identity: Identity): State {
    if Keys(identity) == [] then s
    else
      var epochs := if s.epochs.None? then map[] else s.epochs.value;
      s.(epochs := Some(Bump(epochs, Keys(identity))),
         snaps := MapSnaps(s.snaps, (snap: Snap) => WithoutFrame(snap, identity)))
  }

  function Committed(s: State, token: nat, id: string, now: int): State
    requires token in s.inspections
  {
    var done := s.(inspections := s.inspections - {token});
    if !Publishes(s, token) then done
    else WithStore(done, Store(s.snaps, NewSnap(s, token, id, now), s.generation, now), Some(id))
  }

  /** The inspect has scanned, and its document is still the current one. */
  predicate Publishes(s: State, token: nat) {
    token in s.inspections && s.inspections[token].generation == s.generation && s.inspections[token].narrowedAt.Some?
  }

  function NewSnap(s: State, token: nat, id: string, now: int): Snap
    requires token in s.inspections
  {
    var ins := s.inspections[token];
    Snap(id, ins.generation, now, None, PublishedElements(s, token), false, token, ins.scanned)
  }

  /** The elements whose documents have lived through the whole scan. */
  function PublishedElements(s: State, token: nat): seq<Element>
    requires token in s.inspections
  {
    Filter(s.inspections[token].pending, CurrentIn(s.epochs, s.inspections[token].baseline))
  }

  function Narrowed(s: State, token: nat, scanned: seq<Element>): State
    requires token in s.inspections
  {
    var ins := s.inspections[token];
    if ins.generation != s.generation then s.(inspections := s.inspections - {token})
    else
      var pending := Filter(scanned, CurrentIn(s.epochs, ins.baseline));
      s.(inspections := s.inspections[token := ins.(narrowedAt := Some(s.steps), scanned := scanned,
                                                    pending := pending)])
  }

  /** The stored snapshot that a continuation may page through. */
  function Available(s: State, id: string, now: int): (r: Option<nat>)
    ensures r.Some? ==> r.value < |Pruned(s, now).snaps|
  {
    var snaps := Pruned(s, now).snaps;
    var at := Find(snaps, id);
    if at.None? || snaps[at.value].generation != s.generation || snaps[at.value].invalidated then None else at
  }

  function Got(s: State, id: string, now: int): State {
    var p := Pruned(s, now);
    var at := Available(s, id, now);
    if at.None? then p else p.(snaps := Touch(p.snaps, at.value, now))
  }

  /** The snapshot and element an opaque ref stands for. */
  function Target(s: State, ref: string, now: int): Option<(Snap, Element)> {
    var snaps := Pruned(s, now).snaps;
    var at := Holder(snaps, s.generation, ref);
    if at.None? then None else Some((snaps[at.value], FirstWithRef(snaps[at.value].elements, ref)))
  }

  function Resolved(s: State, ref: string, now: int): State {
    var p := Pruned(s, now);
    var at := Holder(p.snaps, s.generation, ref);
    if at.None? then p else p.(snaps := Touch(p.snaps, at.value, now))
  }

  function Step(s: State, event: Event): State {
    var next := match event
      case Begin => s.(inspections := s.inspections[s.steps := Inspection(s.generation,
                                                                          if s.epochs.None? then map[]
                                                                            else s.epochs.value, None, [], [])])
      case Narrow(token, scanned) => if token in s.inspections then Narrowed(s, token, scanned) else s
      case Commit(token, id, now) => if token in s.inspections then Committed(s, token, id, now) else s
      case Navigate => Invalidated(s)
      case FrameGone(identity) => FrameInvalidated(s, identity)
      case PageMutated => s.(snaps := MapSnaps(s.snaps, (snap: Snap) => snap.(invalidated := true)))
      case Get(id, now) => Got(s, id, now)
      case Resolve(ref, now) => Resolved(s, ref, now);
    next.(steps := s.steps + 1)
  }

  function Run(trace: Trace): State {
    if trace == [] then INITIAL else Step(Run(trace[..|trace| - 1]), trace[|trace| - 1])
  }

  // ---- What a trace says about an observation ----

  predicate Revokes(event: Event, element: Element) {
    event.Navigate? || (event.FrameGone? && Matches(element.identity, event.identity))
  }

  /** No frame event after position `from` took the element's document away. */
  predicate Survives(trace: Trace, from: nat, element: Element) {
    forall i | from <= i < |trace| :: !(trace[i].FrameGone? && Revokes(trace[i], element))
  }

  predicate NoNavigation(trace: Trace, from: nat) {
    forall i | from <= i < |trace| :: !trace[i].Navigate?
  }

  function Survivors(trace: Trace, from: nat, elements: seq<Element>): seq<Element> {
    Filter(elements, SurvivesIn(trace, from))
  }

  function SurvivesIn(trace: Trace, from: nat): Element -> bool {
    (e: Element) => Survives(trace, from, e)
  }

  /** How many frame events after position `from` carried `key`. */
  function Hits(trace: Trace, from: nat, key: string): nat {
    if |trace| <= from then 0
    else
      var last := trace[|trace| - 1];
      Hits(trace[..|trace| - 1], from, key) + if last.FrameGone? && key in Keys(last.identity) then 1 else 0
  }

  // ---- The invariant ----

  ghost predicate SnapLive(snap: Snap, generation: nat, trace: Trace) {
    && snap.generation == generation
    && snap.begunAt < |trace| && trace[snap.begunAt].Begin?
    && NoNavigation(trace, snap.begunAt)
    && snap.elements == Survivors(trace, snap.begunAt, snap.scanned)
  }

  ghost predicate InspectionLive(s: State, token: nat, ins: Inspection, trace: Trace) {
    && token < |trace| && trace[token].Begin?
    && ins.generation <= s.generation
    && (ins.generation == s.generation <==> NoNavigation(trace, token))
    && (ins.generation == s.generation ==>
          && (forall key :: Epoch(s.epochs, key) == EpochIn(ins.baseline, key) + Hits(trace, token, key))
          && (ins.narrowedAt.Some? ==>
                token < ins.narrowedAt.value <= |trace| &&
                ins.pending == Survivors(trace[..ins.narrowedAt.value], token, ins.scanned)))
  }

  ghost predicate Inv(s: State, trace: Trace) {
    && s.steps == |trace|
    && StoreLive(s, trace)
    && (forall token | token in s.inspections :: InspectionLive(s, token, s.inspections[token], trace))
  }

  // ---- How one more event changes what a trace says ----

  lemma SurvivesStep(trace: Trace, event: Event, from: nat, element: Element)
    requires from <= |trace|
    ensures Survives(trace + [event], from, element) <==>
      Survives(trace, from, element) && !(event.FrameGone? && Revokes(event, element))
  {
    var longer := trace + [event];
    if Survives(longer, from, element) {
      assert longer[|trace|] == event;
      forall i | from <= i < |trace| ensures !(trace[i].FrameGone? && Revokes(trace[i], element)) {
        assert longer[i] == trace[i];
      }
    }
  }

  lemma SurvivorsStep(trace: Trace, event: Event, from: nat, elements: seq<Element>)
    requires from <= |trace|
    ensures Survivors(trace + [event], from, elements)
      == if event.FrameGone? then Filter(Survivors(trace, from, elements), Outside(event.identity))
         else Survivors(trace, from, elements)
  {
    var before, after := SurvivesIn(trace, from), SurvivesIn(trace + [event], from);
    forall e | e in elements ensures after(e) == (before(e) && !(event.FrameGone? && Revokes(event, e))) {
      SurvivesStep(trace, event, from, e);
    }
    if event.FrameGone? {
      var kept := Outside(event.identity);
      FilterTwice(elements, before, kept, after);
    } else {
      FilterSame(elements, after, before);
    }
  }

  lemma {:induction false} FilterFull<T>(s: seq<T>, keep: T -> bool)
    requires |Filter(s, keep)| == |s|
    ensures Filter(s, keep) == s
  {
    if s != [] {
      FilterFull(s[1..], keep);
    }
  }

  lemma WithoutFrameElements(snap: Snap, identity: Identity)
    ensures WithoutFrame(snap, identity).elements == Filter(snap.elements, Outside(identity))
    ensures WithoutFrame(snap, identity) ==
      snap.(elements := WithoutFrame(snap, identity).elements, invalidated := WithoutFrame(snap, identity).invalidated)
  {
    if |Filter(snap.elements, Outside(identity))| == |snap.elements| {
      FilterFull(snap.elements, Outside(identity));
    }
  }

  lemma BegunStep(trace: Trace, event: Event, from: nat)
    requires from < |trace| && trace[from].Begin? && NoNavigation(trace, from) && !event.Navigate?
    ensures (trace + [event])[from].Begin? && NoNavigation(trace + [event], from)
  {
    var longer := trace + [event];
    forall i | from <= i < |longer| ensures !longer[i].Navigate? {
      assert longer[i] == if i < |trace| then trace[i] else event;
    }
  }

  /** Removing a frame's elements from a live snapshot leaves exactly the survivors of the longer trace. */
  lemma SnapStep(snap: Snap, generation: nat, trace: Trace, event: Event)
    requires SnapLive(snap, generation, trace) && !event.Navigate?
    ensures SnapLive(if event.FrameGone? then WithoutFrame(snap, event.identity) else snap, generation, trace + [event])
  {
    SurvivorsStep(trace, event, snap.begunAt, snap.scanned);
    BegunStep(trace, event, snap.begunAt);
    if event.FrameGone? {
      WithoutFrameElements(snap, event.identity);
    }
  }

  lemma BumpCounts(epochs: map<string, nat>, identity: Identity, key: string)
    ensures EpochIn(Bump(epochs, Keys(identity)), key) == EpochIn(epochs, key) + if key in Keys(identity) then 1 else 0
  {
    var keys := Keys(identity);
    if keys != [] {
      var once := epochs[keys[0] := EpochIn(epochs, keys[0]) + 1];
      assert Bump(epochs, keys) == Bump(once, keys[1..]);
      if |keys| == 2 {
        assert keys[0][0] != keys[1][0];
        assert keys[1..] == [keys[1]];
        assert Bump(once, [keys[1]]) == Bump(once[keys[1] := EpochIn(once, keys[1]) + 1], []);
      }
    }
  }

  lemma {:induction false} HitsZero(trace: Trace, from: nat, key: string)
    ensures Hits(trace, from, key) == 0 <==>
      forall i | from <= i < |trace| :: !(trace[i].FrameGone? && key in Keys(trace[i].identity))
  {
    if from < |trace| {
      var shorter := trace[..|trace| - 1];
      HitsZero(shorter, from, key);
      assert forall i | 0 <= i < |shorter| :: shorter[i] == trace[i];
    }
  }

  /** The epoch comparison of an inspect that is still current tells exactly whether the element's document is. */
  lemma CurrentIffSurvives(s: State, token: nat, ins: Inspection, trace: Trace, element: Element)
    requires InspectionLive(s, token, ins, trace) && ins.generation == s.generation
    ensures FrameIsCurrent(s.epochs, ins.baseline, element) <==> Survives(trace, token, element)
  {
    forall key
      ensures Hits(trace, token, key) == 0 <==>
        forall i | token <= i < |trace| :: !(trace[i].FrameGone? && key in Keys(trace[i].identity))
    {
      HitsZero(trace, token, key);
    }
    forall i | token <= i < |trace| && trace[i].FrameGone?
      ensures Matches(element.identity, trace[i].identity) <==>
        exists key :: key in Keys(element.identity) && key in Keys(trace[i].identity)
    {
      MatchesIffKeysMeet(element.identity, trace[i].identity);
    }
    forall key | key in Keys(element.identity)
      ensures EpochIn(ins.baseline, key) == Epoch(s.epochs, key) <==> Hits(trace, token, key) == 0
    {
    }
    if !Survives(trace, token, element) {
      var i :| token <= i < |trace| && trace[i].FrameGone? && Revokes(trace[i], element);
      var key :| key in Keys(element.identity) && key in Keys(trace[i].identity);
      assert Hits(trace, token, key) > 0;
    }
  }

  lemma InspectionStep(s: State, token: nat, ins: Inspection, trace: Trace, event: Event)
    requires InspectionLive(s, token, ins, trace)
    ensures InspectionLive(Step(s, event), token, ins, trace + [event])
  {
    var longer := trace + [event];
    assert longer[..|trace|] == trace && longer[|trace|] == event;
    if ins.narrowedAt.Some? && ins.narrowedAt.value <= |trace| {
      assert longer[..ins.narrowedAt.value] == trace[..ins.narrowedAt.value];
    }
    if !event.Navigate? && ins.generation == s.generation {
      forall key ensures Epoch(Step(s, event).epochs, key) == EpochIn(ins.baseline, key) + Hits(longer, token, key) {
        if event.FrameGone? {
          BumpCounts(if s.epochs.None? then map[] else s.epochs.value, event.identity, key);
        }
      }
    }
  }

  // ---- Every run keeps the invariant ----

  lemma {:induction false} EvictMembers(snaps: seq<Snap>)
    requires DistinctIds(snaps)
    ensures var r := Evict(snaps); DistinctIds(r) && |r| <= MAX_RETAINED && (forall s | s in r :: s in snaps)
    decreases |snaps|
  {
    if |snaps| > MAX_RETAINED {
      EvictMembers(snaps[..Oldest(snaps)] + snaps[Oldest(snaps) + 1..]);
    }
  }

  lemma StoreMembers(snaps: seq<Snap>, snap: Snap, generation: nat, now: int)
    requires DistinctIds(snaps)
    ensures var r := Store(snaps, snap, generation, now);
      DistinctIds(r) && |r| <= MAX_RETAINED && forall s | s in r :: s in snaps || s == snap.(accessedAt := Some(now))
  {
    var stamped := snap.(accessedAt := Some(now));
    FilterDistinct(snaps, FreshIn(generation, now));
    FilterMembers(snaps, FreshIn(generation, now));
    PutKeeps(Prune(snaps, generation, now), stamped);
    EvictMembers(Put(Prune(snaps, generation, now), stamped));
  }

  ghost predicate AllLive(snaps: seq<Snap>, generation: nat, trace: Trace) {
    forall snap | snap in snaps :: SnapLive(snap, generation, trace)
  }

  ghost predicate StoreShaped(snaps: seq<Snap>, latest: Option<string>) {
    && DistinctIds(snaps) && |snaps| <= MAX_RETAINED
    && (latest.None? <==> snaps == [])
    && (latest.Some? ==> latest.value in Ids(snaps))
  }

  ghost predicate StoreLive(s: State, trace: Trace) {
    StoreShaped(s.snaps, s.latest) && AllLive(s.snaps, s.generation, trace)
  }

  ghost predicate SameIds(a: seq<Snap>, b: seq<Snap>) {
    |a| == |b| && forall i | 0 <= i < |a| :: a[i].id == b[i].id
  }

  /** Changing entries in place under their ids leaves the shape of the store. */
  lemma ShapeKept(a: seq<Snap>, b: seq<Snap>, latest: Option<string>)
    requires StoreShaped(a, latest) && SameIds(a, b)
    ensures StoreShaped(b, latest)
  {
    if latest.Some? {
      var i :| 0 <= i < |a| && a[i].id == latest.value;
      assert b[i] in b;
    }
  }

  lemma PruneLive(s: State, now: int, trace: Trace)
    requires StoreLive(s, trace)
    ensures StoreLive(Pruned(s, now), trace)
  {
    FilterDistinct(s.snaps, FreshIn(s.generation, now));
    FilterMembers(s.snaps, FreshIn(s.generation, now));
  }

  lemma LiveAfter(s: State, trace: Trace, event: Event)
    requires AllLive(s.snaps, s.generation, trace) && !event.Navigate? && !event.FrameGone?
    ensures AllLive(s.snaps, s.generation, trace + [event])
  {
    forall snap | snap in s.snaps ensures SnapLive(snap, s.generation, trace + [event]) {
      SnapStep(snap, s.generation, trace, event);
    }
  }

  lemma TouchLive(s: State, i: nat, now: int, trace: Trace)
    requires StoreLive(s, trace) && i < |s.snaps|
    ensures StoreLive(s.(snaps := Touch(s.snaps, i, now)), trace)
  {
    var touched := Touch(s.snaps, i, now);
    ShapeKept(s.snaps, touched, s.latest);
    forall j | 0 <= j < |touched| ensures SnapLive(touched[j], s.generation, trace) {
      assert SnapLive(s.snaps[j], s.generation, trace);
    }
  }

  lemma FrameGoneLive(s: State, identity: Identity, trace: Trace)
    requires StoreLive(s, trace)
    ensures StoreLive(FrameInvalidated(s, identity), trace + [FrameGone(identity)])
  {
    var next := FrameInvalidated(s, identity);
    forall i | 0 <= i < |s.snaps| ensures SnapLive(next.snaps[i], s.generation, trace + [FrameGone(identity)]) {
      SnapStep(s.snaps[i], s.generation, trace, FrameGone(identity));
      if Keys(identity) == [] {
        FilterAll(s.snaps[i].elements, Outside(identity));
      }
    }
    ShapeKept(s.snaps, next.snaps, s.latest);
  }

  lemma MutatedLive(s: State, trace: Trace)
    requires StoreLive(s, trace)
    ensures StoreLive(Step(s, PageMutated), trace + [PageMutated])
  {
    LiveAfter(s, trace, PageMutated);
    var next := Step(s, PageMutated);
    forall i | 0 <= i < |s.snaps| ensures SnapLive(next.snaps[i], s.generation, trace + [PageMutated]) {
      assert SnapLive(s.snaps[i], s.generation, trace + [PageMutated]);
    }
    ShapeKept(s.snaps, next.snaps, s.latest);
  }

  lemma GotLive(s: State, id: string, now: int, trace: Trace)
    requires StoreLive(s, trace)
    ensures StoreLive(Got(s, id, now), trace)
  {
    PruneLive(s, now, trace);
    if Available(s, id, now).Some? {
      TouchLive(Pruned(s, now), Available(s, id, now).value, now, trace);
    }
  }

  lemma ResolvedLive(s: State, ref: string, now: int, trace: Trace)
    requires StoreLive(s, trace)
    ensures StoreLive(Resolved(s, ref, now), trace)
  {
    PruneLive(s, now, trace);
    var p := Pruned(s, now);
    if Holder(p.snaps, s.generation, ref).Some? {
      TouchLive(p, Holder(p.snaps, s.generation, ref).value, now, trace);
    }
  }

  lemma StoredLive(s: State, snap: Snap, now: int, trace: Trace)
    requires StoreLive(s, trace) && SnapLive(snap, s.generation, trace)
    ensures StoreLive(WithStore(s, Store(s.snaps, snap, s.generation, now), Some(snap.id)), trace)
  {
    StoreMembers(s.snaps, snap, s.generation, now);
    forall t | t in Store(s.snaps, snap, s.generation, now) ensures SnapLive(t, s.generation, trace) {
      assert t == snap.(accessedAt := Some(now)) || t in s.snaps;
    }
  }

  lemma CommitLive(s: State, token: nat, id: string, now: int, trace: Trace)
    requires Inv(s, trace) && token in s.inspections
    ensures StoreLive(Committed(s, token, id, now), trace)
  {
    var ins := s.inspections[token];
    var done := s.(inspections := s.inspections - {token});
    assert StoreLive(done, trace);
    if ins.generation == s.generation && ins.narrowedAt.Some? {
      var snap := PublishedIsLive(s, token, id, now, trace);
      StoredLive(done, snap, now, trace);
    }
  }

  lemma PublishedIsLive(s: State, token: nat, id: string, now: int, trace: Trace) returns (snap: Snap)
    requires Inv(s, trace) && token in s.inspections
    requires s.inspections[token].generation == s.generation && s.inspections[token].narrowedAt.Some?
    ensures SnapLive(snap, s.generation, trace)
    ensures var ins := s.inspections[token];
      snap ==
        Snap(id, ins.generation, now, None, Filter(ins.pending, CurrentIn(s.epochs, ins.baseline)), false, token,
             ins.scanned)
  {
    var ins := s.inspections[token];
    assert InspectionLive(s, token, ins, trace);
    var current := CurrentIn(s.epochs, ins.baseline);
    var early := SurvivesIn(trace[..ins.narrowedAt.value], token);
    var late := SurvivesIn(trace, token);
    forall e | e in ins.scanned ensures late(e) == (early(e) && current(e)) {
      CurrentIffSurvives(s, token, ins, trace, e);
    }
    FilterTwice(ins.scanned, early, current, late);
    snap := Snap(id, ins.generation, now, None, Filter(ins.pending, current), false, token, ins.scanned);
  }

  lemma NarrowLive(s: State, token: nat, scanned: seq<Element>, trace: Trace)
    requires Inv(s, trace) && token in s.inspections && s.inspections[token].generation == s.generation
    ensures var next := Narrowed(s, token, scanned); InspectionLive(next, token, next.inspections[token], trace)
  {
    var ins := s.inspections[token];
    forall e | e in scanned ensures FrameIsCurrent(s.epochs, ins.baseline, e) == Survives(trace, token, e) {
      CurrentIffSurvives(s, token, ins, trace, e);
    }
    FilterSame(scanned, CurrentIn(s.epochs, ins.baseline), SurvivesIn(trace, token));
    assert trace[..|trace|] == trace;
  }

  lemma StoreStep(s: State, trace: Trace, event: Event)
    requires Inv(s, trace)
    ensures StoreLive(Step(s, event), trace + [event])
  {
    match event
    case Navigate =>
    case FrameGone(identity) =>
      FrameGoneLive(s, identity, trace);
    case Commit(token, id, now) =>
      if token in s.inspections {
        CommitLive(s, token, id, now, trace);
        LiveAfter(Committed(s, token, id, now), trace, event);
      } else {
        LiveAfter(s, trace, event);
      }
    case Get(id, now) =>
      GotLive(s, id, now, trace);
      LiveAfter(Got(s, id, now), trace, event);
    case Resolve(ref, now) =>
      ResolvedLive(s, ref, now, trace);
      LiveAfter(Resolved(s, ref, now), trace, event);
    case PageMutated =>
      MutatedLive(s, trace);
    case _ =>
      LiveAfter(s, trace, event);
  }

  lemma InvStep(s: State, trace: Trace, event: Event)
    requires Inv(s, trace)
    ensures Inv(Step(s, event), trace + [event])
  {
    StoreStep(s, trace, event);
    var next := Step(s, event);
    forall token | token in next.inspections
      ensures InspectionLive(next, token, next.inspections[token], trace + [event])
    {
      if token in s.inspections && next.inspections[token] == s.inspections[token] {
        InspectionStep(s, token, s.inspections[token], trace, event);
      } else if event.Narrow? {
        NarrowLive(s, token, event.scanned, trace);
        InspectionStep(Narrowed(s, token, event.scanned), token, next.inspections[token], trace, event);
      } else {
        HitsNoneYet(trace, event);
      }
    }
  }

  lemma HitsNoneYet(trace: Trace, event: Event)
    requires event.Begin?
    ensures forall key :: Hits(trace + [event], |trace|, key) == 0
  {
  }
}
