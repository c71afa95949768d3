/**
 The bounded store of page observations as a function of its old value (packages/browser-core/src/browser-state.ts).
 */
module SnapshotStore {
  import opened Prelude

  const MAX_RETAINED := 3
  const TTL_MS := 5 * 60 * 1000

  /** Where an element or an event belongs; "" stands for an absent id. */
  datatype Identity = Identity(frameId: string, sessionId: string)

  function Keys(identity: Identity): seq<string> {
    (if identity.frameId != "" then ["frame:" + identity.frameId] else []) +
    (if identity.sessionId != "" then ["session:" + identity.sessionId] else [])
  }

  predicate Matches(element: Identity, identity: Identity) {
    || (identity.frameId != "" && element.frameId == identity.frameId)
    || (identity.sessionId != "" && element.sessionId == identity.sessionId)
  }

  /** The epoch keys of two identities meet exactly when one event revokes the other's element. */
  lemma MatchesIffKeysMeet(element: Identity, identity: Identity)
    ensures Matches(element, identity) <==> exists key :: key in Keys(element) && key in Keys(identity)
  {
    var frame, session := "frame:" + element.frameId, "session:" + element.sessionId;
    assert ("frame:" + identity.frameId)[0] != session[0];
    assert ("session:" + identity.sessionId)[0] != frame[0];
    if Matches(element, identity) {
      var key := if identity.frameId != "" && element.frameId == identity.frameId then frame else session;
      assert key in Keys(element) && key in Keys(identity);
    }
    if exists key :: key in Keys(element) && key in Keys(identity) {
      var key :| key in Keys(element) && key in Keys(identity);
      assert key == frame ==> key[6..] == element.frameId;
      assert key == "frame:" + identity.frameId ==> key[6..] == identity.frameId;
      assert key == session ==> key[8..] == element.sessionId;
      assert key == "session:" + identity.sessionId ==> key[8..] == identity.sessionId;
    }
  }

  datatype Element = Element(ref: string, identity: Identity, backendNodeId: int)

  /** `begunAt` and `scanned` record which inspect produced the snapshot and what its scan returned. */
  datatype Snap = Snap(
    id: string, generation: nat, createdAt: int, accessedAt: Option<int>,
    elements: seq<Element>, invalidated: bool,
    begunAt: nat, scanned: seq<Element>)

  function AccessTime(snap: Snap): int {
    if snap.accessedAt.Some? then snap.accessedAt.value else snap.createdAt
  }

  predicate Fresh(snap: Snap, generation: nat, now: int) {
    snap.generation == generation && AccessTime(snap) >= now - TTL_MS
  }

  function FreshIn(generation: nat, now: int): Snap -> bool {
    (snap: Snap) => Fresh(snap, generation, now)
  }

  function Prune(snaps: seq<Snap>, generation: nat, now: int): seq<Snap> {
    Filter(snaps, FreshIn(generation, now))
  }

  function Ids(snaps: seq<Snap>): (r: set<string>) {
    set snap | snap in snaps :: snap.id
  }

  ghost predicate DistinctIds(snaps: seq<Snap>) {
    forall i, j :: 0 <= i < j < |snaps| ==> snaps[i].id != snaps[j].id
  }

  /** The latest observation stays the latest while it is stored; otherwise the last one stored takes over. */
  function Latest(latest: Option<string>, snaps: seq<Snap>): Option<string> {
    if latest.Some? && latest.value in Ids(snaps) then latest
    else if snaps == [] then None
    else Some(snaps[|snaps| - 1].id)
  }

  /** The first entry of minimal access time. */
  function Oldest(snaps: seq<Snap>): (r: nat)
    requires snaps != []
    ensures r < |snaps|
    ensures forall i :: 0 <= i < r ==> AccessTime(snaps[r]) < AccessTime(snaps[i])
    ensures forall i :: r <= i < |snaps| ==> AccessTime(snaps[r]) <= AccessTime(snaps[i])
  {
    if |snaps| == 1 then 0
    else
      var rest := Oldest(snaps[..|snaps| - 1]);
      if AccessTime(snaps[|snaps| - 1]) < AccessTime(snaps[rest]) then |snaps| - 1 else rest
  }

  function Evict(snaps: seq<Snap>): seq<Snap>
    decreases |snaps|
  {
    if |snaps| <= MAX_RETAINED then snaps
    else Evict(snaps[..Oldest(snaps)] + snaps[Oldest(snaps) + 1..])
  }

  function Store(snaps: seq<Snap>, snap: Snap, generation: nat, now: int): seq<Snap> {
    Evict(Put(Prune(snaps, generation, now), snap.(accessedAt := Some(now))))
  }

  function Find(snaps: seq<Snap>, id: string): (r: Option<nat>)
    ensures r.Some? ==> r.value < |snaps| && snaps[r.value].id == id
    ensures r.None? ==> forall i :: 0 <= i < |snaps| ==> snaps[i].id != id
  {
    if snaps == [] then None
    else if snaps[0].id == id then Some(0)
    else var rest := Find(snaps[1..], id);
         assert rest.None? ==> forall i :: 1 <= i < |snaps| ==> snaps[i] == snaps[1..][i - 1];
         if rest.Some? then Some(rest.value + 1) else None
  }

  /** Map.set: the entry of the same id keeps its place, a new one goes last. */
  function Put(snaps: seq<Snap>, snap: Snap): seq<Snap> {
    var at := Find(snaps, snap.id);
    if at.None? then snaps + [snap] else snaps[at.value := snap]
  }

  predicate HasRef(elements: seq<Element>, ref: string) {
    exists element | element in elements :: element.ref == ref
  }

  /** The last stored snapshot of this generation that holds `ref`. */
  function Holder(snaps: seq<Snap>, generation: nat, ref: string): (r: Option<nat>)
    ensures r.Some? ==>
      r.value < |snaps| && snaps[r.value].generation == generation && HasRef(snaps[r.value].elements, ref)
    ensures r.Some? ==> forall i :: r.value < i < |snaps| ==>
      snaps[i].generation != generation || !HasRef(snaps[i].elements, ref)
    ensures r.None? ==> forall i :: 0 <= i < |snaps| ==>
      snaps[i].generation != generation || !HasRef(snaps[i].elements, ref)
  {
    if snaps == [] then None
    else
      var last := |snaps| - 1;
      if snaps[last].generation == generation && HasRef(snaps[last].elements, ref) then Some(last)
      else Holder(snaps[..last], generation, ref)
  }

  ghost predicate IsFirstWithRef(elements: seq<Element>, ref: string, first: Element) {
    exists k :: 0 <= k < |elements| && elements[k] == first && first.ref == ref && FirstAt(elements, ref, k)
  }

  ghost predicate FirstAt(elements: seq<Element>, ref: string, k: nat)
    requires k < |elements|
  {
    forall j | 0 <= j < k :: elements[j].ref != ref
  }

  function FirstWithRef(elements: seq<Element>, ref: string): (r: Element)
    requires HasRef(elements, ref)
    ensures IsFirstWithRef(elements, ref, r)
  {
    if elements[0].ref == ref then elements[0]
    else
      var first := FirstWithRef(elements[1..], ref);
      assert forall k | 0 <= k < |elements| - 1 :: elements[1..][k] == elements[k + 1];
      first
  }

  function Touch(snaps: seq<Snap>, i: nat, now: int): seq<Snap>
    requires i < |snaps|
  {
    snaps[i := snaps[i].(accessedAt := Some(now))]
  }

  function Outside(identity: Identity): Element -> bool {
    (e: Element) => !Matches(e.identity, identity)
  }

  function WithoutFrame(snap: Snap, identity: Identity): Snap {
    var retained := Filter(snap.elements, Outside(identity));
    if |retained| == |snap.elements| then snap else snap.(elements := retained, invalidated := true)
  }

  function MapSnaps(snaps: seq<Snap>, f: Snap -> Snap): (r: seq<Snap>)
    ensures |r| == |snaps| && forall i :: 0 <= i < |snaps| ==> r[i] == f(snaps[i])
  {
    if snaps == [] then [] else [f(snaps[0])] + MapSnaps(snaps[1..], f)
  }

  // ---- The store stays small and keeps what was used last ----

  lemma PutKeeps(snaps: seq<Snap>, snap: Snap)
    requires DistinctIds(snaps)
    ensures var r := Put(snaps, snap);
      && DistinctIds(r) && |snaps| <= |r| <= |snaps| + 1 && snap in r
      && (|r| > |snaps| ==> r == snaps + [snap])
      && (forall s | s in r :: s == snap || s in snaps)
      && (forall s | s in snaps && s.id != snap.id :: s in r)
  {
    var r := Put(snaps, snap);
    assert r[if Find(snaps, snap.id).None? then |snaps| else Find(snaps, snap.id).value] == snap;
    forall s | s in snaps && s.id != snap.id ensures s in r {
      var i :| 0 <= i < |snaps| && snaps[i] == s;
      assert r[i] == s;
    }
  }

  lemma FilterDistinct(snaps: seq<Snap>, keep: Snap -> bool)
    requires DistinctIds(snaps)
    ensures DistinctIds(Filter(snaps, keep))
  {
    FilterKeepsPairwise(snaps, keep, (x: Snap, y: Snap) => x.id != y.id);
  }

  lemma EvictOnce(put: seq<Snap>)
    requires |put| == MAX_RETAINED + 1
    ensures Evict(put) == put[..Oldest(put)] + put[Oldest(put) + 1..]
  {
    var r := put[..Oldest(put)] + put[Oldest(put) + 1..];
    assert |r| == MAX_RETAINED && Evict(r) == r;
  }

  lemma WithoutOne(put: seq<Snap>, o: nat)
    requires o < |put| && DistinctIds(put)
    ensures var r := put[..o] + put[o + 1..];
      && DistinctIds(r) && (forall t | t in r :: t in put) && (forall s | s in put && s !in r :: s == put[o])
  {
    var r := put[..o] + put[o + 1..];
    forall i | 0 <= i < |put| && i != o ensures put[i] in r {
      assert put[i] == r[if i < o then i else i - 1];
    }
  }

  lemma EvictUnfolds(snaps: seq<Snap>)
    requires |snaps| > MAX_RETAINED && DistinctIds(snaps)
    ensures var rest := snaps[..Oldest(snaps)] + snaps[Oldest(snaps) + 1..];
      Evict(snaps) == Evict(rest) && DistinctIds(rest)
  {
    WithoutOne(snaps, Oldest(snaps));
  }

  /**
   Dropping the oldest of four drops one entry, used no later than the rest and not the last one if that is newest.
   */
  lemma EvictOne(put: seq<Snap>)
    requires |put| == MAX_RETAINED + 1 && DistinctIds(put)
    requires forall s | s in put :: AccessTime(s) <= AccessTime(put[MAX_RETAINED])
    ensures var r := Evict(put);
      && DistinctIds(r) && |r| == MAX_RETAINED && put[MAX_RETAINED] in r
      && (forall t | t in r :: t in put && AccessTime(put[Oldest(put)]) <= AccessTime(t))
      && (forall s | s in put && s !in r :: s == put[Oldest(put)])
  {
    var o := Oldest(put);
    EvictOnce(put);
    WithoutOne(put, o);
    assert put[0] in put && o < MAX_RETAINED;
    assert Evict(put)[MAX_RETAINED - 1] == put[MAX_RETAINED];
  }

  /** What the store holds between pruning and evicting, when no entry was used after `now`. */
  lemma BeforeEviction(snaps: seq<Snap>, stamped: Snap, generation: nat, now: int)
    requires DistinctIds(snaps) && |snaps| <= MAX_RETAINED && stamped.accessedAt == Some(now)
    requires forall s | s in snaps :: AccessTime(s) <= now
    ensures var put := Put(Prune(snaps, generation, now), stamped);
      && DistinctIds(put) && stamped in put
      && (|put| <= MAX_RETAINED || (|put| == MAX_RETAINED + 1 && put[MAX_RETAINED] == stamped))
      && (forall s | s in put :: AccessTime(s) <= now && (s == stamped || (s in snaps && Fresh(s, generation, now))))
      && (forall s | s in snaps && Fresh(s, generation, now) && s.id != stamped.id :: s in put)
  {
    FilterDistinct(snaps, FreshIn(generation, now));
    FilterMembers(snaps, FreshIn(generation, now));
    PutKeeps(Prune(snaps, generation, now), stamped);
  }

  /**
   With a clock that does not run backwards, storing keeps at most three snapshots, among them the new one; at most one
   that had not expired is dropped, only from a store that stays full, and none that stays was used before it.
   */
  lemma StoreKeepsRecent(snaps: seq<Snap>, snap: Snap, generation: nat, now: int)
    requires DistinctIds(snaps) && |snaps| <= MAX_RETAINED
    requires forall s | s in snaps :: AccessTime(s) <= now
    ensures var r := Store(snaps, snap, generation, now);
      && DistinctIds(r) && |r| <= MAX_RETAINED && snap.(accessedAt := Some(now)) in r
      && (forall s | s in r :: s == snap.(accessedAt := Some(now)) || (s in snaps && Fresh(s, generation, now)))
      && (forall s, t | s in snaps && Fresh(s, generation, now) && s.id != snap.id && s !in r && t in r ::
        AccessTime(s) <= AccessTime(t))
      && (forall s | s in snaps && Fresh(s, generation, now) && s.id != snap.id && s !in r :: |r| == MAX_RETAINED)
      && (forall s, t | s in snaps && t in snaps && Fresh(s, generation, now) && Fresh(t, generation, now)
            && s.id != snap.id && t.id != snap.id && s !in r && t !in r :: s == t)
  {
    var stamped := snap.(accessedAt := Some(now));
    BeforeEviction(snaps, stamped, generation, now);
    var put := Put(Prune(snaps, generation, now), stamped);
    if |put| > MAX_RETAINED {
      EvictOne(put);
    }
  }
}
