/** The session object whose fields hold the retained observations (packages/browser-core/src/browser-state.ts). */
module BrowserSession {
  import opened Prelude
  import opened SnapshotStore
  import SnapshotAuthority

  class Snapshot {
    const id: string
    const generation: nat
    const createdAt: int
    var accessedAt: Option<int>
    var elements: seq<Element>
    var continuationInvalidated: bool
    ghost const begunAt: nat
    ghost const scanned: seq<Element>

    constructor (id: string, generation: nat, createdAt: int, elements: seq<Element>, ghost begunAt: nat,
                 ghost scanned: seq<Element>)
      ensures View() == Snap(id, generation, createdAt, None, elements, false, begunAt, scanned)
    {
      this.id, this.generation, this.createdAt, this.elements := id, generation, createdAt, elements;
      accessedAt, continuationInvalidated := None, false;
      this.begunAt, this.scanned := begunAt, scanned;
    }

    ghost function View(): Snap
      reads this
    {
      Snap(id, generation, createdAt, accessedAt, elements, continuationInvalidated, begunAt, scanned)
    }

    method AccessTime() returns (time: int)
      ensures time == SnapshotStore.AccessTime(View())
    {
      time := if accessedAt.Some? then accessedAt.value else createdAt;
    }

    /** Drops the elements the identity matches; once one is gone the list may not be paged through any further. */
    method Revoke(identity: Identity)
      modifies this
      ensures View() == WithoutFrame(old(View()), identity)
    {
      var retained := Filter(elements, Outside(identity));
      if |retained| != |elements| {
        elements := retained;
        continuationInvalidated := true;
      }
    }

    method CloseContinuation()
      modifies this`continuationInvalidated
      ensures View() == old(View()).(invalidated := true)
    {
      continuationInvalidated := true;
    }
  }

  ghost function ViewsOf(snapshots: seq<Snapshot>): (r: seq<Snap>)
    reads snapshots
    ensures |r| == |snapshots| && forall i | 0 <= i < |r| :: r[i] == snapshots[i].View()
  {
    seq(|snapshots|, i requires 0 <= i < |snapshots| reads snapshots => snapshots[i].View())
  }

  lemma ViewsAppend(snapshots: seq<Snapshot>, snapshot: Snapshot)
    ensures ViewsOf(snapshots + [snapshot]) == ViewsOf(snapshots) + [snapshot.View()]
  {
  }

  lemma ViewsWithout(snapshots: seq<Snapshot>, i: nat)
    requires i < |snapshots|
    ensures ViewsOf(snapshots[..i] + snapshots[i + 1..]) == ViewsOf(snapshots)[..i] + ViewsOf(snapshots)[i + 1..]
  {
  }

  lemma MembersWithout(snapshots: seq<Snapshot>, i: nat)
    requires i < |snapshots|
    ensures forall s | s in snapshots[..i] + snapshots[i + 1..] :: s in snapshots
  {
  }

  lemma UniqueById(snapshots: seq<Snapshot>)
    requires DistinctIds(ViewsOf(snapshots))
    ensures forall s, t | s in snapshots && t in snapshots && s.id == t.id :: s == t
  {
    forall s, t | s in snapshots && t in snapshots && s.id == t.id ensures s == t {
      var i :| 0 <= i < |snapshots| && snapshots[i] == s;
      var j :| 0 <= j < |snapshots| && snapshots[j] == t;
      assert ViewsOf(snapshots)[i].id == ViewsOf(snapshots)[j].id;
    }
  }

  lemma {:induction false} FindFirst(snaps: seq<Snap>, id: string, i: nat)
    requires i <= |snaps| && forall j | 0 <= j < i :: snaps[j].id != id
    requires i < |snaps| ==> snaps[i].id == id
    ensures Find(snaps, id) == if i < |snaps| then Some(i) else None
  {
    if i > 0 {
      FindFirst(snaps[1..], id, i - 1);
    }
  }

  method IndexOf(snapshots: seq<Snapshot>, id: string) returns (i: nat)
    ensures i <= |snapshots|
    ensures Find(ViewsOf(snapshots), id) == if i < |snapshots| then Some(i) else None
  {
    i := 0;
    while i < |snapshots|
      invariant 0 <= i <= |snapshots|
      invariant forall j | 0 <= j < i :: snapshots[j].id != id
    {
      if snapshots[i].id == id {
        FindFirst(ViewsOf(snapshots), id, i);
        return;
      }
      i := i + 1;
    }
    FindFirst(ViewsOf(snapshots), id, i);
  }

  lemma OldestStep(views: seq<Snap>, i: nat)
    requires 0 < i < |views|
    ensures var o := Oldest(views[..i]);
      o < i &&
        Oldest(views[..i + 1]) == if SnapshotStore.AccessTime(views[i]) < SnapshotStore.AccessTime(views[o])
          then i else o
  {
    assert views[..i + 1][..i] == views[..i];
  }

  /** The first snapshot of minimal access time (the reduce over Map.values()). */
  method OldestIndex(snapshots: seq<Snapshot>) returns (oldest: nat)
    requires snapshots != []
    ensures oldest == Oldest(ViewsOf(snapshots))
  {
    ghost var views := ViewsOf(snapshots);
    oldest := 0;
    var i := 1;
    while i < |snapshots|
      invariant 1 <= i <= |snapshots|
      invariant oldest < i && oldest == Oldest(views[..i])
    {
      var time := snapshots[i].AccessTime();
      var least := snapshots[oldest].AccessTime();
      assert time == SnapshotStore.AccessTime(views[i]) && least == SnapshotStore.AccessTime(views[oldest]);
      OldestStep(views, i);
      if time < least {
        oldest := i;
      }
      i := i + 1;
    }
    assert views[..i] == views;
  }

  method DropOldest(snapshots: seq<Snapshot>) returns (kept: seq<Snapshot>)
    requires DistinctIds(ViewsOf(snapshots)) && |snapshots| > MAX_RETAINED
    ensures DistinctIds(ViewsOf(kept)) && |kept| == |snapshots| - 1
    ensures Evict(ViewsOf(kept)) == Evict(ViewsOf(snapshots))
    ensures forall s | s in kept :: s in snapshots
  {
    var oldest := OldestIndex(snapshots);
    EvictUnfolds(ViewsOf(snapshots));
    ViewsWithout(snapshots, oldest);
    MembersWithout(snapshots, oldest);
    kept := snapshots[..oldest] + snapshots[oldest + 1..];
  }

  method EvictLeastRecentlyUsed(snapshots: seq<Snapshot>) returns (kept: seq<Snapshot>)
    requires DistinctIds(ViewsOf(snapshots))
    ensures DistinctIds(ViewsOf(kept)) && ViewsOf(kept) == Evict(ViewsOf(snapshots))
    ensures forall s | s in kept :: s in snapshots
  {
    kept := snapshots;
    while |kept| > MAX_RETAINED
      invariant DistinctIds(ViewsOf(kept)) && Evict(ViewsOf(kept)) == Evict(ViewsOf(snapshots))
      invariant forall s | s in kept :: s in snapshots
    {
      kept := DropOldest(kept);
    }
  }

  method PruneStale(snapshots: seq<Snapshot>, generation: nat, now: int) returns (kept: seq<Snapshot>)
    requires DistinctIds(ViewsOf(snapshots))
    ensures DistinctIds(ViewsOf(kept)) && ViewsOf(kept) == SnapshotStore.Prune(ViewsOf(snapshots), generation, now)
    ensures forall s | s in kept :: s in snapshots
  {
    ghost var views, keep := ViewsOf(snapshots), FreshIn(generation, now);
    kept := [];
    var i := 0;
    while i < |snapshots|
      invariant 0 <= i <= |snapshots|
      invariant ViewsOf(kept) == Filter(views[..i], keep)
      invariant forall s | s in kept :: s in snapshots
    {
      var time := snapshots[i].AccessTime();
      FilterSnoc(views, i, keep);
      ViewsAppend(kept, snapshots[i]);
      if snapshots[i].generation == generation && time >= now - TTL_MS {
        kept := kept + [snapshots[i]];
      }
      i := i + 1;
    }
    assert views[..i] == views;
    FilterDistinct(views, keep);
  }

  /** The stored snapshots are searched from the last to the first. */
  method HolderIndex(snapshots: seq<Snapshot>, generation: nat, ref: string) returns (i: nat)
    ensures i <= |snapshots|
    ensures Holder(ViewsOf(snapshots), generation, ref) == if i < |snapshots| then Some(i) else None
  {
    ghost var views := ViewsOf(snapshots);
    i := |snapshots|;
    assert views[..i] == views;
    while i > 0
      invariant 0 <= i <= |snapshots|
      invariant Holder(views, generation, ref) == Holder(views[..i], generation, ref)
    {
      assert views[..i][..i - 1] == views[..i - 1];
      i := i - 1;
      if snapshots[i].generation == generation && HasRef(snapshots[i].elements, ref) {
        return;
      }
    }
    i := |snapshots|;
  }

  class Session {
    var generation: nat
    var frameEpochs: Option<map<string, nat>>
    var snapshots: seq<Snapshot>
    var latest: Snapshot?

    ghost predicate Valid()
      reads this`snapshots, this`latest, snapshots
    {
      && DistinctIds(Views())
      && (latest != null ==> latest in snapshots)
      && (latest == null <==> snapshots == [])
    }

    ghost function Views(): seq<Snap>
      reads this`snapshots, snapshots
    {
      ViewsOf(snapshots)
    }

    ghost function LatestId(): Option<string>
      reads this`latest
    {
      if latest == null then None else Some(latest.id)
    }

    constructor ()
      ensures Valid() && fresh(this) && generation == 0 && frameEpochs == None && Views() == [] && LatestId() == None
    {
      generation, frameEpochs, snapshots, latest := 0, None, [], null;
    }

    /** Keeps the latest observation while it is stored, else takes the one stored last. */
    method RefreshLatest()
      requires DistinctIds(Views())
      requires latest != null ==> forall s | s in snapshots && s.id == latest.id :: s == latest
      modifies this`latest
      ensures Valid() && Views() == old(Views())
      ensures LatestId() == Latest(old(LatestId()), Views())
    {
      if latest != null {
        var i := 0;
        while i < |snapshots|
          invariant 0 <= i <= |snapshots|
          invariant forall j | 0 <= j < i :: snapshots[j].id != latest.id
          modifies {}
        {
          if snapshots[i].id == latest.id {
            assert Views()[i] in Views();
            return;
          }
          i := i + 1;
        }
        assert latest.id !in Ids(Views());
      }
      latest := if snapshots == [] then null else snapshots[|snapshots| - 1];
    }

    method Prune(now: int)
      requires Valid()
      modifies this`snapshots, this`latest
      ensures Valid()
      ensures Views() == SnapshotStore.Prune(old(Views()), generation, now)
      ensures LatestId() == Latest(old(LatestId()), Views())
      ensures forall s | s in snapshots :: s in old(snapshots)
    {
      UniqueById(snapshots);
      snapshots := PruneStale(snapshots, generation, now);
      RefreshLatest();
    }

    /** What the transition system of SnapshotAuthority sees of this object. */
    ghost function AsState(inspections: map<nat, SnapshotAuthority.Inspection>, steps: nat): SnapshotAuthority.State
      reads this`generation, this`frameEpochs, this`snapshots, this`latest, snapshots
    {
      SnapshotAuthority.State(generation, frameEpochs, Views(), LatestId(), inspections, steps)
    }

    /**
     The end of an inspect: without a navigation in between, the elements whose frames are still
     current become a new observation. Exactly the commit step of the transition system.
     */
    method CommitInspect(id: string, now: int, token: nat, inspections: map<nat, SnapshotAuthority.Inspection>,
                         ghost steps: nat)
      returns (stale: bool)
      requires Valid() && token in inspections && inspections[token].narrowedAt.Some?
      modifies this`snapshots, this`latest
      ensures Valid() && stale == (inspections[token].generation != generation)
      ensures AsState(inspections - {token}, steps) ==
        SnapshotAuthority.Committed(old(AsState(inspections, steps)), token, id, now)
    {
      var ins := inspections[token];
      if generation != ins.generation {
        return true;
      }
      var elements := Filter(ins.pending, SnapshotAuthority.CurrentIn(frameEpochs, ins.baseline));
      var snapshot := new Snapshot(id, ins.generation, now, elements, token, ins.scanned);
      StoreBrowserSnapshot(snapshot, now);
      return false;
    }

    /** Stores a new observation, which becomes the latest, and drops the least recently used beyond three. */
    method StoreBrowserSnapshot(snapshot: Snapshot, now: int)
      requires Valid() && snapshot !in snapshots
      modifies this`snapshots, this`latest, snapshot
      ensures Valid()
      ensures Views() == Store(old(Views()), old(snapshot.View()), generation, now)
      ensures LatestId() == Latest(Some(snapshot.id), Views())
    {
      Prune(now);
      StampLatest(snapshot, now);
      AddLatest(snapshot);
    }

    method AddLatest(snapshot: Snapshot)
      requires DistinctIds(Views()) && snapshot !in snapshots && latest == snapshot
      modifies this`snapshots, this`latest
      ensures Valid()
      ensures Views() == Evict(Put(old(Views()), snapshot.View()))
      ensures LatestId() == Latest(Some(snapshot.id), Views())
    {
      PutSnapshot(snapshot);
      UniqueById(snapshots);
      snapshots := EvictLeastRecentlyUsed(snapshots);
      RefreshLatest();
    }

    method StampLatest(snapshot: Snapshot, now: int)
      requires snapshot !in snapshots
      modifies this`latest, snapshot`accessedAt
      ensures Views() == old(Views()) && snapshot.View() == old(snapshot.View()).(accessedAt := Some(now))
      ensures latest == snapshot
    {
      snapshot.accessedAt := Some(now);
      latest := snapshot;
    }

    method PutSnapshot(snapshot: Snapshot)
      requires DistinctIds(Views()) && snapshot !in snapshots
      modifies this`snapshots
      ensures DistinctIds(Views()) && Views() == Put(old(Views()), snapshot.View())
      ensures snapshot in snapshots
    {
      PutKeeps(Views(), snapshot.View());
      var at := IndexOf(snapshots, snapshot.id);
      if at < |snapshots| {
        ghost var before := Views();
        snapshots := snapshots[at := snapshot];
        assert snapshots[at] == snapshot;
        assert Views() == before[at := snapshot.View()];
      } else {
        ViewsAppend(snapshots, snapshot);
        snapshots := snapshots + [snapshot];
      }
    }

    /** The retained snapshot a continuation names, unless it is outdated; finding it counts as a use. */
    method GetBrowserSnapshot(id: string, now: int) returns (found: Snapshot?)
      requires Valid()
      modifies this`snapshots, this`latest, snapshots
      ensures Valid()
      ensures var before := SnapshotStore.Prune(old(Views()), generation, now);
        var at := Find(before, id);
        if at.Some? && before[at.value].generation == generation && !before[at.value].invalidated
        then found != null && found in snapshots && found.id == id && Views() == Touch(before, at.value, now)
        else found == null && Views() == before
      ensures LatestId() == Latest(old(LatestId()), SnapshotStore.Prune(old(Views()), generation, now))
    {
      Prune(now);
      ghost var before := Views();
      var at := IndexOf(snapshots, id);
      if at == |snapshots| || snapshots[at].generation != generation || snapshots[at].continuationInvalidated {
        return null;
      }
      found := snapshots[at];
      assert found in snapshots;
      TouchSnapshot(found, at, now);
    }

    method TouchSnapshot(snapshot: Snapshot, ghost at: nat, now: int)
      requires Valid() && at < |snapshots| && snapshots[at] == snapshot
      modifies snapshot`accessedAt
      ensures Valid() && Views() == Touch(old(Views()), at, now)
    {
      ghost var before := Views();
      snapshot.accessedAt := Some(now);
      forall i | 0 <= i < |before| && i != at ensures Views()[i] == before[i] {
        assert before[i].id != before[at].id;
      }
    }

    /** Searches the stored snapshots from the last to the first. */
    method ResolveSnapshotElement(ref: string, now: int) returns (found: Snapshot?, element: Option<Element>)
      requires Valid()
      modifies this`snapshots, this`latest, snapshots
      ensures Valid()
      ensures var before := SnapshotStore.Prune(old(Views()), generation, now);
        var at := Holder(before, generation, ref);
        if at.Some?
        then found != null && found in snapshots && element == Some(FirstWithRef(before[at.value].elements, ref)) &&
          Views() == Touch(before, at.value, now)
        else found == null && element == None && Views() == before
      ensures LatestId() == Latest(old(LatestId()), SnapshotStore.Prune(old(Views()), generation, now))
    {
      Prune(now);
      ghost var before := Views();
      var at := HolderIndex(snapshots, generation, ref);
      if at == |snapshots| {
        return null, None;
      }
      found := snapshots[at];
      assert found in snapshots;
      element := Some(FirstWithRef(found.elements, ref));
      TouchSnapshot(found, at, now);
    }

    /** A navigation of the main document, an interruption, or a page the provider moved. */
    method Invalidate()
      modifies this
      ensures Valid() && Views() == [] && LatestId() == None
      ensures generation == old(generation) + 1
      ensures frameEpochs == if old(frameEpochs).None? then None else Some(map[])
    {
      generation := generation + 1;
      frameEpochs := if frameEpochs.None? then None else Some(map[]);
      snapshots, latest := [], null;
    }

    /** Revokes the elements of a replaced child document and counts the event under each of its keys. */
    method InvalidateFrame(identity: Identity)
      requires Valid()
      modifies this`frameEpochs, snapshots
      ensures Valid()
      ensures Keys(identity) == [] ==> frameEpochs == old(frameEpochs) && Views() == old(Views())
      ensures Keys(identity) != [] ==>
        && frameEpochs ==
          Some(SnapshotAuthority.Bump(if old(frameEpochs).None? then map[] else old(frameEpochs).value, Keys(identity)))
        && Views() == MapSnaps(old(Views()), (snap: Snap) => WithoutFrame(snap, identity))
    {
      var keys := Keys(identity);
      if keys == [] {
        return;
      }
      BumpEpochs(keys);
      RevokeElements(identity);
    }

    method BumpEpochs(keys: seq<string>)
      modifies this`frameEpochs
      ensures frameEpochs ==
        Some(SnapshotAuthority.Bump(if old(frameEpochs).None? then map[] else old(frameEpochs).value, keys))
    {
      var epochs: map<string, nat> := if frameEpochs.None? then map[] else frameEpochs.value;
      ghost var start: map<string, nat> := epochs;
      var i := 0;
      while i < |keys|
        invariant 0 <= i <= |keys|
        invariant SnapshotAuthority.Bump(start, keys) == SnapshotAuthority.Bump(epochs, keys[i..])
        modifies {}
      {
        assert keys[i..][1..] == keys[i + 1..];
        epochs := epochs[keys[i] := SnapshotAuthority.EpochIn(epochs, keys[i]) + 1];
        i := i + 1;
      }
      frameEpochs := Some(epochs);
    }

    method RevokeElements(identity: Identity)
      requires Valid()
      modifies snapshots
      ensures Valid()
      ensures Views() == MapSnaps(old(Views()), (snap: Snap) => WithoutFrame(snap, identity))
    {
      ghost var before := Views();
      var j := 0;
      while j < |snapshots|
        invariant 0 <= j <= |snapshots| && DistinctIds(before) && |before| == |snapshots|
        invariant forall k | 0 <= k < |snapshots| ::
          Views()[k] == if k < j then WithoutFrame(before[k], identity) else before[k]
        modifies snapshots
      {
        var snapshot := snapshots[j];
        forall k | 0 <= k < |snapshots| && k != j ensures snapshots[k] != snapshot {
          assert before[k].id != before[j].id && before[k].id == snapshots[k].id;
        }
        snapshot.Revoke(identity);
        j := j + 1;
      }
    }

    /** After a page mutation no retained observation may be paged through any further. */
    method InvalidateObservations()
      requires Valid()
      modifies snapshots
      ensures Valid()
      ensures Views() == MapSnaps(old(Views()), (snap: Snap) => snap.(invalidated := true))
    {
      ghost var before := Views();
      var j := 0;
      while j < |snapshots|
        invariant 0 <= j <= |snapshots| == |before|
        invariant forall k | j <= k < |snapshots| :: snapshots[k].View() == before[k]
        invariant forall k | 0 <= k < j :: snapshots[k].View() == before[k].(invalidated := true)
        modifies snapshots
      {
        snapshots[j].CloseContinuation();
        j := j + 1;
      }
    }
  }
}
