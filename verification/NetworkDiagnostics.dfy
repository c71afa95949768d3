/**
 The helper object that keeps the log of network requests and the index of unfinished ones
 (packages/browser-core/src/cdp-helper.ts).
 */
module NetworkDiagnostics {
  import opened Prelude
  import opened NetworkLog

  class Request {
    const sequence: nat
    const requestId: string
    const loaderId: Option<string>
    const startedAt: real
    const url: string
    var kind: ResourceKind
    var outcome: RequestOutcome
    var response: Response
    var failureReason: Option<string>
    var durationMs: Option<int>

    constructor (e: Entry)
      ensures View() == e
    {
      sequence, requestId, loaderId, startedAt, url := e.sequence, e.requestId, e.loaderId, e.startedAt, e.url;
      kind, outcome, response := e.kind, e.outcome, e.response;
      failureReason, durationMs := e.failureReason, e.durationMs;
    }

    function View(): (e: Entry)
      reads this
      ensures e.sequence == sequence && e.requestId == requestId && e.loaderId == loaderId
    {
      Entry(sequence, requestId, loaderId, startedAt, url, kind, outcome, response, failureReason, durationMs)
    }

    method ApplyResponse(r: Response)
      modifies this`response
      ensures View() == WithResponse(old(View()), r)
    {
      response := Response(
        if r.status.Some? then r.status else response.status,
        if r.statusText.Some? then r.statusText else response.statusText,
        if r.mimeType.Some? then r.mimeType else response.mimeType);
    }

    method Respond(r: Response, kind: ResourceKind)
      modifies this
      ensures View() == Responded(old(View()), r, kind)
    {
      ApplyResponse(r);
      if response.status.Some? && response.status.value >= 400 {
        outcome := HttpError;
      }
      if this.kind.OtherKind? {
        this.kind := kind;
      }
    }

    method Load(at: Option<real>)
      modifies this
      ensures View() == Loaded(old(View()), at)
    {
      if outcome.PendingRequest? {
        outcome := Success;
      }
      Finish(at);
    }

    method Fail(at: Option<real>, reason: string)
      modifies this
      ensures View() == FailedWith(old(View()), at, reason)
    {
      outcome := Failure;
      failureReason := Some(reason);
      Finish(at);
    }

    method BeRedirected(r: Response, at: real)
      modifies this
      ensures View() == Redirected(old(View()), r, at)
    {
      ApplyResponse(r);
      outcome := Redirect;
      Finish(Some(at));
    }

    method Finish(at: Option<real>)
      modifies this`durationMs
      ensures View() == Ended(old(View()), at)
    {
      durationMs := Some(Duration(startedAt, if at.Some? then at.value else startedAt));
    }
  }

  function ViewsOf(requests: seq<Request>): (r: seq<Entry>)
    reads requests
    ensures |r| == |requests| && forall i {:trigger r[i]} | 0 <= i < |r| :: r[i] == requests[i].View()
  {
    seq(|requests|, i requires 0 <= i < |requests| reads requests => requests[i].View())
  }

  ghost function Marks(requests: map<string, Request>): map<string, nat> {
    map id | id in requests :: requests[id].sequence
  }

  ghost predicate DistinctNumbers(requests: seq<Request>) {
    forall i, j :: 0 <= i < j < |requests| ==> requests[i].sequence != requests[j].sequence
  }

  lemma ViewsAppend(requests: seq<Request>, request: Request)
    ensures ViewsOf(requests + [request]) == ViewsOf(requests) + [request.View()]
  {
  }

  lemma ViewsSlice(requests: seq<Request>, n: nat)
    requires n <= |requests|
    ensures ViewsOf(requests[n..]) == ViewsOf(requests)[n..]
  {
  }

  lemma UpdateOne(before: seq<Entry>, k: nat, f: Entry -> Entry, after: seq<Entry>)
    requires Increasing(before) && k < |before| && |after| == |before|
    requires forall i | 0 <= i < |after| :: after[i] == if i == k then f(before[k]) else before[i]
    ensures after == Update(before, before[k].sequence, f)
  {
    forall i | 0 <= i < |after| ensures after[i] == Update(before, before[k].sequence, f)[i] {
      if i != k {
        assert before[i].sequence != before[k].sequence;
      }
    }
  }

  class Diagnostics {
    var entries: seq<Request>
    var requests: map<string, Request>
    var lastSequence: nat
    var mainFrame: Option<string>

    ghost function AsLog(): Log
      reads this, entries
    {
      Log(ViewsOf(entries), Marks(requests), lastSequence, mainFrame)
    }

    /** The unfinished entry of a request, if it has one. */
    ghost function Unfinished(requestId: string): set<Request>
      reads this`requests
    {
      if requestId in requests then {requests[requestId]} else {}
    }

    /** Every unfinished request is one of the entries, the very object, under its own request id. */
    ghost predicate Valid()
      reads this, entries
    {
      Inv(AsLog()) && forall id | id in requests :: requests[id] in entries && requests[id].requestId == id
    }

    constructor ()
      ensures Valid() && AsLog() == INITIAL
    {
      entries, requests, lastSequence, mainFrame := [], map[], 0, None;
      new;
      assert AsLog() == INITIAL;
    }

    /** Changing one entry object changes exactly the entry of its number. */
    lemma OneChanged(before: seq<Entry>, request: Request, f: Entry -> Entry)
      requires Increasing(before) && |before| == |entries| && request in entries
      requires forall i | 0 <= i < |entries| :: before[i].sequence == entries[i].sequence
      requires forall i | 0 <= i < |entries| ::
        entries[i].View() == if entries[i] == request then f(before[i]) else before[i]
      ensures ViewsOf(entries) == Update(before, request.sequence, f)
    {
      var k :| 0 <= k < |entries| && entries[k] == request;
      forall i | 0 <= i < |entries| && i != k ensures entries[i] != request {
        assert i < k ==> before[i].sequence < before[k].sequence;
        assert k < i ==> before[k].sequence < before[i].sequence;
      }
      UpdateOne(before, k, f, ViewsOf(entries));
    }

    /** The request has ended: its mark goes, its entry stays as it is. */
    method Forget(requestId: string)
      requires Valid() && requestId in requests
      modifies this`requests
      ensures Valid() && AsLog() == old(AsLog()).(live := old(AsLog()).live - {requestId})
    {
      UnmarkKeepsInv(AsLog(), requestId);
      assert Marks(requests - {requestId}) == Marks(requests) - {requestId};
      requests := requests - {requestId};
    }

    method ResponseReceived(requestId: string, answer: Response, newKind: ResourceKind)
      requires Valid()
      modifies Unfinished(requestId)
      ensures Valid()
      ensures AsLog() == Step(old(AsLog()), NetworkLog.ResponseReceived(requestId, answer, newKind))
    {
      if requestId in requests {
        ghost var before, log := ViewsOf(entries), AsLog();
        var entry := requests[requestId];
        entry.Respond(answer, newKind);
        OneChanged(before, entry, ByResponse(answer, newKind));
        SettleKeepsInv(log, requestId, ByResponse(answer, newKind), false);
      }
    }

    method LoadingFinished(requestId: string, at: Option<real>)
      requires Valid()
      modifies this`requests, Unfinished(requestId)
      ensures Valid() && AsLog() == Step(old(AsLog()), NetworkLog.LoadingFinished(requestId, at))
    {
      if requestId in requests {
        ghost var before, log := ViewsOf(entries), AsLog();
        var entry := requests[requestId];
        entry.Load(at);
        OneChanged(before, entry, ByEnd(at));
        SettleKeepsInv(log, requestId, ByEnd(at), false);
        Forget(requestId);
      }
    }

    method LoadingFailed(requestId: string, at: Option<real>, reason: string)
      requires Valid()
      modifies this`requests, Unfinished(requestId)
      ensures Valid() && AsLog() == Step(old(AsLog()), NetworkLog.LoadingFailed(requestId, at, reason))
    {
      if requestId in requests {
        ghost var before, log := ViewsOf(entries), AsLog();
        var entry := requests[requestId];
        entry.Fail(at, reason);
        OneChanged(before, entry, ByFailure(at, reason));
        SettleKeepsInv(log, requestId, ByFailure(at, reason), false);
        Forget(requestId);
      }
    }

    /** A redirect ends the unfinished entry of the request. */
    method EndByRedirect(requestId: string, redirect: Response, at: real)
      requires Valid()
      modifies this`requests, Unfinished(requestId)
      ensures Valid() && AsLog() == Settle(old(AsLog()), requestId, ByRedirect(redirect, at), true)
    {
      if requestId in requests {
        ghost var before, log := ViewsOf(entries), AsLog();
        var entry := requests[requestId];
        entry.BeRedirected(redirect, at);
        OneChanged(before, entry, ByRedirect(redirect, at));
        SettleKeepsInv(log, requestId, ByRedirect(redirect, at), false);
        Forget(requestId);
      }
    }

    method RequestWillBeSent(sent: Event)
      requires Valid() && sent.RequestWillBeSent?
      modifies this, Unfinished(sent.requestId)
      ensures Valid() && AsLog() == Step(old(AsLog()), sent)
    {
      if sent.requestId == "" || sent.frameId.None? || sent.frameId != mainFrame {
        return;
      }
      FollowRequest(sent);
    }

    method FollowRequest(sent: Event)
      requires Valid() && sent.RequestWillBeSent?
      modifies this, Unfinished(sent.requestId)
      ensures Valid() && AsLog() == Requested(old(AsLog()), sent)
    {
      if sent.redirect.Some? {
        EndByRedirect(sent.requestId, sent.redirect.value, sent.startedAt);
      }
      ghost var log := AsLog();
      assert log == AfterRedirect(old(AsLog()), sent);
      assert Requested(old(AsLog()), sent) ==
        Append(log.(lastSequence := log.lastSequence + 1), NewEntry(log.lastSequence + 1, sent));
      StartRequest(sent);
    }

    method StartRequest(sent: Event)
      requires Valid() && sent.RequestWillBeSent?
      modifies this
      ensures Valid()
      ensures var log := old(AsLog());
        AsLog() == Append(log.(lastSequence := log.lastSequence + 1), NewEntry(log.lastSequence + 1, sent))
    {
      var request := new Request(NewEntry(lastSequence + 1, sent));
      AppendRequest(request);
    }

    method AppendRequest(request: Request)
      requires Valid() && request !in entries && request.sequence == lastSequence + 1
      modifies this
      ensures Valid()
      ensures AsLog() == Append(old(AsLog()).(lastSequence := request.sequence), request.View())
    {
      AppendKeepsInv(AsLog(), request.View());
      AddLast(request);
      Trim();
    }

    method Trim()
      requires DistinctNumbers(entries)
      requires forall id | id in requests :: requests[id] in entries && requests[id].requestId == id
      modifies this`entries, this`requests
      ensures AsLog() == Trimmed(old(AsLog()))
      ensures forall id | id in requests :: requests[id] in entries && requests[id].requestId == id
    {
      if |entries| > MAX_ENTRIES {
        DropFirst(|entries| - MAX_ENTRIES);
      }
    }

    method AddLast(request: Request)
      requires Valid() && request !in entries && request.sequence == lastSequence + 1
      modifies this
      ensures AsLog() == Added(old(AsLog()).(lastSequence := request.sequence), request.View())
      ensures forall id | id in requests :: requests[id] in entries && requests[id].requestId == id
      ensures DistinctNumbers(entries)
    {
      AddedDistinct(entries, request);
      ViewsAppend(entries, request);
      assert Marks(requests[request.requestId := request]) == Marks(requests)[request.requestId := request.sequence];
      assert request in entries + [request];
      lastSequence := request.sequence;
      requests := requests[request.requestId := request];
      entries := entries + [request];
    }

    lemma AddedDistinct(entries: seq<Request>, request: Request)
      requires Increasing(ViewsOf(entries))
      requires forall i | 0 <= i < |ViewsOf(entries)| :: ViewsOf(entries)[i].sequence < request.sequence
      ensures DistinctNumbers(entries + [request])
    {
      var views := ViewsOf(entries);
      forall i, j | 0 <= i < j < |entries| ensures entries[i].sequence != entries[j].sequence {
        assert views[i].sequence < views[j].sequence;
      }
      forall i | 0 <= i < |entries| ensures entries[i].sequence != request.sequence {
        assert views[i].sequence < request.sequence;
      }
    }

    /** The bound is kept by forgetting the oldest entries, and their index marks unless the id has moved on. */
    method DropFirst(n: nat)
      requires n <= |entries| && DistinctNumbers(entries)
      requires forall id | id in requests :: requests[id] in entries && requests[id].requestId == id
      modifies this`entries, this`requests
      ensures AsLog() == DropOldest(old(AsLog()), n)
      ensures forall id | id in requests :: requests[id] in entries && requests[id].requestId == id
    {
      ghost var all, was := entries, requests;
      ViewsSlice(entries, n);
      var removed := entries[..n];
      entries := entries[n..];
      Unmark(removed);
      DroppedMarks(all, n, was, requests);
    }

    method Unmark(removed: seq<Request>)
      requires forall id | id in requests :: requests[id].requestId == id
      modifies this`requests
      ensures forall id | id in requests :: id in old(requests) && requests[id] == old(requests)[id]
      ensures forall id | id in old(requests) :: id in requests <==> old(requests)[id] !in removed
    {
      for i := 0 to |removed|
        invariant forall id | id in requests :: id in old(requests) && requests[id] == old(requests)[id]
        invariant forall id | id in old(requests) :: id in requests <==> old(requests)[id] !in removed[..i]
      {
        var candidate := removed[i];
        if candidate.requestId in requests && requests[candidate.requestId] == candidate {
          requests := requests - {candidate.requestId};
        }
        assert removed[..i + 1] == removed[..i] + [candidate];
      }
      assert removed[..|removed|] == removed;
    }

    lemma HoldsFirst(all: seq<Request>, n: nat, k: nat)
      requires n <= |all| && k < |all| && DistinctNumbers(all)
      ensures Holds(ViewsOf(all)[..n], all[k].sequence) <==> k < n
    {
      var views := ViewsOf(all)[..n];
      if k < n {
        assert views[k] in views && views[k].sequence == all[k].sequence;
      }
      if Holds(views, all[k].sequence) {
        var e :| e in views && e.sequence == all[k].sequence;
        var j :| 0 <= j < n && views[j] == e;
        assert all[j].sequence == all[k].sequence;
        assert j == k;
      }
    }

    lemma DroppedMarks(all: seq<Request>, n: nat, was: map<string, Request>, left: map<string, Request>)
      requires n <= |all| && DistinctNumbers(all) && forall id | id in was :: was[id] in all
      requires forall id | id in left :: id in was && left[id] == was[id]
      requires forall id | id in was :: id in left <==> was[id] !in all[..n]
      ensures Marks(left) == map id | id in Marks(was) && !Holds(ViewsOf(all)[..n], Marks(was)[id]) :: Marks(was)[id]
      ensures forall id | id in left :: left[id] in all[n..]
    {
      forall id | id in was
        ensures id in left <==> !Holds(ViewsOf(all)[..n], was[id].sequence)
        ensures id in left ==> was[id] in all[n..]
      {
        var k :| 0 <= k < |all| && all[k] == was[id];
        HoldsFirst(all, n, k);
        DroppedAt(all, n, k);
      }
    }

    lemma DroppedAt(all: seq<Request>, n: nat, k: nat)
      requires n <= |all| && k < |all| && DistinctNumbers(all)
      ensures k < n <==> all[k] in all[..n]
      ensures k >= n ==> all[k] in all[n..]
    {
      if k < n {
        assert all[k] == all[..n][k];
      } else {
        assert all[k] == all[n..][k - n];
      }
    }

    /** A navigation of the main document keeps only what its own loader has requested. */
    method ResetForNavigation(frameId: Option<string>, loaderId: Option<string>)
      requires Valid()
      modifies this
      ensures Valid()
      ensures AsLog() == Step(old(AsLog()), MainFrameNavigated(frameId, loaderId))
    {
      ghost var log := AsLog();
      StepKeepsInv(log, MainFrameNavigated(frameId, loaderId));
      if loaderId.None? || loaderId.value == "" {
        Clear();
      } else {
        KeepLoader(loaderId);
      }
      SetMainFrame(frameId);
      assert AsLog() == Step(log, MainFrameNavigated(frameId, loaderId));
    }

    method SetMainFrame(frameId: Option<string>)
      modifies this`mainFrame
      ensures AsLog() == old(AsLog()).(mainFrame := frameId)
    {
      mainFrame := frameId;
    }

    method KeepLoader(loaderId: Option<string>)
      requires Valid()
      modifies this`entries, this`requests
      ensures var log := old(AsLog());
        AsLog() == log.(entries := Filter(log.entries, FromLoader(loaderId)),
                        live := map id | id in log.live &&
                          Holds(Filter(log.entries, FromLoader(loaderId)), log.live[id]) :: log.live[id])
      ensures forall id | id in requests :: requests[id] in entries && requests[id].requestId == id
    {
      var kept := OfLoader(entries, loaderId);
      KeptMarks(entries, kept, requests, loaderId);
      requests := map id | id in requests && requests[id].loaderId == loaderId :: requests[id];
      entries := kept;
    }

    method Clear()
      modifies this`entries, this`requests
      ensures entries == [] && requests == map[]
      ensures AsLog() == Cleared(old(AsLog()))
    {
      entries, requests := [], map[];
      assert Marks(requests) == map[];
    }

    lemma HoldsKept(all: seq<Request>, kept: seq<Request>, loaderId: Option<string>, k: nat)
      requires k < |all| && Increasing(ViewsOf(all))
      requires ViewsOf(kept) == Filter(ViewsOf(all), FromLoader(loaderId))
      ensures Holds(ViewsOf(kept), all[k].sequence) <==> all[k].loaderId == loaderId
    {
      var views := ViewsOf(all);
      FilterMembers(views, FromLoader(loaderId));
      if all[k].loaderId == loaderId {
        assert views[k] in ViewsOf(kept);
      }
      if Holds(ViewsOf(kept), all[k].sequence) {
        var e :| e in ViewsOf(kept) && e.sequence == all[k].sequence;
        var j :| 0 <= j < |all| && views[j] == e;
        assert views[j].sequence == views[k].sequence;
        assert j == k;
      }
    }

    lemma KeptMarks(all: seq<Request>, kept: seq<Request>, requests: map<string, Request>, loaderId: Option<string>)
      requires Increasing(ViewsOf(all)) && forall id | id in requests :: requests[id] in all
      requires ViewsOf(kept) == Filter(ViewsOf(all), FromLoader(loaderId))
      requires forall r | r in all :: r in kept <==> r.loaderId == loaderId
      ensures var left := map id | id in requests && requests[id].loaderId == loaderId :: requests[id];
        && Marks(left) ==
          (map id | id in Marks(requests) && Holds(ViewsOf(kept), Marks(requests)[id]) :: Marks(requests)[id])
        && forall id | id in left :: left[id] in kept
    {
      forall id | id in requests
        ensures requests[id].loaderId == loaderId <==> Holds(ViewsOf(kept), requests[id].sequence)
      {
        var k :| 0 <= k < |all| && all[k] == requests[id];
        HoldsKept(all, kept, loaderId, k);
      }
    }

    method OfLoader(all: seq<Request>, loaderId: Option<string>) returns (kept: seq<Request>)
      ensures ViewsOf(kept) == Filter(ViewsOf(all), FromLoader(loaderId))
      ensures forall r | r in all :: r in kept <==> r.loaderId == loaderId
    {
      ghost var views, keep := ViewsOf(all), FromLoader(loaderId);
      kept := [];
      var i := 0;
      while i < |all|
        invariant 0 <= i <= |all| && ViewsOf(kept) == Filter(views[..i], keep)
        invariant forall j | 0 <= j < i :: all[j].loaderId == loaderId ==> all[j] in kept
        invariant forall r | r in kept :: r.loaderId == loaderId
      {
        FilterSnoc(views, i, keep);
        ViewsAppend(kept, all[i]);
        if all[i].loaderId == loaderId {
          kept := kept + [all[i]];
        }
        i := i + 1;
      }
      assert views[..i] == views;
    }

    /** The listener goes away: unfinished requests can no longer be followed, what was seen stays. */
    method RemoveListener()
      requires Valid()
      modifies this`requests, this`mainFrame
      ensures Valid() && AsLog() == Step(old(AsLog()), ListenerRemoved)
    {
      StepKeepsInv(AsLog(), ListenerRemoved);
      mainFrame, requests := None, map[];
      assert Marks(requests) == map[];
    }

    /** The frame tree names the main frame. */
    method KnowMainFrame(id: string)
      requires Valid()
      modifies this`mainFrame
      ensures Valid() && AsLog() == Step(old(AsLog()), MainFrameKnown(id))
    {
      StepKeepsInv(AsLog(), MainFrameKnown(id));
      SetMainFrame(Some(id));
    }

    /** A detached main frame takes its entries along; other frames have none. */
    method DetachFrame(id: string)
      requires Valid()
      modifies this
      ensures Valid() && AsLog() == Step(old(AsLog()), FrameDetached(id))
    {
      StepKeepsInv(AsLog(), FrameDetached(id));
      if mainFrame == Some(id) {
        Clear();
        SetMainFrame(None);
      }
    }

    /** Detaching, reattaching and recovering discard the entries and keep the sequence. */
    method ResetConnection()
      requires Valid()
      modifies this
      ensures Valid() && AsLog() == Step(old(AsLog()), ConnectionReset)
    {
      StepKeepsInv(AsLog(), ConnectionReset);
      Clear();
      SetMainFrame(None);
    }

    /** A new transport starts a new sequence. */
    method ReplaceTransport()
      requires Valid()
      modifies this
      ensures Valid() && AsLog() == Step(old(AsLog()), TransportReplaced)
    {
      StepKeepsInv(AsLog(), TransportReplaced);
      Clear();
      SetMainFrame(None);
      lastSequence := 0;
    }
  }
}
