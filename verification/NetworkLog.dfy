/**
 The bounded log of network requests as a function of the events received (packages/browser-core/src/cdp-helper.ts).
 */
module NetworkLog {
  import opened Prelude
  import opened JsonSize

  const MAX_ENTRIES := 200
  const MAX_PAGE_BYTES := 48 * 1024

  datatype ResourceKind = OtherKind | Kind(name: string)
  datatype RequestOutcome = PendingRequest | Success | HttpError | Failure | Redirect

  /** The fields of a response that are present and not empty, already cleaned and shortened. */
  datatype Response = Response(status: Option<int>, statusText: Option<string>, mimeType: Option<string>)

  datatype Entry = Entry(
    sequence: nat, requestId: string, loaderId: Option<string>, startedAt: real, url: string,
    kind: ResourceKind, outcome: RequestOutcome, response: Response,
    failureReason: Option<string>, durationMs: Option<int>)

  /** `live` gives for a request id the sequence number of its unfinished entry. */
  datatype Log = Log(entries: seq<Entry>, live: map<string, nat>, lastSequence: nat, mainFrame: Option<string>)

  const INITIAL := Log([], map[], 0, None)

  datatype Event =
    | MainFrameKnown(id: string)
    | RequestWillBeSent(requestId: string, frameId: Option<string>, loaderId: Option<string>, startedAt: real,
                        url: string, kind: ResourceKind, redirect: Option<Response>)
    | ResponseReceived(requestId: string, response: Response, kind: ResourceKind)
    | LoadingFinished(requestId: string, at: Option<real>)
    | LoadingFailed(requestId: string, at: Option<real>, reason: string)
    | MainFrameNavigated(frameId: Option<string>, loaderId: Option<string>)
    | FrameDetached(id: string)
    | ListenerRemoved
    | ConnectionReset
    | TransportReplaced

  function WithResponse(e: Entry, r: Response): Entry {
    e.(response := Response(
         if r.status.Some? then r.status else e.response.status,
         if r.statusText.Some? then r.statusText else e.response.statusText,
         if r.mimeType.Some? then r.mimeType else e.response.mimeType))
  }

  /** Milliseconds since the request started, rounded, never negative. */
  function Duration(startedAt: real, endedAt: real): (ms: int)
    ensures startedAt <= endedAt ==> -0.5 < ms as real - (endedAt - startedAt) * 1000.0 <= 0.5
    ensures endedAt <= startedAt ==> ms == 0
  {
    var ms := ((endedAt - startedAt) * 1000.0 + 0.5).Floor;
    if ms < 0 then 0 else ms
  }

  function Ended(e: Entry, at: Option<real>): Entry {
    e.(durationMs := Some(Duration(e.startedAt, if at.Some? then at.value else e.startedAt)))
  }

  function Redirected(e: Entry, r: Response, at: real): Entry {
    Ended(WithResponse(e, r).(outcome := Redirect), Some(at))
  }

  function Responded(e: Entry, r: Response, kind: ResourceKind): Entry {
    var answered := WithResponse(e, r);
    var judged := if answered.response.status.Some? && answered.response.status.value >= 400
      then answered.(outcome := HttpError) else answered;
    if judged.kind.OtherKind? then judged.(kind := kind) else judged
  }

  function Loaded(e: Entry, at: Option<real>): Entry {
    Ended(if e.outcome.PendingRequest? then e.(outcome := Success) else e, at)
  }

  function FailedWith(e: Entry, at: Option<real>, reason: string): Entry {
    Ended(e.(outcome := Failure, failureReason := Some(reason)), at)
  }

  ghost predicate KeepsIdentity(f: Entry -> Entry) {
    forall e :: f(e).sequence == e.sequence && f(e).requestId == e.requestId
  }

  function ByRedirect(r: Response, at: real): (f: Entry -> Entry)
    ensures KeepsIdentity(f)
  {
    (e: Entry) => Redirected(e, r, at)
  }

  function ByResponse(r: Response, kind: ResourceKind): (f: Entry -> Entry)
    ensures KeepsIdentity(f)
  {
    (e: Entry) => Responded(e, r, kind)
  }

  function ByEnd(at: Option<real>): (f: Entry -> Entry)
    ensures KeepsIdentity(f)
  {
    (e: Entry) => Loaded(e, at)
  }

  function ByFailure(at: Option<real>, reason: string): (f: Entry -> Entry)
    ensures KeepsIdentity(f)
  {
    (e: Entry) => FailedWith(e, at, reason)
  }

  /** The entry numbered `sequence`, changed by `f`. */
  function Update(entries: seq<Entry>, sequence: nat, f: Entry -> Entry): (r: seq<Entry>)
    ensures |r| == |entries|
    ensures forall i | 0 <= i < |r| :: r[i] == if entries[i].sequence == sequence then f(entries[i]) else entries[i]
  {
    if entries == [] then []
    else [if entries[0].sequence == sequence then f(entries[0]) else entries[0]] + Update(entries[1..], sequence, f)
  }

  predicate Holds(entries: seq<Entry>, sequence: nat) {
    exists e | e in entries :: e.sequence == sequence
  }

  /** Adds a new entry; the oldest ones beyond the bound leave together with their live marks. */
  function Append(log: Log, e: Entry): Log {
    Trimmed(Added(log, e))
  }

  function Added(log: Log, e: Entry): Log {
    log.(entries := log.entries + [e], live := log.live[e.requestId := e.sequence])
  }

  function Trimmed(log: Log): Log {
    if |log.entries| <= MAX_ENTRIES then log else DropOldest(log, |log.entries| - MAX_ENTRIES)
  }

  function DropOldest(log: Log, n: nat): Log
    requires n <= |log.entries|
  {
    log.(entries := log.entries[n..],
         live := map id | id in log.live && !Holds(log.entries[..n], log.live[id]) :: log.live[id])
  }

  function FromLoader(loaderId: Option<string>): Entry -> bool {
    (e: Entry) => e.loaderId == loaderId
  }

  function NewEntry(sequence: nat, event: Event): Entry
    requires event.RequestWillBeSent?
  {
    Entry(sequence, event.requestId, event.loaderId, event.startedAt, event.url, event.kind, PendingRequest,
          Response(None, None, None), None, None)
  }

  function Cleared(log: Log): Log {
    log.(entries := [], live := map[])
  }

  /** A redirect ends the entry of the request so far; either way the request gets a new entry. */
  function Requested(log: Log, event: Event): Log
    requires event.RequestWillBeSent?
  {
    Append(AfterRedirect(log, event).(lastSequence := log.lastSequence + 1), NewEntry(log.lastSequence + 1, event))
  }

  function AfterRedirect(log: Log, event: Event): Log
    requires event.RequestWillBeSent?
  {
    if event.redirect.Some?
      then Settle(log, event.requestId, ByRedirect(event.redirect.value, event.startedAt), true) else log
  }

  function Step(log: Log, event: Event): Log {
    match event
    case MainFrameKnown(id) => log.(mainFrame := Some(id))
    case RequestWillBeSent(requestId, frameId, _, _, _, _, _) =>
      if requestId == "" || frameId.None? || frameId != log.mainFrame then log else Requested(log, event)
    case ResponseReceived(requestId, response, kind) => Settle(log, requestId, ByResponse(response, kind), false)
    case LoadingFinished(requestId, at) => Settle(log, requestId, ByEnd(at), true)
    case LoadingFailed(requestId, at, reason) => Settle(log, requestId, ByFailure(at, reason), true)
    case MainFrameNavigated(frameId, loaderId) =>
      var kept := if loaderId.None? || loaderId.value == "" then Cleared(log)
        else log.(entries := Filter(log.entries, FromLoader(loaderId)),
                  live := map id | id in log.live && Holds(Filter(log.entries, FromLoader(loaderId)), log.live[id]) ::
                    log.live[id]);
      kept.(mainFrame := frameId)
    case FrameDetached(id) => if log.mainFrame == Some(id) then Cleared(log).(mainFrame := None) else log
    case ListenerRemoved => log.(mainFrame := None, live := map[])
    case ConnectionReset => Cleared(log).(mainFrame := None)
    case TransportReplaced => Cleared(log).(mainFrame := None, lastSequence := 0)
  }

  function Run(trace: seq<Event>): Log {
    if trace == [] then INITIAL else Step(Run(trace[..|trace| - 1]), trace[|trace| - 1])
  }

  // ---- The invariant ----

  ghost predicate Increasing(entries: seq<Entry>) {
    forall i, j :: 0 <= i < j < |entries| ==> entries[i].sequence < entries[j].sequence
  }

  ghost predicate Inv(log: Log) {
    |log.entries| <= MAX_ENTRIES && Ordered(log) && MarksPoint(log)
  }

  ghost predicate Ordered(log: Log) {
    && Increasing(log.entries)
    && forall i | 0 <= i < |log.entries| :: log.entries[i].sequence <= log.lastSequence
  }

  ghost predicate MarksPoint(log: Log) {
    forall id | id in log.live :: Points(log, id)
  }

  ghost predicate Points(log: Log, id: string)
    requires id in log.live
  {
    exists i :: 0 <= i < |log.entries| && log.entries[i].sequence == log.live[id] && log.entries[i].requestId == id
  }

  lemma FilterIncreasing(entries: seq<Entry>, keep: Entry -> bool)
    requires Increasing(entries)
    ensures Increasing(Filter(entries, keep))
  {
    FilterKeepsPairwise(entries, keep, (x: Entry, y: Entry) => x.sequence < y.sequence);
  }

  /** Changing one entry in a way that keeps its number and request id keeps the invariant. */
  lemma UpdateKeepsInv(log: Log, sequence: nat, f: Entry -> Entry)
    requires Inv(log)
    requires KeepsIdentity(f)
    ensures Inv(log.(entries := Update(log.entries, sequence, f)))
  {
    var next := log.(entries := Update(log.entries, sequence, f));
    UpdateKeepsMarks(log, next);
    assert Ordered(next);
  }

  lemma UpdateKeepsMarks(log: Log, next: Log)
    requires MarksPoint(log) && next.live == log.live && |next.entries| == |log.entries|
    requires forall i | 0 <= i < |log.entries| ::
      next.entries[i].sequence == log.entries[i].sequence && next.entries[i].requestId == log.entries[i].requestId
    ensures MarksPoint(next)
  {
    forall id | id in next.live ensures Points(next, id) {
      assert Points(log, id);
      var i :| 0 <= i < |log.entries| && log.entries[i].sequence == log.live[id] && log.entries[i].requestId == id;
      assert next.entries[i].sequence == next.live[id];
    }
  }

  lemma AddedPoints(log: Log, e: Entry)
    requires MarksPoint(log)
    ensures MarksPoint(Added(log, e))
  {
    var full := Added(log, e);
    forall id | id in full.live ensures Points(full, id) {
      var k := |log.entries|;
      if id != e.requestId {
        assert Points(log, id);
        k :| 0 <= k < |log.entries| && log.entries[k].sequence == log.live[id] && log.entries[k].requestId == id;
      }
      assert full.entries[k].sequence == full.live[id];
    }
  }

  lemma TrimKeepsInv(log: Log)
    requires Ordered(log) && MarksPoint(log)
    ensures Inv(Trimmed(log))
  {
    if |log.entries| > MAX_ENTRIES {
      DropKeepsMarks(log, |log.entries| - MAX_ENTRIES);
    }
  }

  lemma AppendKeepsInv(log: Log, e: Entry)
    requires Inv(log) && e.sequence == log.lastSequence + 1
    ensures Inv(Append(log.(lastSequence := e.sequence), e))
  {
    var next := log.(lastSequence := e.sequence);
    assert MarksPoint(next) by {
      forall id | id in next.live ensures Points(next, id) {
        assert Points(log, id);
      }
    }
    AddedPoints(next, e);
    assert Ordered(Added(next, e));
    TrimKeepsInv(Added(next, e));
  }

  lemma DropKeepsMarks(log: Log, n: nat)
    requires MarksPoint(log) && n <= |log.entries|
    ensures MarksPoint(DropOldest(log, n))
  {
    var next := DropOldest(log, n);
    forall id | id in next.live ensures Points(next, id) {
      assert Points(log, id);
      var k :| 0 <= k < |log.entries| && log.entries[k].sequence == log.live[id] && log.entries[k].requestId == id;
      assert next.entries[k - n] == log.entries[k];
    }
  }

  lemma KeptPoints(log: Log, kept: seq<Entry>, keep: Entry -> bool, id: string)
    requires Inv(log) && kept == Filter(log.entries, keep) && id in log.live && Holds(kept, log.live[id])
    ensures exists i :: 0 <= i < |kept| && kept[i].sequence == log.live[id] && kept[i].requestId == id
  {
    FilterMembers(log.entries, keep);
    assert Points(log, id);
    var e :| e in kept && e.sequence == log.live[id];
    var i :| 0 <= i < |kept| && kept[i] == e;
    var k :| 0 <= k < |log.entries| && log.entries[k].sequence == log.live[id] && log.entries[k].requestId == id;
    var j :| 0 <= j < |log.entries| && log.entries[j] == e;
    assert j == k;
  }

  lemma NavigationKeepsInv(log: Log, keep: Entry -> bool)
    requires Inv(log)
    ensures Inv(log.(entries := Filter(log.entries, keep),
                     live := map id | id in log.live && Holds(Filter(log.entries, keep), log.live[id]) :: log.live[id]))
  {
    FilterIncreasing(log.entries, keep);
    FilterMembers(log.entries, keep);
    var kept := Filter(log.entries, keep);
    forall i | 0 <= i < |kept| ensures kept[i].sequence <= log.lastSequence { assert kept[i] in log.entries; }
    var next := log.(entries := kept, live := map id | id in log.live && Holds(kept, log.live[id]) :: log.live[id]);
    forall id | id in next.live ensures Points(next, id) {
      KeptPoints(log, kept, keep, id);
    }
  }

  /** The live entry of a request, changed; `ends` takes its mark away. */
  function Settle(log: Log, requestId: string, f: Entry -> Entry, ends: bool): Log {
    if requestId !in log.live then log
    else log.(entries := Update(log.entries, log.live[requestId], f),
              live := if ends then log.live - {requestId} else log.live)
  }

  lemma SettleKeepsInv(log: Log, requestId: string, f: Entry -> Entry, ends: bool)
    requires Inv(log)
    requires KeepsIdentity(f)
    ensures Inv(Settle(log, requestId, f, ends))
  {
    if requestId in log.live {
      UpdateKeepsInv(log, log.live[requestId], f);
    }
  }

  lemma UnmarkKeepsInv(log: Log, id: string)
    requires Inv(log)
    ensures Inv(log.(live := log.live - {id}))
  {
    var next := log.(live := log.live - {id});
    forall other | other in next.live ensures Points(next, other) {
      assert Points(log, other);
    }
  }

  lemma RequestKeepsInv(log: Log, event: Event)
    requires Inv(log) && event.RequestWillBeSent?
    ensures Inv(Requested(log, event))
  {
    var after, entry := AfterRedirect(log, event), NewEntry(log.lastSequence + 1, event);
    assert Requested(log, event) == Append(after.(lastSequence := entry.sequence), entry);
    AfterRedirectKeepsInv(log, event);
    AppendKeepsInv(after, entry);
  }

  lemma AfterRedirectKeepsInv(log: Log, event: Event)
    requires Inv(log) && event.RequestWillBeSent?
    ensures Inv(AfterRedirect(log, event)) && AfterRedirect(log, event).lastSequence == log.lastSequence
  {
    if event.redirect.Some? {
      SettleKeepsInv(log, event.requestId, ByRedirect(event.redirect.value, event.startedAt), true);
    }
  }

  lemma StepKeepsInv(log: Log, event: Event)
    requires Inv(log)
    ensures Inv(Step(log, event))
  {
    match event
    case RequestWillBeSent(requestId, frameId, loaderId, at, url, kind, redirect) =>
      RequestKeepsInv(log, event);
    case ResponseReceived(requestId, response, kind) =>
      SettleKeepsInv(log, requestId, ByResponse(response, kind), false);
    case LoadingFinished(requestId, at) =>
      SettleKeepsInv(log, requestId, ByEnd(at), true);
    case LoadingFailed(requestId, at, reason) =>
      SettleKeepsInv(log, requestId, ByFailure(at, reason), true);
    case MainFrameNavigated(frameId, loaderId) =>
      NavigationKeepsInv(log, FromLoader(loaderId));
    case _ =>
  }

  /** In every reachable state the log is bounded, in strictly increasing order, and its live marks point into it. */
  lemma {:induction false} RunKeepsInv(trace: seq<Event>)
    ensures Inv(Run(trace))
  {
    if trace != [] {
      RunKeepsInv(trace[..|trace| - 1]);
      StepKeepsInv(Run(trace[..|trace| - 1]), trace[|trace| - 1]);
    }
  }

  // ---- Finished entries never change again ----

  predicate IsLive(log: Log, sequence: nat) {
    exists id | id in log.live :: log.live[id] == sequence
  }

  /** Entry `e` is no longer live, and if the log still holds its number it holds exactly `e`. */
  ghost predicate Frozen(log: Log, e: Entry) {
    && e.sequence <= log.lastSequence && !IsLive(log, e.sequence)
    && forall x | x in log.entries && x.sequence == e.sequence :: x == e
  }

  lemma EndedIsFrozen(log: Log, e: Entry)
    requires Inv(log) && e in log.entries && !IsLive(log, e.sequence)
    ensures Frozen(log, e)
  {
    var k :| 0 <= k < |log.entries| && log.entries[k] == e;
    forall x | x in log.entries && x.sequence == e.sequence ensures x == e {
      var i :| 0 <= i < |log.entries| && log.entries[i] == x;
      assert i == k;
    }
  }

  lemma SettleKeepsFrozen(log: Log, e: Entry, requestId: string, f: Entry -> Entry, ends: bool)
    requires Frozen(log, e)
    requires KeepsIdentity(f)
    ensures Frozen(Settle(log, requestId, f, ends), e)
  {
    if requestId in log.live {
      var next := Settle(log, requestId, f, ends);
      forall x | x in next.entries && x.sequence == e.sequence ensures x == e {
        var i :| 0 <= i < |next.entries| && next.entries[i] == x;
        assert log.entries[i] in log.entries;
      }
    }
  }

  lemma AppendKeepsFrozen(log: Log, e: Entry, added: Entry)
    requires Frozen(log, e) && e.sequence < added.sequence <= log.lastSequence
    ensures Frozen(Append(log, added), e)
  {
    var next := Append(log, added);
    var drop := |log.entries| + 1 - |next.entries|;
    forall x | x in next.entries && x.sequence == e.sequence ensures x == e {
      var i :| 0 <= i < |next.entries| && next.entries[i] == x;
      assert x == (log.entries + [added])[i + drop];
      assert x in log.entries;
    }
  }

  lemma RequestKeepsFrozen(log: Log, e: Entry, event: Event)
    requires Frozen(log, e) && event.RequestWillBeSent?
    ensures Frozen(Requested(log, event), e)
  {
    if event.redirect.Some? {
      SettleKeepsFrozen(log, e, event.requestId, ByRedirect(event.redirect.value, event.startedAt), true);
    }
    AppendKeepsFrozen(AfterRedirect(log, event).(lastSequence := log.lastSequence + 1), e,
                      NewEntry(log.lastSequence + 1, event));
  }

  lemma StepKeepsFrozen(log: Log, e: Entry, event: Event)
    requires Frozen(log, e) && !event.TransportReplaced?
    ensures Frozen(Step(log, event), e)
  {
    match event
    case RequestWillBeSent(_, _, _, _, _, _, _) =>
      RequestKeepsFrozen(log, e, event);
    case ResponseReceived(requestId, response, kind) =>
      SettleKeepsFrozen(log, e, requestId, ByResponse(response, kind), false);
    case LoadingFinished(requestId, at) =>
      SettleKeepsFrozen(log, e, requestId, ByEnd(at), true);
    case LoadingFailed(requestId, at, reason) =>
      SettleKeepsFrozen(log, e, requestId, ByFailure(at, reason), true);
    case MainFrameNavigated(frameId, loaderId) =>
      FilterMembers(log.entries, FromLoader(loaderId));
    case _ =>
  }

  lemma FrozenAfter(trace: seq<Event>, event: Event, e: Entry)
    requires Frozen(Run(trace), e) && !event.TransportReplaced?
    ensures Frozen(Run(trace + [event]), e)
  {
    StepKeepsFrozen(Run(trace), e, event);
    assert (trace + [event])[..|trace|] == trace;
    assert Run(trace + [event]) == Step(Run(trace), event);
  }

  lemma {:induction false} StaysFrozen(trace: seq<Event>, more: seq<Event>, e: Entry)
    requires Frozen(Run(trace), e) && forall i | 0 <= i < |more| :: !more[i].TransportReplaced?
    ensures Frozen(Run(trace + more), e)
    decreases |more|
  {
    if more == [] {
      assert trace + more == trace;
    } else {
      var fewer, last := more[..|more| - 1], more[|more| - 1];
      StaysFrozen(trace, fewer, e);
      FrozenAfter(trace + fewer, last, e);
      assert (trace + fewer) + [last] == trace + more;
    }
  }

  /**
   An entry whose request has ended, was superseded or lost its mark never changes again and never
   becomes live again, as long as the transport is the same.
   */
  lemma EndedEntriesNeverChange(trace: seq<Event>, more: seq<Event>, e: Entry)
    requires e in Run(trace).entries && !IsLive(Run(trace), e.sequence)
    requires forall i | 0 <= i < |more| :: !more[i].TransportReplaced?
    ensures !IsLive(Run(trace + more), e.sequence)
    ensures forall x | x in Run(trace + more).entries && x.sequence == e.sequence :: x == e
  {
    RunKeepsInv(trace);
    EndedIsFrozen(Run(trace), e);
    StaysFrozen(trace, more, e);
  }

  // ---- Querying ----

  datatype StatusFilter = PendingStatus | SuccessStatus | FailedStatus | StatusClass(hundreds: int)

  predicate StatusMatches(e: Entry, filters: set<StatusFilter>) {
    || filters == {}
    || (PendingStatus in filters && e.outcome.PendingRequest?)
    || (FailedStatus in filters && e.outcome.Failure?)
    || (SuccessStatus in filters && e.outcome.Success?)
    || (e.response.status.Some? && StatusClass(e.response.status.value / 100) in filters)
  }

  /** What one filter lets through; an error status is no failure. */
  predicate Admits(filter: StatusFilter, e: Entry) {
    match filter
    case PendingStatus => e.outcome.PendingRequest?
    case SuccessStatus => e.outcome.Success?
    case FailedStatus => e.outcome.Failure?
    case StatusClass(hundreds) => e.response.status.Some? && e.response.status.value / 100 == hundreds
  }

  /** Several filters let through what any of them does, none lets everything through. */
  lemma StatusFiltersAdd(e: Entry, filters: set<StatusFilter>)
    ensures StatusMatches(e, filters) <==> filters == {} || exists f | f in filters :: Admits(f, e)
  {
    if f :| f in filters && Admits(f, e) {
      assert f.StatusClass? ==> f == StatusClass(e.response.status.value / 100);
    }
    if e.response.status.Some? && StatusClass(e.response.status.value / 100) in filters {
      assert Admits(StatusClass(e.response.status.value / 100), e);
    }
    if filters != {} && StatusMatches(e, filters) {
      assert Admits(PendingStatus, e) || Admits(FailedStatus, e) || Admits(SuccessStatus, e) ||
        StatusClass(e.response.status.value / 100) in filters;
    }
  }

  /** What a page query asks for; `after` and the limit are already brought into range. */
  datatype Query = Query(after: nat, limit: nat, status: set<StatusFilter>, kinds: set<ResourceKind>, urlPart: string)

  predicate Contains(text: string, part: string) {
    exists i | 0 <= i <= |text| :: part <= text[i..]
  }

  function Wanted(q: Query): Entry -> bool {
    (e: Entry) =>
      && e.sequence > q.after && StatusMatches(e, q.status)
      && (q.kinds == {} || e.kind in q.kinds)
      && (q.urlPart == "" || Contains(e.url, q.urlPart))
  }

  /** An entry is queried when it is newer, of a wanted status and kind, and its address holds the wanted part. */
  lemma QueriedIff(log: Log, q: Query, e: Entry)
    ensures e in Filter(log.entries, Wanted(q)) <==>
      && e in log.entries && e.sequence > q.after
      && (q.status == {} || exists f | f in q.status :: Admits(f, e)) && (q.kinds == {} || e.kind in q.kinds)
      && exists before: string, after: string :: IsAround(e.url, before, q.urlPart, after)
  {
    FilterMembers(log.entries, Wanted(q));
    StatusFiltersAdd(e, q.status);
    ContainsIff(e.url, q.urlPart);
  }

  lemma ContainsIff(text: string, part: string)
    ensures part == "" || Contains(text, part) <==>
      exists before: string, after: string :: IsAround(text, before, part, after)
  {
    if i :| 0 <= i <= |text| && part <= text[i..] {
      assert IsAround(text, text[..i], part, text[i..][|part|..]);
    }
    if before, after :| IsAround(text, before, part, after) {
      assert text == before + (part + after) && text[|before|..] == part + after;
      assert part <= text[|before|..];
    }
    if part == "" {
      assert IsAround(text, "", "", text);
    }
  }

  predicate IsAround(text: string, before: string, part: string, after: string) {
    text == before + part + after
  }

  datatype Page = Page(entries: seq<Entry>, lastSequence: nat, totalEntries: nat, truncated: bool)

  const PAGE_WRAPPER := |"{'entries':,'lastSequence':,'totalEntries':,'returnedEntries':,'truncated':}"|

  /** The bytes of a page with the last `n` of the matching entries, each of `size` bytes. */
  function PageBytes(size: Entry -> nat, matching: seq<Entry>, lastSequence: nat, n: nat): nat
    requires n <= |matching|
  {
    PAGE_WRAPPER + ArrayBytes(SuffixSizes(size, matching, n)) + Digits(lastSequence) + Digits(|matching|) + Digits(n) +
    (if n < |matching| then |"true"| else |"false"|)
  }

  function SuffixSizes(size: Entry -> nat, matching: seq<Entry>, n: nat): (r: seq<nat>)
    requires n <= |matching|
    ensures |r| == n
  {
    if n == 0 then [] else [size(matching[|matching| - n])] + SuffixSizes(size, matching, n - 1)
  }

  /** The JSON text of a page, with a character for a byte and ' for a quotation mark. */
  function PageText(texts: seq<string>, lastSequence: nat, total: nat): string {
    "{'entries':" + ArrayText(texts) + ",'lastSequence':" + Decimal(lastSequence) +
    ",'totalEntries':" + Decimal(total) + ",'returnedEntries':" + Decimal(|texts|) +
    ",'truncated':" + (if |texts| < total then "true" else "false") + "}"
  }

  /** The bytes of a page are the length of its text. */
  lemma PageBytesOfText(size: Entry -> nat, matching: seq<Entry>, lastSequence: nat, texts: seq<string>)
    requires |texts| <= |matching|
    requires forall i | 0 <= i < |texts| :: |texts[i]| == size(matching[|matching| - |texts| + i])
    ensures PageBytes(size, matching, lastSequence, |texts|) == |PageText(texts, lastSequence, |matching|)|
  {
    SuffixSizesAre(size, matching, texts);
    ArrayTextLength(texts);
    DecimalLength(lastSequence);
    DecimalLength(|matching|);
    DecimalLength(|texts|);
  }

  lemma {:induction false} SuffixSizesAre(size: Entry -> nat, matching: seq<Entry>, texts: seq<string>)
    requires |texts| <= |matching|
    requires forall i | 0 <= i < |texts| :: |texts[i]| == size(matching[|matching| - |texts| + i])
    ensures SuffixSizes(size, matching, |texts|) == Lengths(texts)
  {
    if texts != [] {
      SuffixSizesAre(size, matching, texts[1..]);
      assert Lengths(texts) == [|texts[0]|] + Lengths(texts[1..]);
    }
  }

  lemma {:induction false} PageBytesMonotone(size: Entry -> nat, matching: seq<Entry>, lastSequence: nat, n: nat,
                                             more: nat)
    requires n <= more <= |matching|
    ensures PageBytes(size, matching, lastSequence, n) <= PageBytes(size, matching, lastSequence, more)
    decreases more
  {
    if n < more {
      PageBytesMonotone(size, matching, lastSequence, n, more - 1);
      SumPrepend(size(matching[|matching| - more]), SuffixSizes(size, matching, more - 1));
      DigitsMonotone(more - 1, more);
    }
  }

  ghost predicate MaximalSuffix(size: Entry -> nat, matching: seq<Entry>, lastSequence: nat, limit: nat, n: nat) {
    && n <= limit && n <= |matching|
    && (n > 0 ==> PageBytes(size, matching, lastSequence, n) <= MAX_PAGE_BYTES)
    && forall m | n < m <= limit && m <= |matching| :: PageBytes(size, matching, lastSequence, m) > MAX_PAGE_BYTES
  }

  lemma MaximalWhenNextIsTooBig(size: Entry -> nat, matching: seq<Entry>, lastSequence: nat, limit: nat, n: nat)
    requires n < limit && n < |matching| && (n > 0 ==> PageBytes(size, matching, lastSequence, n) <= MAX_PAGE_BYTES)
    requires PageBytes(size, matching, lastSequence, n + 1) > MAX_PAGE_BYTES
    ensures MaximalSuffix(size, matching, lastSequence, limit, n)
  {
    forall m | n < m <= limit && m <= |matching| ensures PageBytes(size, matching, lastSequence, m) > MAX_PAGE_BYTES {
      PageBytesMonotone(size, matching, lastSequence, n + 1, m);
    }
  }

  lemma MaximalWhenNoneLeft(size: Entry -> nat, matching: seq<Entry>, lastSequence: nat, limit: nat, n: nat)
    requires n <= limit && n <= |matching| && (n == limit || n == |matching|)
    requires n > 0 ==> PageBytes(size, matching, lastSequence, n) <= MAX_PAGE_BYTES
    ensures MaximalSuffix(size, matching, lastSequence, limit, n)
  {
  }

  /** Takes in one older entry after the other while the page stays within its bytes. */
  method LongestSuffix(size: Entry -> nat, matching: seq<Entry>, lastSequence: nat, limited: seq<Entry>,
                       ghost limit: nat) returns (n: nat)
    requires |limited| == if |matching| > limit then limit else |matching|
    ensures n <= |matching| && MaximalSuffix(size, matching, lastSequence, limit, n)
  {
    n := 0;
    while n < |limited|
      invariant n <= |limited| && (n > 0 ==> PageBytes(size, matching, lastSequence, n) <= MAX_PAGE_BYTES)
    {
      if PageBytes(size, matching, lastSequence, n + 1) > MAX_PAGE_BYTES {
        MaximalWhenNextIsTooBig(size, matching, lastSequence, limit, n);
        return;
      }
      n := n + 1;
    }
    MaximalWhenNoneLeft(size, matching, lastSequence, limit, n);
  }

  /** The page is the longest run of the newest matching entries within the limit and the byte budget. */
  method QueryPage(log: Log, q: Query, size: Entry -> nat) returns (page: Page)
    ensures var matching := Filter(log.entries, Wanted(q));
      && |page.entries| <= |matching| && page.entries == matching[|matching| - |page.entries|..]
      && MaximalSuffix(size, matching, log.lastSequence, q.limit, |page.entries|)
      && page.lastSequence == log.lastSequence && page.totalEntries == |matching|
      && (page.truncated <==> |page.entries| < |matching|)
  {
    var matching := Filter(log.entries, Wanted(q));
    var limited := if |matching| > q.limit then matching[|matching| - q.limit..] else matching;
    var n := LongestSuffix(size, matching, log.lastSequence, limited, q.limit);
    page := Page(matching[|matching| - n..], log.lastSequence, |matching|, n < |matching|);
  }
}
