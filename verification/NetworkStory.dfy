/**
 What the network log says, told by the events alone: which requests are listed and for how long, and with which outcome
 each of them ended (packages/browser-core/src/cdp-helper.ts).
 */
module NetworkStory {
  import opened Prelude
  import opened NetworkLog

  // ---- Which requests are watched ----

  /** The main frame as the last event about it left it. */
  function KnownFrame(trace: seq<Event>): Option<string> {
    if trace == [] then None
    else
      var before := KnownFrame(trace[..|trace| - 1]);
      match trace[|trace| - 1]
      case MainFrameKnown(id) => Some(id)
      case MainFrameNavigated(frameId, _) => frameId
      case FrameDetached(id) => if before == Some(id) then None else before
      case ListenerRemoved => None
      case ConnectionReset => None
      case TransportReplaced => None
      case _ => before
  }

  lemma {:induction false} FrameIsKnown(trace: seq<Event>)
    ensures Run(trace).mainFrame == KnownFrame(trace)
  {
    if trace != [] {
      FrameIsKnown(trace[..|trace| - 1]);
    }
  }

  /** A request of the main frame. */
  predicate Watched(mainFrame: Option<string>, event: Event) {
    event.RequestWillBeSent? && event.requestId != "" && event.frameId.Some? && event.frameId == mainFrame
  }

  predicate WatchedAt(trace: seq<Event>, j: nat)
    requires j < |trace|
  {
    Watched(KnownFrame(trace[..j]), trace[j])
  }

  lemma RunOneMore(trace: seq<Event>, event: Event)
    ensures Run(trace + [event]) == Step(Run(trace), event)
    ensures Run(trace).mainFrame == KnownFrame(trace)
  {
    assert (trace + [event])[..|trace|] == trace;
    FrameIsKnown(trace);
  }

  // ---- What one event does to an entry ----

  predicate Marked(log: Log, e: Entry) {
    e.requestId in log.live && log.live[e.requestId] == e.sequence
  }

  /** What the event makes of an unfinished entry of its request. */
  function Turned(log: Log, event: Event, e: Entry): Entry {
    match event
    case ResponseReceived(id, response, kind) => if id == e.requestId then Responded(e, response, kind) else e
    case LoadingFinished(id, at) => if id == e.requestId then Loaded(e, at) else e
    case LoadingFailed(id, at, reason) => if id == e.requestId then FailedWith(e, at, reason) else e
    case RequestWillBeSent(id, _, _, at, _, _, redirect) =>
      if id == e.requestId && Watched(log.mainFrame, event) && redirect.Some?
      then Redirected(e, redirect.value, at) else e
    case _ => e
  }

  /** The request is settled, asked for again, or no longer listened to. */
  predicate Takes(mainFrame: Option<string>, event: Event, id: string) {
    match event
    case LoadingFinished(ended, _) => ended == id
    case LoadingFailed(ended, _, _) => ended == id
    case RequestWillBeSent(again, _, _, _, _, _, _) => again == id && Watched(mainFrame, event)
    case ListenerRemoved => true
    case _ => false
  }

  /** `e` is an entry before the event, `f` the same one after it. */
  ghost predicate Follows(log: Log, event: Event, next: Log, e: Entry, f: Entry) {
    && e in log.entries && f == (if Marked(log, e) then Turned(log, event, e) else e)
    && (Marked(next, f) <==> Marked(log, e) && !Takes(log.mainFrame, event, e.requestId))
  }

  ghost predicate HasPast(log: Log, event: Event, next: Log, f: Entry) {
    exists e :: Follows(log, event, next, e, f)
  }

  lemma SameSequence(log: Log, e: Entry, f: Entry)
    requires Inv(log) && e in log.entries && f in log.entries && e.sequence == f.sequence
    ensures e == f
  {
    var i :| 0 <= i < |log.entries| && log.entries[i] == e;
    var j :| 0 <= j < |log.entries| && log.entries[j] == f;
    assert i == j;
  }

  /** The entry whose number is live for a request id is of that request. */
  lemma LiveIsMarked(log: Log, e: Entry, id: string)
    requires Inv(log) && e in log.entries && id in log.live
    ensures e.sequence == log.live[id] <==> e.requestId == id && Marked(log, e)
  {
    if e.sequence == log.live[id] {
      assert Points(log, id);
      var i :| 0 <= i < |log.entries| && log.entries[i].sequence == log.live[id] && log.entries[i].requestId == id;
      SameSequence(log, e, log.entries[i]);
    }
  }

  lemma SettledPast(log: Log, id: string, f: Entry -> Entry, ends: bool, after: Entry) returns (e: Entry)
    requires Inv(log) && KeepsIdentity(f) && after in Settle(log, id, f, ends).entries
    ensures e in log.entries && after == (if Marked(log, e) && e.requestId == id then f(e) else e)
    ensures Marked(Settle(log, id, f, ends), after) <==> Marked(log, e) && !(ends && e.requestId == id)
    ensures after.sequence == e.sequence && after.requestId == e.requestId
  {
    e := after;
    if id in log.live {
      var i := UpdatedFrom(log.entries, log.live[id], f, after);
      e := log.entries[i];
      assert e in log.entries;
      LiveIsMarked(log, e, id);
      SettledMarks(log, id, f, ends, e, after);
    }
  }

  lemma SettledMarks(log: Log, id: string, f: Entry -> Entry, ends: bool, e: Entry, after: Entry)
    requires id in log.live && after.sequence == e.sequence && after.requestId == e.requestId
    ensures Marked(Settle(log, id, f, ends), after) <==> Marked(log, e) && !(ends && e.requestId == id)
  {
    assert Settle(log, id, f, ends).live == if ends then log.live - {id} else log.live;
  }

  lemma UpdatedFrom(entries: seq<Entry>, sequence: nat, f: Entry -> Entry, after: Entry) returns (i: nat)
    requires KeepsIdentity(f) && after in Update(entries, sequence, f)
    ensures i < |entries| && after == if entries[i].sequence == sequence then f(entries[i]) else entries[i]
    ensures after.sequence == entries[i].sequence && after.requestId == entries[i].requestId
  {
    var r := Update(entries, sequence, f);
    i :| 0 <= i < |r| && r[i] == after;
    assert f(entries[i]).sequence == entries[i].sequence;
  }

  lemma AddedMarks(log: Log, added: Entry, after: Entry)
    requires after.sequence < added.sequence
    ensures Marked(Added(log, added), after) <==> Marked(log, after) && after.requestId != added.requestId
  {
  }

  lemma TrimmedMarks(log: Log, after: Entry)
    requires Increasing(log.entries) && after in Trimmed(log).entries
    ensures after in log.entries && (Marked(Trimmed(log), after) <==> Marked(log, after))
  {
    if |log.entries| > MAX_ENTRIES {
      var drop := |log.entries| - MAX_ENTRIES;
      var i :| drop <= i < |log.entries| && log.entries[i] == after;
      forall e | e in log.entries[..drop] ensures e.sequence < after.sequence {
        var k :| 0 <= k < drop && log.entries[..drop][k] == e;
        assert log.entries[k].sequence < log.entries[i].sequence;
      }
    }
  }

  /** The new entry is listed and live; the old ones that stay keep their marks, but for that of the same request. */
  lemma AppendedPast(log: Log, added: Entry, after: Entry)
    requires Increasing(log.entries) && forall e | e in log.entries :: e.sequence < added.sequence
    requires after in Append(log, added).entries
    ensures after == added || after in log.entries
    ensures after == added ==> Marked(Append(log, added), after)
    ensures after in log.entries ==>
      (Marked(Append(log, added), after) <==> Marked(log, after) && after.requestId != added.requestId)
  {
    assert Increasing(Added(log, added).entries);
    TrimmedMarks(Added(log, added), after);
    if after in log.entries {
      AddedMarks(log, added, after);
    }
  }

  lemma SettledFollows(log: Log, event: Event, id: string, f: Entry -> Entry, ends: bool, after: Entry)
    requires Inv(log) && KeepsIdentity(f) && after in Settle(log, id, f, ends).entries
    requires Step(log, event) == Settle(log, id, f, ends)
    requires forall e: Entry | e.requestId == id :: Turned(log, event, e) == f(e)
    requires forall e: Entry | e.requestId != id :: Turned(log, event, e) == e
    requires forall r :: Takes(log.mainFrame, event, r) <==> ends && r == id
    ensures HasPast(log, event, Step(log, event), after)
  {
    var e := SettledPast(log, id, f, ends, after);
    assert Follows(log, event, Step(log, event), e, after);
  }

  lemma RequestFollows(log: Log, event: Event, after: Entry)
    requires Inv(log) && Watched(log.mainFrame, event) && after in Requested(log, event).entries
    ensures HasPast(log, event, Step(log, event), after) ||
      (after == NewEntry(log.lastSequence + 1, event) && Marked(Step(log, event), after))
  {
    var mid, added := AfterRedirect(log, event), NewEntry(log.lastSequence + 1, event);
    AfterRedirectKeepsInv(log, event);
    AppendedPast(mid.(lastSequence := added.sequence), added, after);
    if after != added {
      var e := MidPast(log, event, after);
      assert Follows(log, event, Step(log, event), e, after);
    }
  }

  lemma MidPast(log: Log, event: Event, after: Entry) returns (e: Entry)
    requires Inv(log) && Watched(log.mainFrame, event) && after in AfterRedirect(log, event).entries
    ensures e in log.entries && after.requestId == e.requestId
    ensures after == if Marked(log, e) then Turned(log, event, e) else e
    ensures e.requestId != event.requestId ==> (Marked(AfterRedirect(log, event), after) <==> Marked(log, e))
  {
    e := after;
    if event.redirect.Some? {
      e := SettledPast(log, event.requestId, ByRedirect(event.redirect.value, event.startedAt), true, after);
    }
  }

  lemma NavigationFollows(log: Log, event: Event, after: Entry)
    requires event.MainFrameNavigated? && after in Step(log, event).entries
    ensures HasPast(log, event, Step(log, event), after)
  {
    FilterMembers(log.entries, FromLoader(event.loaderId));
    assert Follows(log, event, Step(log, event), after, after);
  }

  /** Every entry was there before, in the same request, or is that of a request of the main frame just sent. */
  lemma StepFollows(log: Log, event: Event, after: Entry)
    requires Inv(log) && after in Step(log, event).entries
    ensures HasPast(log, event, Step(log, event), after) ||
      (Watched(log.mainFrame, event) && after == NewEntry(log.lastSequence + 1, event) &&
       Marked(Step(log, event), after))
  {
    match event
    case ResponseReceived(id, response, kind) =>
      SettledFollows(log, event, id, ByResponse(response, kind), false, after);
    case LoadingFinished(id, at) =>
      SettledFollows(log, event, id, ByEnd(at), true, after);
    case LoadingFailed(id, at, reason) =>
      SettledFollows(log, event, id, ByFailure(at, reason), true, after);
    case MainFrameNavigated(_, _) =>
      NavigationFollows(log, event, after);
    case RequestWillBeSent(_, _, _, _, _, _, _) =>
      if Watched(log.mainFrame, event) {
        RequestFollows(log, event, after);
      } else {
        assert Follows(log, event, Step(log, event), after, after);
      }
    case FrameDetached(id) =>
      if log.mainFrame != Some(id) {
        assert Follows(log, event, Step(log, event), after, after);
      }
    case MainFrameKnown(_) =>
      assert Follows(log, event, Step(log, event), after, after);
    case ListenerRemoved =>
      assert Follows(log, event, Step(log, event), after, after);
    case _ =>
  }

  // ---- The story of an entry ----

  predicate TakesAt(trace: seq<Event>, j: nat, id: string)
    requires j < |trace|
  {
    Takes(KnownFrame(trace[..j]), trace[j], id)
  }

  /** The request of event `b` has been neither settled, nor asked for again, nor given up by `until`. */
  ghost predicate OpenUntil(trace: seq<Event>, b: nat, until: nat)
    requires b < until <= |trace| && trace[b].RequestWillBeSent?
  {
    forall j | b < j < until :: !TakesAt(trace, j, trace[b].requestId)
  }

  /** Event `k` is the first that takes the request of event `b`. */
  ghost predicate EndsAt(trace: seq<Event>, b: nat, k: nat) {
    && b < k < |trace| && trace[b].RequestWillBeSent? && OpenUntil(trace, b, k)
    && TakesAt(trace, k, trace[b].requestId)
  }

  /** Event `j` is an answer to the request of event `b`, with an error status. */
  ghost predicate BadAnswerAt(trace: seq<Event>, b: nat, j: nat) {
    && b < j < |trace| && trace[b].RequestWillBeSent? && OpenUntil(trace, b, j)
    && trace[j].ResponseReceived? && trace[j].requestId == trace[b].requestId
    && trace[j].response.status.Some? && trace[j].response.status.value >= 400
  }

  ghost predicate HasBadAnswer(trace: seq<Event>, b: nat) {
    exists j: nat :: BadAnswerAt(trace, b, j)
  }

  ghost predicate HasFailed(trace: seq<Event>, b: nat) {
    exists k: nat :: EndsAt(trace, b, k) && trace[k].LoadingFailed?
  }

  ghost predicate HasLoaded(trace: seq<Event>, b: nat) {
    exists k: nat :: EndsAt(trace, b, k) && trace[k].LoadingFinished?
  }

  predicate IsRedirect(event: Event) {
    event.RequestWillBeSent? && event.redirect.Some?
  }

  ghost predicate WasRedirected(trace: seq<Event>, b: nat) {
    exists k: nat :: EndsAt(trace, b, k) && IsRedirect(trace[k])
  }

  ghost predicate FailedWithReason(trace: seq<Event>, b: nat, reason: Option<string>) {
    exists k: nat :: EndsAt(trace, b, k) && trace[k].LoadingFailed? && reason == Some(trace[k].reason)
  }

  /** How the request of event `b` ended decides its outcome, and then whether an answer had an error status. */
  ghost function Outcome(trace: seq<Event>, b: nat): RequestOutcome {
    if HasFailed(trace, b) then Failure
    else if WasRedirected(trace, b) then Redirect
    else if HasBadAnswer(trace, b) then HttpError
    else if HasLoaded(trace, b) then Success
    else PendingRequest
  }

  /** Event `b` is the request of entry `e`. */
  ghost predicate IsRequestOf(trace: seq<Event>, b: nat, e: Entry) {
    && b < |trace| && WatchedAt(trace, b)
    && e.requestId == trace[b].requestId && e.url == trace[b].url && e.loaderId == trace[b].loaderId
    && e.startedAt == trace[b].startedAt
  }

  /** The entry tells what became of its request. */
  ghost predicate Tells(trace: seq<Event>, b: nat, e: Entry) {
    && IsRequestOf(trace, b, e) && e.outcome == Outcome(trace, b)
    && (if e.outcome.Failure? then FailedWithReason(trace, b, e.failureReason) else e.failureReason.None?)
    && (e.durationMs.Some? <==> HasFailed(trace, b) || WasRedirected(trace, b) || HasLoaded(trace, b))
  }

  ghost predicate KnowsBadAnswer(trace: seq<Event>, b: nat, e: Entry) {
    e.response.status.Some? && e.response.status.value >= 400 ==> HasBadAnswer(trace, b)
  }

  ghost predicate Story(trace: seq<Event>, log: Log, b: nat, e: Entry) {
    && Tells(trace, b, e)
    && (Marked(log, e) <==> OpenUntil(trace, b, |trace|))
    && (Marked(log, e) ==> KnowsBadAnswer(trace, b, e))
  }

  lemma EarlierStays(trace: seq<Event>, event: Event, j: nat)
    requires j < |trace|
    ensures var longer := trace + [event]; longer[j] == trace[j] && longer[..j] == trace[..j]
  {
  }

  lemma OpenStep(trace: seq<Event>, event: Event, b: nat, until: nat)
    requires b < until <= |trace| && trace[b].RequestWillBeSent?
    ensures OpenUntil(trace + [event], b, until) <==> OpenUntil(trace, b, until)
  {
    var longer := trace + [event];
    forall j | b < j < until ensures TakesAt(longer, j, trace[b].requestId) <==> TakesAt(trace, j, trace[b].requestId) {
      EarlierStays(trace, event, j);
    }
    assert (trace + [event])[b] == trace[b];
    if OpenUntil(trace + [event], b, until) {
      forall j | b < j < until ensures !TakesAt(trace, j, trace[b].requestId) {
        assert !TakesAt(longer, j, trace[b].requestId);
      }
    }
  }

  lemma OpenOneMore(trace: seq<Event>, event: Event, b: nat)
    requires b < |trace| && trace[b].RequestWillBeSent?
    ensures OpenUntil(trace + [event], b, |trace| + 1) <==>
      OpenUntil(trace, b, |trace|) && !Takes(KnownFrame(trace), event, trace[b].requestId)
  {
    var longer := trace + [event];
    OpenStep(trace, event, b, |trace|);
    assert longer[..|trace|] == trace && longer[|trace|] == event;
    assert TakesAt(longer, |trace|, trace[b].requestId) <==> Takes(KnownFrame(trace), event, trace[b].requestId);
  }

  lemma EndsStep(trace: seq<Event>, event: Event, b: nat, k: nat)
    requires b < |trace| && trace[b].RequestWillBeSent?
    ensures EndsAt(trace + [event], b, k) <==>
      || EndsAt(trace, b, k)
      || (k == |trace| && OpenUntil(trace, b, |trace|) && Takes(KnownFrame(trace), event, trace[b].requestId))
  {
    var longer := trace + [event];
    if b < k < |trace| {
      OpenStep(trace, event, b, k);
      EarlierStays(trace, event, k);
    } else if k == |trace| {
      OpenStep(trace, event, b, k);
      assert longer[..k] == trace && longer[k] == event;
    }
  }

  lemma BadAnswerStep(trace: seq<Event>, event: Event, b: nat, j: nat)
    requires b < |trace| && trace[b].RequestWillBeSent?
    ensures BadAnswerAt(trace + [event], b, j) <==>
      || BadAnswerAt(trace, b, j)
      || (j == |trace| && OpenUntil(trace, b, |trace|) && event.ResponseReceived? &&
          event.requestId == trace[b].requestId && event.response.status.Some? && event.response.status.value >= 400)
  {
    var longer := trace + [event];
    if b < j <= |trace| {
      OpenStep(trace, event, b, j);
    }
    if b < j < |trace| {
      EarlierStays(trace, event, j);
    }
  }

  /** What an event adds to the end of an open request. */
  predicate Adds(trace: seq<Event>, event: Event, b: nat)
    requires b < |trace| && trace[b].RequestWillBeSent?
  {
    Takes(KnownFrame(trace), event, trace[b].requestId)
  }

  lemma EndsSame(trace: seq<Event>, event: Event, b: nat, k: nat)
    requires EndsAt(trace, b, k)
    ensures EndsAt(trace + [event], b, k) && (trace + [event])[k] == trace[k]
  {
    EndsStep(trace, event, b, k);
  }

  lemma EndsNow(trace: seq<Event>, event: Event, b: nat)
    requires b < |trace| && trace[b].RequestWillBeSent? && OpenUntil(trace, b, |trace|) && Adds(trace, event, b)
    ensures EndsAt(trace + [event], b, |trace|) && (trace + [event])[|trace|] == event
  {
    EndsStep(trace, event, b, |trace|);
  }

  /** Every end of the longer trace is an end of the trace, or the event itself. */
  lemma EndedStep(trace: seq<Event>, event: Event, b: nat)
    requires b < |trace| && trace[b].RequestWillBeSent?
    ensures var longer, now := trace + [event], OpenUntil(trace, b, |trace|) && Adds(trace, event, b);
      && (HasFailed(longer, b) <==> HasFailed(trace, b) || (now && event.LoadingFailed?))
      && (HasLoaded(longer, b) <==> HasLoaded(trace, b) || (now && event.LoadingFinished?))
      && (WasRedirected(longer, b) <==> WasRedirected(trace, b) || (now && IsRedirect(event)))
  {
    var longer := trace + [event];
    forall k: nat ensures EndsAt(longer, b, k) <==>
      EndsAt(trace, b, k) || (k == |trace| && OpenUntil(trace, b, |trace|) && Adds(trace, event, b))
    {
      EndsStep(trace, event, b, k);
    }
    assert longer[|trace|] == event;
    forall k | 0 <= k < |trace| ensures longer[k] == trace[k] {
    }
  }

  lemma ReasonStep(trace: seq<Event>, event: Event, b: nat, reason: Option<string>)
    requires b < |trace| && trace[b].RequestWillBeSent?
    ensures FailedWithReason(trace, b, reason) ==> FailedWithReason(trace + [event], b, reason)
    ensures OpenUntil(trace, b, |trace|) && Adds(trace, event, b) && event.LoadingFailed? ==>
      FailedWithReason(trace + [event], b, Some(event.reason))
  {
    if k: nat :| EndsAt(trace, b, k) && trace[k].LoadingFailed? && reason == Some(trace[k].reason) {
      EndsSame(trace, event, b, k);
    }
    if OpenUntil(trace, b, |trace|) && Adds(trace, event, b) {
      EndsNow(trace, event, b);
    }
  }

  predicate IsBadAnswer(event: Event, id: string) {
    && event.ResponseReceived? && event.requestId == id
    && event.response.status.Some? && event.response.status.value >= 400
  }

  lemma BadStep(trace: seq<Event>, event: Event, b: nat)
    requires b < |trace| && trace[b].RequestWillBeSent?
    ensures HasBadAnswer(trace + [event], b) <==>
      HasBadAnswer(trace, b) || (OpenUntil(trace, b, |trace|) && IsBadAnswer(event, trace[b].requestId))
  {
    if j: nat :| BadAnswerAt(trace + [event], b, j) {
      BadAnswerStep(trace, event, b, j);
    }
    if j: nat :| BadAnswerAt(trace, b, j) {
      BadAnswerStep(trace, event, b, j);
    }
    BadAnswerStep(trace, event, b, |trace|);
  }

  lemma OpenHasNotEnded(trace: seq<Event>, b: nat)
    requires b < |trace| && trace[b].RequestWillBeSent? && OpenUntil(trace, b, |trace|)
    ensures !HasFailed(trace, b) && !HasLoaded(trace, b) && !WasRedirected(trace, b)
  {
  }

  lemma RequestStays(trace: seq<Event>, event: Event, b: nat, e: Entry, f: Entry)
    requires IsRequestOf(trace, b, e) && f.requestId == e.requestId && f.url == e.url && f.loaderId == e.loaderId
    requires f.startedAt == e.startedAt
    ensures IsRequestOf(trace + [event], b, f)
  {
    EarlierStays(trace, event, b);
  }

  /** Once a request has ended, nothing changes what its entry tells. */
  lemma EndedGoesOn(trace: seq<Event>, event: Event, b: nat, e: Entry)
    requires Tells(trace, b, e) && !OpenUntil(trace, b, |trace|)
    ensures Tells(trace + [event], b, e) && !OpenUntil(trace + [event], b, |trace| + 1)
  {
    EndedStep(trace, event, b);
    BadStep(trace, event, b);
    OpenOneMore(trace, event, b);
    ReasonStep(trace, event, b, e.failureReason);
    RequestStays(trace, event, b, e, e);
  }

  /** The outcome of an open request after the event. */
  function OutcomeAfter(now: bool, bad: bool, event: Event): RequestOutcome {
    if now && event.LoadingFailed? then Failure
    else if now && IsRedirect(event) then Redirect
    else if bad then HttpError
    else if now && event.LoadingFinished? then Success
    else PendingRequest
  }

  lemma OpenOutcome(trace: seq<Event>, event: Event, b: nat)
    requires b < |trace| && trace[b].RequestWillBeSent? && OpenUntil(trace, b, |trace|)
    ensures var longer, now := trace + [event], Adds(trace, event, b);
      && Outcome(longer, b) == OutcomeAfter(now, HasBadAnswer(longer, b), event)
      && (HasFailed(longer, b) || WasRedirected(longer, b) || HasLoaded(longer, b) <==>
            now && (event.LoadingFailed? || IsRedirect(event) || event.LoadingFinished?))
    ensures Outcome(trace, b) == if HasBadAnswer(trace, b) then HttpError else PendingRequest
  {
    EndedStep(trace, event, b);
    OpenHasNotEnded(trace, b);
  }

  lemma TurnedOutcome(log: Log, event: Event, e: Entry)
    requires e.outcome.PendingRequest? || e.outcome.HttpError?
    requires e.response.status.Some? && e.response.status.value >= 400 ==> e.outcome.HttpError?
    ensures var f, now := Turned(log, event, e), Takes(log.mainFrame, event, e.requestId);
      && f.outcome == OutcomeAfter(now, e.outcome.HttpError? || IsBadAnswer(event, e.requestId), event)
      && (f.failureReason == if now && event.LoadingFailed? then Some(event.reason) else e.failureReason)
      && (f.durationMs.Some? <==>
            e.durationMs.Some? || (now && (event.LoadingFailed? || IsRedirect(event) || event.LoadingFinished?)))
      && (!now && f.response.status.Some? && f.response.status.value >= 400 ==> f.outcome.HttpError?)
  {
  }

  lemma OpenTellsOutcome(trace: seq<Event>, event: Event, b: nat, log: Log, e: Entry)
    requires Tells(trace, b, e) && OpenUntil(trace, b, |trace|) && log.mainFrame == KnownFrame(trace)
    requires KnowsBadAnswer(trace, b, e)
    ensures var longer, f, now := trace + [event], Turned(log, event, e), Adds(trace, event, b);
      && f.outcome == Outcome(longer, b)
      && (f.durationMs.Some? <==> HasFailed(longer, b) || WasRedirected(longer, b) || HasLoaded(longer, b))
      && (now || KnowsBadAnswer(longer, b, f))
      && f.failureReason == if now && event.LoadingFailed? then Some(event.reason) else e.failureReason
  {
    BadStep(trace, event, b);
    OpenOutcome(trace, event, b);
    OpenHasNotEnded(trace, b);
    TurnedOutcome(log, event, e);
  }

  /** An open entry is changed by the event as the event changes its request. */
  lemma OpenGoesOn(trace: seq<Event>, event: Event, b: nat, log: Log, e: Entry)
    requires Tells(trace, b, e) && OpenUntil(trace, b, |trace|) && log.mainFrame == KnownFrame(trace)
    requires KnowsBadAnswer(trace, b, e)
    ensures var f := Turned(log, event, e);
      Tells(trace + [event], b, f) && (Adds(trace, event, b) || KnowsBadAnswer(trace + [event], b, f))
  {
    var f := Turned(log, event, e);
    OpenTellsOutcome(trace, event, b, log, e);
    OpenOutcome(trace, event, b);
    RequestStays(trace, event, b, e, f);
    if Adds(trace, event, b) && event.LoadingFailed? {
      ReasonStep(trace, event, b, f.failureReason);
    }
  }

  /** An entry goes on telling what became of its request. */
  lemma StoryGoesOn(trace: seq<Event>, event: Event, b: nat, log: Log, next: Log, e: Entry, f: Entry)
    requires Story(trace, log, b, e) && Follows(log, event, next, e, f) && log.mainFrame == KnownFrame(trace)
    ensures Story(trace + [event], next, b, f)
  {
    OpenOneMore(trace, event, b);
    if OpenUntil(trace, b, |trace|) {
      OpenGoesOn(trace, event, b, log, e);
    } else {
      EndedGoesOn(trace, event, b, e);
    }
  }

  /** A request of the main frame that has just been sent has not ended. */
  lemma StoryBegins(trace: seq<Event>, event: Event, e: Entry)
    requires Watched(KnownFrame(trace), event) && Marked(Run(trace + [event]), e)
    requires e.requestId == event.requestId && e.url == event.url && e.loaderId == event.loaderId
    requires e.startedAt == event.startedAt && e.outcome.PendingRequest? && e.failureReason.None? && e.durationMs.None?
    requires e.response.status.None?
    ensures Story(trace + [event], Run(trace + [event]), |trace|, e)
  {
    var longer := trace + [event];
    assert longer[..|trace|] == trace && longer[|trace|] == event;
    OpenHasNotEnded(longer, |trace|);
  }

  lemma {:induction false} EntriesHaveStories(trace: seq<Event>, f: Entry)
    requires f in Run(trace).entries
    ensures exists b: nat :: Story(trace, Run(trace), b, f)
  {
    var n := |trace| - 1;
    var shorter, event := trace[..n], trace[n];
    assert shorter + [event] == trace;
    RunKeepsInv(shorter);
    RunOneMore(shorter, event);
    StepFollows(Run(shorter), event, f);
    if e :| Follows(Run(shorter), event, Run(trace), e, f) {
      EntriesHaveStories(shorter, e);
      var b: nat :| Story(shorter, Run(shorter), b, e);
      StoryGoesOn(shorter, event, b, Run(shorter), Run(trace), e, f);
      assert Story(trace, Run(trace), b, f);
    } else {
      StoryBegins(shorter, event, f);
      assert Story(trace, Run(trace), n, f);
    }
  }

  /**
   Whatever else was going on: every entry is that of a request of the main frame, and its outcome is how that request
   ended, by failure or by redirect, else an error status of one of its answers, else whether it finished.
   */
  lemma EntriesTellWhatHappened(trace: seq<Event>, e: Entry)
    requires e in Run(trace).entries
    ensures exists b: nat :: Tells(trace, b, e)
  {
    EntriesHaveStories(trace, e);
    var b: nat :| Story(trace, Run(trace), b, e);
    assert Tells(trace, b, e);
  }

  // ---- What an entry shows besides ----

  /** What an open request has heard: responses, kinds of resource beginning with its own, and how long it took. */
  datatype Heard = Heard(responses: seq<Response>, kinds: seq<ResourceKind>, durationMs: Option<int>)

  function EndTime(event: Event, startedAt: real): real {
    match event
    case LoadingFinished(_, at) => if at.Some? then at.value else startedAt
    case LoadingFailed(_, at, _) => if at.Some? then at.value else startedAt
    case RequestWillBeSent(_, _, _, at, _, _, _) => at
    case _ => startedAt
  }

  function Hears(h: Heard, mainFrame: Option<string>, request: Event, event: Event): Heard
    requires request.RequestWillBeSent?
  {
    if event.ResponseReceived? && event.requestId == request.requestId then
      h.(responses := h.responses + [event.response], kinds := h.kinds + [event.kind])
    else if !Takes(mainFrame, event, request.requestId) then h
    else if IsRedirect(event) then
      h.(responses := h.responses + [event.redirect.value],
         durationMs := Some(Duration(request.startedAt, EndTime(event, request.startedAt))))
    else if event.LoadingFailed? || event.LoadingFinished? then
      h.(durationMs := Some(Duration(request.startedAt, EndTime(event, request.startedAt))))
    else h
  }

  /** What the request of event `b` has heard until it ended. */
  ghost function HeardOf(trace: seq<Event>, b: nat): Heard
    requires b < |trace| && trace[b].RequestWillBeSent?
    decreases |trace|
  {
    var n := |trace| - 1;
    if n == b then Heard([], [trace[b].kind], None)
    else if OpenUntil(trace, b, n) then Hears(HeardOf(trace[..n], b), KnownFrame(trace[..n]), trace[b], trace[n])
    else HeardOf(trace[..n], b)
  }

  function LastOf<T>(responses: seq<Response>, field: Response -> Option<T>): Option<T> {
    if responses == [] then None
    else
      var last := field(responses[|responses| - 1]);
      if last.Some? then last else LastOf(responses[..|responses| - 1], field)
  }

  lemma LastOfMore<T>(responses: seq<Response>, r: Response, field: Response -> Option<T>)
    ensures LastOf(responses + [r], field) == if field(r).Some? then field(r) else LastOf(responses, field)
  {
    assert (responses + [r])[..|responses|] == responses;
  }

  /** The first kind that says something. */
  function FirstKnown(kinds: seq<ResourceKind>): ResourceKind {
    if kinds == [] then OtherKind
    else
      var earlier := FirstKnown(kinds[..|kinds| - 1]);
      if earlier.OtherKind? then kinds[|kinds| - 1] else earlier
  }

  lemma FirstKnownMore(kinds: seq<ResourceKind>, kind: ResourceKind)
    ensures FirstKnown(kinds + [kind]) == if FirstKnown(kinds).OtherKind? then kind else FirstKnown(kinds)
  {
    assert (kinds + [kind])[..|kinds|] == kinds;
  }

  /** Of each field of a response the last that was present, and the first kind that says something. */
  ghost predicate Shows(h: Heard, e: Entry) {
    && e.response.status == LastOf(h.responses, (r: Response) => r.status)
    && e.response.statusText == LastOf(h.responses, (r: Response) => r.statusText)
    && e.response.mimeType == LastOf(h.responses, (r: Response) => r.mimeType)
    && e.kind == FirstKnown(h.kinds) && e.durationMs == h.durationMs
  }

  lemma TurnedShows(h: Heard, log: Log, request: Event, event: Event, e: Entry)
    requires Shows(h, e) && request.RequestWillBeSent?
    requires e.requestId == request.requestId && e.startedAt == request.startedAt
    ensures Shows(Hears(h, log.mainFrame, request, event), Turned(log, event, e))
  {
    match event
    case ResponseReceived(_, response, kind) =>
      ResponseShows(h, response, kind, e);
    case RequestWillBeSent(_, _, _, at, _, _, redirect) =>
      if redirect.Some? {
        RedirectShows(h, redirect.value, at, e);
      }
    case LoadingFinished(_, at) =>
      EndShows(h, at, e);
    case LoadingFailed(_, at, _) =>
      EndShows(h, at, e);
    case _ =>
  }

  lemma ResponseShows(h: Heard, r: Response, kind: ResourceKind, e: Entry)
    requires Shows(h, e)
    ensures Shows(h.(responses := h.responses + [r], kinds := h.kinds + [kind]), Responded(e, r, kind))
  {
    AnswerShows(h, r, e);
    FirstKnownMore(h.kinds, kind);
  }

  lemma RedirectShows(h: Heard, r: Response, at: real, e: Entry)
    requires Shows(h, e)
    ensures Shows(h.(responses := h.responses + [r], durationMs := Some(Duration(e.startedAt, at))),
                  Redirected(e, r, at))
  {
    AnswerShows(h, r, e);
  }

  lemma EndShows(h: Heard, at: Option<real>, e: Entry)
    requires Shows(h, e)
    ensures var ms := Some(Duration(e.startedAt, if at.Some? then at.value else e.startedAt));
      && Shows(h.(durationMs := ms), Loaded(e, at))
      && forall reason :: Shows(h.(durationMs := ms), FailedWith(e, at, reason))
  {
  }

  lemma AnswerShows(h: Heard, r: Response, e: Entry)
    requires Shows(h, e)
    ensures Shows(h.(responses := h.responses + [r]), WithResponse(e, r))
  {
    LastOfMore(h.responses, r, (r: Response) => r.status);
    LastOfMore(h.responses, r, (r: Response) => r.statusText);
    LastOfMore(h.responses, r, (r: Response) => r.mimeType);
  }

  ghost predicate Detailed(trace: seq<Event>, log: Log, b: nat, e: Entry) {
    && IsRequestOf(trace, b, e) && Shows(HeardOf(trace, b), e)
    && (Marked(log, e) <==> OpenUntil(trace, b, |trace|))
  }

  lemma HeardStep(trace: seq<Event>, event: Event, b: nat)
    requires b < |trace| && trace[b].RequestWillBeSent?
    ensures HeardOf(trace + [event], b) ==
      if OpenUntil(trace, b, |trace|) then Hears(HeardOf(trace, b), KnownFrame(trace), trace[b], event)
      else HeardOf(trace, b)
  {
    var longer := trace + [event];
    assert longer[..|trace|] == trace && longer[|trace|] == event && longer[b] == trace[b];
    OpenStep(trace, event, b, |trace|);
  }

  lemma DetailsGoOn(trace: seq<Event>, event: Event, b: nat, log: Log, next: Log, e: Entry, f: Entry)
    requires Detailed(trace, log, b, e) && Follows(log, event, next, e, f) && log.mainFrame == KnownFrame(trace)
    ensures Detailed(trace + [event], next, b, f)
  {
    OpenOneMore(trace, event, b);
    HeardStep(trace, event, b);
    RequestStays(trace, event, b, e, f);
    TurnedShows(HeardOf(trace, b), log, trace[b], event, e);
  }

  lemma DetailsBegin(trace: seq<Event>, event: Event, sequence: nat)
    requires Watched(KnownFrame(trace), event) && Marked(Run(trace + [event]), NewEntry(sequence, event))
    ensures Detailed(trace + [event], Run(trace + [event]), |trace|, NewEntry(sequence, event))
  {
    var longer := trace + [event];
    assert longer[..|trace|] == trace && longer[|trace|] == event;
    FirstKnownMore([], event.kind);
    assert [] + [event.kind] == [event.kind];
  }

  lemma {:induction false} EntriesAreDetailed(trace: seq<Event>, f: Entry)
    requires f in Run(trace).entries
    ensures exists b: nat :: Detailed(trace, Run(trace), b, f)
  {
    var n := |trace| - 1;
    var shorter, event := trace[..n], trace[n];
    assert shorter + [event] == trace;
    RunKeepsInv(shorter);
    RunOneMore(shorter, event);
    StepFollows(Run(shorter), event, f);
    if e :| Follows(Run(shorter), event, Run(trace), e, f) {
      EntriesAreDetailed(shorter, e);
      var b: nat :| Detailed(shorter, Run(shorter), b, e);
      DetailsGoOn(shorter, event, b, Run(shorter), Run(trace), e, f);
      assert Detailed(trace, Run(trace), b, f);
    } else {
      DetailsBegin(shorter, event, Run(shorter).lastSequence + 1);
      assert Detailed(trace, Run(trace), n, f);
    }
  }

  /** An entry shows what its request heard until it ended, and how long that took; nothing else reaches it. */
  lemma EntriesShowWhatWasHeard(trace: seq<Event>, e: Entry)
    requires e in Run(trace).entries
    ensures exists b: nat :: IsRequestOf(trace, b, e) && Shows(HeardOf(trace, b), e)
  {
    EntriesAreDetailed(trace, e);
    var b: nat :| Detailed(trace, Run(trace), b, e);
    assert IsRequestOf(trace, b, e);
  }

  // ---- How long an entry is listed ----

  /** The event clears the log, or all of it that is not of the new document's loader. */
  predicate Clears(trace: seq<Event>, event: Event, e: Entry) {
    match event
    case MainFrameNavigated(_, loaderId) => loaderId.None? || loaderId.value == "" || e.loaderId != loaderId
    case FrameDetached(id) => KnownFrame(trace) == Some(id)
    case ConnectionReset => true
    case TransportReplaced => true
    case _ => false
  }

  ghost predicate Listed(log: Log, sequence: nat) {
    exists e :: e in log.entries && e.sequence == sequence
  }

  ghost predicate PushedOut(log: Log, event: Event, e: Entry) {
    Watched(log.mainFrame, event) && |log.entries| == MAX_ENTRIES && e == log.entries[0]
  }

  lemma ListedAfterAppend(log: Log, added: Entry, i: nat)
    requires Increasing(log.entries) && |log.entries| <= MAX_ENTRIES && i < |log.entries|
    requires forall x | x in log.entries :: x.sequence < added.sequence
    ensures Listed(Append(log, added), log.entries[i].sequence) <==> !(|log.entries| == MAX_ENTRIES && i == 0)
  {
    var next := Append(log, added).entries;
    var drop := |log.entries| + 1 - |next|;
    if i >= drop {
      assert next[i - drop] == log.entries[i] && log.entries[i] in next;
    }
  }

  lemma ListedAfterSettle(log: Log, id: string, f: Entry -> Entry, ends: bool, i: nat)
    requires KeepsIdentity(f) && i < |log.entries|
    ensures var next := Settle(log, id, f, ends);
      |next.entries| == |log.entries| && next.entries[i].sequence == log.entries[i].sequence
    ensures Listed(Settle(log, id, f, ends), log.entries[i].sequence)
  {
    var next := Settle(log, id, f, ends);
    assert f(log.entries[i]).sequence == log.entries[i].sequence;
    assert next.entries[i] in next.entries;
  }

  lemma ListedAfterRequest(log: Log, event: Event, i: nat)
    requires Inv(log) && Watched(log.mainFrame, event) && i < |log.entries|
    ensures Listed(Requested(log, event), log.entries[i].sequence) <==> !(|log.entries| == MAX_ENTRIES && i == 0)
  {
    var mid := AfterRedirect(log, event).(lastSequence := log.lastSequence + 1);
    RedirectKeepsPlaces(log, event, i);
    ListedAfterAppend(mid, NewEntry(log.lastSequence + 1, event), i);
  }

  lemma RedirectKeepsPlaces(log: Log, event: Event, i: nat)
    requires Inv(log) && event.RequestWillBeSent? && i < |log.entries|
    ensures var mid := AfterRedirect(log, event).entries;
      && |mid| == |log.entries| && mid[i].sequence == log.entries[i].sequence && Increasing(mid)
      && forall x | x in mid :: x.sequence <= log.lastSequence
  {
    AfterRedirectKeepsInv(log, event);
    if event.redirect.Some? {
      ListedAfterSettle(log, event.requestId, ByRedirect(event.redirect.value, event.startedAt), true, i);
    }
  }

  lemma ListedAfterNavigation(log: Log, event: Event, e: Entry)
    requires Inv(log) && event.MainFrameNavigated? && e in log.entries
    ensures Listed(Step(log, event), e.sequence) <==>
      event.loaderId.Some? && event.loaderId.value != "" && e.loaderId == event.loaderId
  {
    var kept := Filter(log.entries, FromLoader(event.loaderId));
    FilterMembers(log.entries, FromLoader(event.loaderId));
    if f :| f in kept && f.sequence == e.sequence {
      SameSequence(log, e, f);
    }
    if e in kept {
      assert Listed(log.(entries := kept), e.sequence);
    }
  }

  /** An entry leaves the log only when the log is cleared, or full and the entry is the oldest. */
  lemma ListedUnlessCleared(trace: seq<Event>, event: Event, e: Entry)
    requires e in Run(trace).entries
    ensures Listed(Run(trace + [event]), e.sequence) <==>
      !Clears(trace, event, e) && !PushedOut(Run(trace), event, e)
  {
    RunKeepsInv(trace);
    RunOneMore(trace, event);
    var log := Run(trace);
    var i :| 0 <= i < |log.entries| && log.entries[i] == e;
    match event
    case ResponseReceived(id, response, kind) => ListedAfterSettle(log, id, ByResponse(response, kind), false, i);
    case LoadingFinished(id, at) => ListedAfterSettle(log, id, ByEnd(at), true, i);
    case LoadingFailed(id, at, reason) => ListedAfterSettle(log, id, ByFailure(at, reason), true, i);
    case MainFrameNavigated(_, _) => ListedAfterNavigation(log, event, e);
    case RequestWillBeSent(_, _, _, _, _, _, _) =>
      if Watched(log.mainFrame, event) {
        ListedAfterRequest(log, event, i);
      }
    case _ =>
  }

  /** A request of the main frame is listed last, unfinished, under the next number. */
  lemma RequestIsListed(trace: seq<Event>, event: Event)
    requires Watched(KnownFrame(trace), event)
    ensures var log, next := Run(trace), Run(trace + [event]);
      && next.lastSequence == log.lastSequence + 1 && next.entries != []
      && var e := next.entries[|next.entries| - 1];
         && e.sequence == next.lastSequence && Marked(next, e) && e.outcome.PendingRequest? && e.kind == event.kind
         && e.requestId == event.requestId && e.url == event.url && e.loaderId == event.loaderId
  {
    RunKeepsInv(trace);
    RunOneMore(trace, event);
    NewestIsLast(Run(trace), event);
  }

  lemma NewestIsLast(log: Log, event: Event)
    requires Inv(log) && event.RequestWillBeSent?
    ensures var next, added := Requested(log, event), NewEntry(log.lastSequence + 1, event);
      && next.lastSequence == added.sequence && next.entries != [] && next.entries[|next.entries| - 1] == added
      && Marked(next, added)
  {
    var added := NewEntry(log.lastSequence + 1, event);
    AfterRedirectKeepsInv(log, event);
    var mid := AfterRedirect(log, event).(lastSequence := added.sequence);
    var next := Append(mid, added);
    assert next.entries[|next.entries| - 1] == added;
    assert added in next.entries;
    AppendedPast(mid, added, added);
  }

  /** How many requests of the main frame were sent over the present transport. */
  function Sent(trace: seq<Event>): nat {
    if trace == [] then 0
    else
      var n := |trace| - 1;
      if trace[n].TransportReplaced? then 0 else Sent(trace[..n]) + if WatchedAt(trace, n) then 1 else 0
  }

  lemma OtherEventsKeepNumber(log: Log, event: Event)
    ensures Step(log, event).lastSequence ==
      if event.TransportReplaced? then 0 else log.lastSequence + if Watched(log.mainFrame, event) then 1 else 0
  {
  }

  /** The last number is that of requests of the main frame over the present transport, listed still or not. */
  lemma {:induction false} LastSequenceCounts(trace: seq<Event>)
    ensures Run(trace).lastSequence == Sent(trace)
  {
    if trace != [] {
      var n := |trace| - 1;
      LastSequenceCounts(trace[..n]);
      FrameIsKnown(trace[..n]);
      OtherEventsKeepNumber(Run(trace[..n]), trace[n]);
    }
  }
}
