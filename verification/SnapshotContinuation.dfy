/**
 Paging through an observation while other things happen: every session event may come between two pages
 (packages/browser-core/src/browser-snapshot.ts and browser-query.ts).
 */
module SnapshotContinuation {
  import opened Prelude
  import opened SnapshotStore
  import opened SnapshotAuthority
  import opened SnapshotRuns
  import opened SnapshotLife
  import P = SnapshotPaging

  /** Who may continue a snapshot: an inspect, or an editable query. */
  datatype Kind = Inspecting | Editable

  /**
   An inspect or an editable query publishes a snapshot and returns its first page; a continuation names a snapshot and
   an offset. Anything else is a session event; a commit among them is that of a semantic query, which has no pages.
   */
  datatype Request =
    | Other(event: Event)
    | Publish(kind: Kind, token: nat, id: string, now: int, limit: Option<real>)
    | Continue(kind: Kind, id: string, now: int, offset: Option<real>, limit: Option<real>)

  datatype Answer = NoPage | Stale | KindMismatch | ContinuationMismatch | TooLarge | Delivered(elements: seq<Element>)

  /**
   `kinds` and `cursors` hold who may continue a snapshot and the announced offset; `published` and `delivered` record
   what happened to the list it pages through.
   */
  datatype Chain = Chain(
    session: State, kinds: map<nat, Kind>, cursors: map<nat, Option<nat>>,
    published: map<nat, seq<Element>>, delivered: map<nat, seq<Element>>)

  const START := Chain(INITIAL, map[], map[], map[], map[])

  /**
   What pages depend on besides the lists: the sizes of the pages of a snapshot, by the position of its inspect and its
   elements; which elements can be edited; and the sizes of the printed targets of an editable query.
   */
  datatype View = View(
    measure: (nat, seq<Element>) -> P.Sizes, editable: Element -> bool, targets: (nat, seq<Element>) -> seq<nat>)

  ghost predicate Measures(view: View) {
    && (forall token: nat, list: seq<Element> :: |view.measure(token, list).elements| == |list|)
    && (forall token: nat, list: seq<Element> :: |view.targets(token, list)| == |list|)
  }

  function Underlying(r: Request): Event {
    match r
    case Other(event) => event
    case Publish(_, token, id, now, _) => Commit(token, id, now)
    case Continue(_, id, now, _, _) => Get(id, now)
  }

  // ---- Lists and pages ----

  /** The list that is paged through: all elements, or those that can be edited. */
  function ListOf(view: View, kind: Kind, elements: seq<Element>): seq<Element> {
    match kind
    case Inspecting => elements
    case Editable => Filter(elements, view.editable)
  }

  /** Removing a frame's elements from the snapshot and from its editable list keeps the one the list of the other. */
  lemma EditableListFollows(view: View, elements: seq<Element>, identity: Identity)
    ensures Filter(ListOf(view, Editable, elements), Outside(identity)) ==
            ListOf(view, Editable, Filter(elements, Outside(identity)))
  {
    var both := (e: Element) => view.editable(e) && Outside(identity)(e);
    FilterTwice(elements, view.editable, Outside(identity), both);
    FilterTwice(elements, Outside(identity), view.editable, both);
  }

  ghost function PageSize(view: View, kind: Kind, token: nat, list: seq<Element>, offset: nat,
                          limit: nat): Option<nat> {
    match kind
    case Inspecting => P.InspectPage(view.measure(token, list))(offset, limit)
    case Editable => P.EditablePageSize(view.targets(token, list))(offset, limit)
  }

  /** The page from `offset`; nothing is left beyond the end of the list. */
  ghost function PageOf(view: View, kind: Kind, token: nat, list: seq<Element>, offset: nat,
                        limit: Option<real>): Answer
    requires Measures(view)
  {
    if offset > |list| then Delivered([])
    else
      var count := PageSize(view, kind, token, list, offset, P.PageLimit(limit));
      if count.None? then TooLarge
      else
        PageBounds(view, kind, token, list, offset, P.PageLimit(limit));
        Delivered(list[offset..offset + count.value])
  }

  lemma PageBounds(view: View, kind: Kind, token: nat, list: seq<Element>, offset: nat, limit: nat)
    requires Measures(view) && offset <= |list| && PageSize(view, kind, token, list, offset, limit).Some?
    ensures var count := PageSize(view, kind, token, list, offset, limit).value;
      count <= limit && offset + count <= |list| && (limit > 0 && offset < |list| ==> count > 0)
  {
    if kind.Inspecting? {
      var s := view.measure(token, list);
      var c: nat, t :| P.LargestFitting(s, offset, limit, c, t);
      P.InspectPageIs(s, offset, limit, c, t);
    }
  }

  /** An editable query inspects for a single element first, and has no list when not even that fits on a page. */
  ghost predicate Opens(view: View, kind: Kind, token: nat, elements: seq<Element>)
    requires Measures(view)
  {
    kind.Inspecting? || !PageOf(view, Inspecting, token, elements, 0, Some(1.0)).TooLarge?
  }

  ghost function AnswerTo(view: View, c: Chain, r: Request): Answer
    requires Measures(view)
  {
    match r
    case Other(_) => NoPage
    case Publish(kind, token, _, _, limit) =>
      if !Publishes(c.session, token) then Stale
      else
        var elements := PublishedElements(c.session, token);
        if !Opens(view, kind, token, elements) then TooLarge
        else PageOf(view, kind, token, ListOf(view, kind, elements), 0, limit)
    case Continue(kind, id, now, offset, limit) =>
      var at := Available(c.session, id, now);
      if at.None? then Stale
      else
        var snap := Pruned(c.session, now).snaps[at.value];
        if snap.begunAt !in c.kinds || c.kinds[snap.begunAt] != kind then KindMismatch
        else if snap.begunAt !in c.cursors then Stale
        else if c.cursors[snap.begunAt] != Some(P.PageOffset(offset)) then ContinuationMismatch
        else PageOf(view, kind, snap.begunAt, ListOf(view, kind, snap.elements), P.PageOffset(offset), limit)
  }

  function Advance(c: Chain, token: nat, offset: nat, answer: Answer): Chain
    requires token in c.published && token in c.delivered
  {
    if !answer.Delivered? then c
    else
      var end := offset + |answer.elements|;
      c.(cursors := c.cursors[token := if end < |c.published[token]| then Some(end) else None],
         delivered := c.delivered[token := c.delivered[token] + answer.elements])
  }

  /** A snapshot enters with its kind, and with the list to be paged through. */
  function Entered(c: Chain, kind: Kind, token: nat, list: seq<Element>): Chain {
    c.(kinds := c.kinds[token := kind], cursors := c.cursors[token := Some(0)],
       published := c.published[token := list], delivered := c.delivered[token := []])
  }

  ghost function After(view: View, c: Chain, r: Request): Chain
    requires Measures(view)
  {
    var next := c.(session := Step(c.session, Underlying(r)));
    var answer := AnswerTo(view, c, r);
    match r
    case Other(_) => next
    case Publish(kind, token, _, _, _) =>
      if !Publishes(c.session, token) then next
      else
        var elements := PublishedElements(c.session, token);
        if !Opens(view, kind, token, elements) then next.(kinds := next.kinds[token := kind])
        else Advance(Entered(next, kind, token, ListOf(view, kind, elements)), token, 0, answer)
    case Continue(_, id, now, offset, _) =>
      if !answer.Delivered? then next
      else
        var token := Pruned(c.session, now).snaps[Available(c.session, id, now).value].begunAt;
        if token in c.published && token in c.delivered then Advance(next, token, P.PageOffset(offset), answer)
          else next
  }

  ghost function RunChain(view: View, requests: seq<Request>): Chain
    requires Measures(view)
  {
    if requests == [] then START
    else After(view, RunChain(view, requests[..|requests| - 1]), requests[|requests| - 1])
  }

  function Events(requests: seq<Request>): seq<Event> {
    if requests == [] then [] else Events(requests[..|requests| - 1]) + [Underlying(requests[|requests| - 1])]
  }

  lemma EventsRun(requests: seq<Request>)
    requires requests != []
    ensures var n := |requests| - 1; Run(Events(requests)) == Step(Run(Events(requests[..n])), Underlying(requests[n]))
  {
    var events := Events(requests);
    assert events[..|events| - 1] == Events(requests[..|requests| - 1]);
  }

  lemma AfterIsStep(view: View, c: Chain, r: Request)
    requires Measures(view)
    ensures After(view, c, r).session == Step(c.session, Underlying(r))
  {
  }

  /** Paging is a run of the session: all that is proved about its runs holds here. */
  lemma {:induction false} ChainIsSessionRun(view: View, requests: seq<Request>)
    requires Measures(view)
    ensures RunChain(view, requests).session == Run(Events(requests))
  {
    if requests != [] {
      var n := |requests| - 1;
      ChainIsSessionRun(view, requests[..n]);
      AfterIsStep(view, RunChain(view, requests[..n]), requests[n]);
      EventsRun(requests);
    }
  }

  // ---- Tokens are not used twice ----

  ghost predicate TokensOk(s: State) {
    && (forall t | t in s.inspections :: t < s.steps)
    && (forall snap | snap in s.snaps :: snap.begunAt < s.steps && snap.begunAt !in s.inspections)
  }

  lemma StepTokens(s: State, event: Event)
    requires TokensOk(s) && DistinctIds(s.snaps)
    ensures TokensOk(Step(s, event))
  {
    var next := Step(s, event);
    forall snap | snap in next.snaps ensures snap.begunAt < next.steps && snap.begunAt !in next.inspections {
      StepClosesOrKeeps(s, event, snap);
    }
  }

  // ---- The lists ----

  /** What has been delivered of a list is its beginning, and the cursor says where it ends. */
  ghost predicate CoveredSoFar(c: Chain, token: nat)
    requires token in c.published && token in c.cursors && token in c.delivered
  {
    && c.delivered[token] <= c.published[token]
    && (c.cursors[token].Some? ==> c.cursors[token].value == |c.delivered[token]|)
    && (c.cursors[token].None? ==> c.delivered[token] == c.published[token])
  }

  ghost predicate ListsOk(c: Chain) {
    && c.published.Keys == c.cursors.Keys == c.delivered.Keys && c.published.Keys <= c.kinds.Keys
    && (forall t | t in c.published :: CoveredSoFar(c, t))
    && (forall t | t in c.kinds :: t < c.session.steps && t !in c.session.inspections)
  }

  /** An open snapshot still gives the list that was published. */
  ghost predicate OpenListsOk(view: View, c: Chain) {
    forall snap | snap in c.session.snaps && !snap.invalidated && snap.begunAt in c.published &&
      snap.begunAt in c.kinds ::
      ListOf(view, c.kinds[snap.begunAt], snap.elements) == c.published[snap.begunAt]
  }

  ghost predicate ChainInv(view: View, c: Chain) {
    TokensOk(c.session) && DistinctIds(c.session.snaps) && ListsOk(c) && OpenListsOk(view, c)
  }

  lemma OtherKeepsLists(view: View, c: Chain, event: Event)
    requires ChainInv(view, c)
    ensures var next := c.(session := Step(c.session, event)); ListsOk(next) && OpenListsOk(view, next)
  {
    var next := c.(session := Step(c.session, event));
    forall snap | snap in next.session.snaps && !snap.invalidated && snap.begunAt in next.published
      ensures ListOf(view, next.kinds[snap.begunAt], snap.elements) == next.published[snap.begunAt]
    {
      StepClosesOrKeeps(c.session, event, snap);
    }
    forall t | t in next.published ensures CoveredSoFar(next, t) {
      assert CoveredSoFar(c, t);
    }
  }

  /** The chain once a snapshot is committed; `opens` says whether it has a list. */
  function Committing(view: View, c: Chain, kind: Kind, token: nat, id: string, now: int, opens: bool): Chain
    requires token in c.session.inspections
  {
    var next := c.(session := Step(c.session, Commit(token, id, now)));
    if opens then Entered(next, kind, token, ListOf(view, kind, PublishedElements(c.session, token)))
    else next.(kinds := next.kinds[token := kind])
  }

  lemma PublishKeepsLists(view: View, c: Chain, kind: Kind, token: nat, id: string, now: int, opens: bool)
    requires ChainInv(view, c) && Publishes(c.session, token)
    ensures ListsOk(Committing(view, c, kind, token, id, now, opens))
  {
    var next := Committing(view, c, kind, token, id, now, opens);
    forall t | t in next.published ensures CoveredSoFar(next, t) {
      assert t != token ==> CoveredSoFar(c, t);
    }
  }

  lemma PublishKeepsOpenLists(view: View, c: Chain, kind: Kind, token: nat, id: string, now: int, opens: bool)
    requires ChainInv(view, c) && Publishes(c.session, token)
    ensures OpenListsOk(view, Committing(view, c, kind, token, id, now, opens))
  {
    var next := Committing(view, c, kind, token, id, now, opens);
    forall snap | snap in next.session.snaps && !snap.invalidated && snap.begunAt in next.published &&
      snap.begunAt in next.kinds
      ensures ListOf(view, next.kinds[snap.begunAt], snap.elements) == next.published[snap.begunAt]
    {
      StepClosesOrKeeps(c.session, Commit(token, id, now), snap);
    }
  }

  lemma AdvanceKeepsLists(view: View, c: Chain, token: nat, offset: nat, answer: Answer)
    requires ListsOk(c) && OpenListsOk(view, c) && token in c.published && c.cursors[token] == Some(offset)
    requires answer.Delivered? ==> offset + |answer.elements| <= |c.published[token]|
    requires answer.Delivered? ==> answer.elements == c.published[token][offset..offset + |answer.elements|]
    ensures var next := Advance(c, token, offset, answer); ListsOk(next) && OpenListsOk(view, next)
  {
    var next := Advance(c, token, offset, answer);
    assert CoveredSoFar(c, token);
    forall t | t in next.published ensures CoveredSoFar(next, t) {
      assert CoveredSoFar(c, t);
      assert c.published[token][..offset] == c.delivered[token];
    }
  }

  /** The snapshot a continuation is answered from gives the published list. */
  lemma AvailableIsPublished(view: View, c: Chain, id: string, now: int)
    requires ChainInv(view, c) && Available(c.session, id, now).Some?
    ensures var snap := Pruned(c.session, now).snaps[Available(c.session, id, now).value];
      && snap in c.session.snaps && !snap.invalidated && snap.id == id
      && (snap.begunAt in c.published ==>
            ListOf(view, c.kinds[snap.begunAt], snap.elements) == c.published[snap.begunAt])
  {
    FilterMembers(c.session.snaps, FreshIn(c.session.generation, now));
    var at := Available(c.session, id, now).value;
    assert Pruned(c.session, now).snaps[at] in Pruned(c.session, now).snaps;
  }

  lemma PageOfIsPart(view: View, kind: Kind, token: nat, list: seq<Element>, offset: nat, limit: Option<real>)
    requires Measures(view) && offset <= |list|
    ensures var answer := PageOf(view, kind, token, list, offset, limit);
      answer.Delivered? ==>
        && offset + |answer.elements| <= |list| && answer.elements == list[offset..offset + |answer.elements|]
        && (offset < |list| ==> answer.elements != [])
  {
    if PageSize(view, kind, token, list, offset, P.PageLimit(limit)).Some? {
      PageBounds(view, kind, token, list, offset, P.PageLimit(limit));
    }
  }

  lemma PublishAdvances(view: View, c: Chain, kind: Kind, token: nat, id: string, now: int, limit: Option<real>)
    requires Measures(view) && ChainInv(view, c) && Publishes(c.session, token)
    ensures var next := After(view, c, Publish(kind, token, id, now, limit)); ListsOk(next) && OpenListsOk(view, next)
  {
    var elements := PublishedElements(c.session, token);
    var list, opens := ListOf(view, kind, elements), Opens(view, kind, token, elements);
    var entered := Committing(view, c, kind, token, id, now, opens);
    var answer := PageOf(view, kind, token, list, 0, limit);
    PublishKeepsLists(view, c, kind, token, id, now, opens);
    PublishKeepsOpenLists(view, c, kind, token, id, now, opens);
    AfterPublish(view, c, kind, token, id, now, limit);
    if opens {
      PageOfIsPart(view, kind, token, list, 0, limit);
      AdvanceKeepsLists(view, entered, token, 0, answer);
    }
  }

  lemma AfterPublish(view: View, c: Chain, kind: Kind, token: nat, id: string, now: int, limit: Option<real>)
    requires Measures(view) && Publishes(c.session, token)
    ensures var elements := PublishedElements(c.session, token);
      var entered := Committing(view, c, kind, token, id, now, Opens(view, kind, token, elements));
      After(view, c, Publish(kind, token, id, now, limit)) ==
        if Opens(view, kind, token, elements)
        then Advance(entered, token, 0, PageOf(view, kind, token, ListOf(view, kind, elements), 0, limit)) else entered
  {
  }

  lemma ContinueAdvances(view: View, c: Chain, kind: Kind, id: string, now: int, offset: Option<real>,
                         limit: Option<real>)
    requires Measures(view) && ChainInv(view, c)
    requires AnswerTo(view, c, Continue(kind, id, now, offset, limit)).Delivered?
    ensures var next := After(view, c, Continue(kind, id, now, offset, limit)); ListsOk(next) && OpenListsOk(view, next)
  {
    OtherKeepsLists(view, c, Get(id, now));
    AvailableIsPublished(view, c, id, now);
    var token := Pruned(c.session, now).snaps[Available(c.session, id, now).value].begunAt;
    assert CoveredSoFar(c, token);
    PageOfIsPart(view, kind, token, c.published[token], P.PageOffset(offset), limit);
    AdvanceKeepsLists(view, c.(session := Step(c.session, Get(id, now))), token, P.PageOffset(offset),
                      PageOf(view, kind, token, c.published[token], P.PageOffset(offset), limit));
  }

  lemma AfterKeepsLists(view: View, c: Chain, r: Request)
    requires Measures(view) && ChainInv(view, c)
    ensures ListsOk(After(view, c, r)) && OpenListsOk(view, After(view, c, r))
  {
    OtherKeepsLists(view, c, Underlying(r));
    match r
    case Other(_) =>
    case Publish(kind, token, id, now, limit) =>
      if Publishes(c.session, token) {
        PublishAdvances(view, c, kind, token, id, now, limit);
      }
    case Continue(kind, id, now, offset, limit) =>
      if AnswerTo(view, c, r).Delivered? {
        ContinueAdvances(view, c, kind, id, now, offset, limit);
      }
  }

  lemma AfterKeepsInv(view: View, c: Chain, r: Request)
    requires Measures(view) && ChainInv(view, c) && DistinctIds(Step(c.session, Underlying(r)).snaps)
    ensures ChainInv(view, After(view, c, r))
  {
    StepTokens(c.session, Underlying(r));
    AfterIsStep(view, c, r);
    AfterKeepsLists(view, c, r);
  }

  lemma {:induction false} ChainKeepsInv(view: View, requests: seq<Request>)
    requires Measures(view)
    ensures ChainInv(view, RunChain(view, requests))
  {
    if requests != [] {
      var n := |requests| - 1;
      var c := RunChain(view, requests[..n]);
      ChainKeepsInv(view, requests[..n]);
      ChainIsSessionRun(view, requests[..n]);
      EventsRun(requests);
      RunKeepsInv(Events(requests));
      AfterKeepsInv(view, c, requests[n]);
    }
  }

  // ---- Main results ----

  /**
   However navigations, frame events, mutations, other inspects, expiry and eviction come between the pages of an
   inspect or of an editable query: what has been delivered of a published list is its beginning, each element once and
   in order; the announced offset is where it ends; and when no offset is announced the whole list has been delivered.
   */
  lemma DeliveredOnceUnderInterference(view: View, requests: seq<Request>, token: nat)
    requires Measures(view) && token in RunChain(view, requests).published
    ensures var c := RunChain(view, requests);
      && token in c.kinds && token in c.cursors && token in c.delivered
      && c.delivered[token] <= c.published[token]
      && c.cursors[token] in {None, Some(|c.delivered[token]|)}
      && (c.cursors[token].None? ==> c.delivered[token] == c.published[token])
  {
    ChainKeepsInv(view, requests);
    assert CoveredSoFar(RunChain(view, requests), token);
  }

  /** The answer to a continuation of the snapshot begun at `token`, from the list it was published with. */
  ghost function AnswerFrom(view: View, c: Chain, kind: Kind, token: nat, offset: nat, limit: Option<real>): Answer
    requires Measures(view) && c.cursors.Keys == c.published.Keys
  {
    if token !in c.kinds || c.kinds[token] != kind then KindMismatch
    else if token !in c.published then Stale
    else if c.cursors[token] != Some(offset) then ContinuationMismatch
    else PageOf(view, kind, token, c.published[token], offset, limit)
  }

  /**
   A continuation is refused as stale when its snapshot is gone, expired or closed. Otherwise it is answered from the
   list that was published, whatever has happened since, if it is of the right kind and names the announced offset.
   */
  lemma ContinuationIsStaleOrFromPublished(view: View, requests: seq<Request>, kind: Kind, id: string, now: int,
                                           offset: Option<real>, limit: Option<real>)
    requires Measures(view)
    ensures var c := RunChain(view, requests);
      var at, answer := Available(c.session, id, now), AnswerTo(view, c, Continue(kind, id, now, offset, limit));
      && c.cursors.Keys == c.published.Keys
      && (at.None? ==> answer.Stale?)
      && (at.Some? ==>
            var token := Pruned(c.session, now).snaps[at.value].begunAt;
            answer == AnswerFrom(view, c, kind, token, P.PageOffset(offset), limit))
  {
    ChainKeepsInv(view, requests);
    var c := RunChain(view, requests);
    if Available(c.session, id, now).Some? {
      AvailableIsPublished(view, c, id, now);
    }
  }

  /** As many elements as fit with or without the tree, or the explicit error when not one does. */
  ghost predicate FillsInspectPage(sizes: P.Sizes, offset: nat, limit: nat, answer: Answer)
    requires offset <= |sizes.elements|
  {
    && (answer.TooLarge? || answer.Delivered?)
    && (answer.TooLarge? <==> P.NothingFits(sizes, offset, limit))
    && (answer.Delivered? ==> exists tree: bool :: P.LargestFitting(sizes, offset, limit, |answer.elements|, tree))
  }

  /** As many targets as fit, and one even if it does not; never an error. */
  ghost predicate FillsEditablePage(targets: seq<nat>, limit: nat, answer: Answer) {
    && answer.Delivered? && |answer.elements| <= limit && |answer.elements| <= |targets|
    && (|answer.elements| > 1 ==> P.TargetsFit(targets[..|answer.elements|]))
    && forall n | |answer.elements| < n <= limit && n <= |targets| :: !P.TargetsFit(targets[..n])
  }

  /** `answer` continues `list` after `had`, by at least one element while any are left. */
  ghost predicate Extends(list: seq<Element>, had: seq<Element>, answer: Answer) {
    answer.Delivered? ==> had + answer.elements <= list && (|had| < |list| ==> answer.elements != [])
  }

  lemma InspectPageIsFilled(view: View, token: nat, list: seq<Element>, offset: nat, limit: Option<real>)
    requires Measures(view) && offset <= |list|
    ensures |view.measure(token, list).elements| == |list|
    ensures FillsInspectPage(view.measure(token, list), offset, P.PageLimit(limit),
                             PageOf(view, Inspecting, token, list, offset, limit))
  {
    var sizes, asked := view.measure(token, list), P.PageLimit(limit);
    var answer := PageOf(view, Inspecting, token, list, offset, limit);
    P.FailsIffNothingFits(sizes, offset, asked);
    PageOfIsPart(view, Inspecting, token, list, offset, limit);
    if answer.Delivered? {
      var c: nat, t :| P.LargestFitting(sizes, offset, asked, c, t);
      P.InspectPageIs(sizes, offset, asked, c, t);
      assert P.LargestFitting(sizes, offset, asked, |answer.elements|, t);
    }
  }

  lemma EditablePageIsFilled(view: View, token: nat, list: seq<Element>, offset: nat, limit: Option<real>)
    requires Measures(view) && offset <= |list|
    ensures |view.targets(token, list)| == |list|
    ensures FillsEditablePage(view.targets(token, list)[offset..], P.PageLimit(limit),
                              PageOf(view, Editable, token, list, offset, limit))
  {
    var rest, asked := view.targets(token, list)[offset..], P.PageLimit(limit);
    PageBounds(view, Editable, token, list, offset, asked);
    forall n | P.TargetCount(rest, asked) < n <= asked && n <= |rest| ensures !P.TargetsFit(rest[..n]) {
      P.TargetCountIsLargest(rest, asked, n);
    }
  }

  /** `answer` is the next page of `list` after `had`, as full as a page of its kind may be. */
  ghost predicate IsNextPage(view: View, kind: Kind, token: nat, list: seq<Element>, had: seq<Element>, limit: nat,
                             answer: Answer)
    requires Measures(view) && |had| <= |list|
  {
    && Extends(list, had, answer)
    && match kind
       case Inspecting => FillsInspectPage(view.measure(token, list), |had|, limit, answer)
       case Editable => FillsEditablePage(view.targets(token, list)[|had|..], limit, answer)
  }

  lemma PageOfIsNext(view: View, kind: Kind, token: nat, list: seq<Element>, had: seq<Element>, limit: Option<real>)
    requires Measures(view) && had <= list
    ensures IsNextPage(view, kind, token, list, had, P.PageLimit(limit), PageOf(view, kind, token, list, |had|, limit))
  {
    PageOfIsPart(view, kind, token, list, |had|, limit);
    match kind
    case Inspecting => InspectPageIsFilled(view, token, list, |had|, limit);
    case Editable => EditablePageIsFilled(view, token, list, |had|, limit);
  }

  /** At the announced offset the next page of the published list is returned, or for an inspect the explicit error. */
  lemma AnnouncedOffsetGetsNextPage(view: View, requests: seq<Request>, token: nat, offset: nat, limit: Option<real>)
    requires Measures(view) && token in RunChain(view, requests).published
    requires token in RunChain(view, requests).cursors && RunChain(view, requests).cursors[token] == Some(offset)
    ensures var c := RunChain(view, requests);
      && token in c.kinds && token in c.delivered && |c.delivered[token]| == offset <= |c.published[token]|
      && IsNextPage(view, c.kinds[token], token, c.published[token], c.delivered[token], P.PageLimit(limit),
                    PageOf(view, c.kinds[token], token, c.published[token], offset, limit))
  {
    DeliveredOnceUnderInterference(view, requests, token);
    var c := RunChain(view, requests);
    PageOfIsNext(view, c.kinds[token], token, c.published[token], c.delivered[token], limit);
  }

  // ---- What is recorded is what was answered ----

  /** The snapshot that a request pages through. */
  function PagedToken(c: Chain, r: Request): Option<nat> {
    match r
    case Other(_) => None
    case Publish(_, token, _, _, _) => if Publishes(c.session, token) then Some(token) else None
    case Continue(_, id, now, _, _) =>
      var at := Available(c.session, id, now);
      if at.None? then None else Some(Pruned(c.session, now).snaps[at.value].begunAt)
  }

  ghost predicate SameLists(a: Chain, b: Chain, token: nat) {
    && (token in a.published <==> token in b.published) && (token in a.cursors <==> token in b.cursors)
    && (token in a.delivered <==> token in b.delivered)
    && (token in a.published ==> a.published[token] == b.published[token])
    && (token in a.cursors ==> a.cursors[token] == b.cursors[token])
    && (token in a.delivered ==> a.delivered[token] == b.delivered[token])
  }

  /** A page that was delivered is recorded at its end, and the next offset is announced while anything is left. */
  ghost predicate Recorded(next: Chain, token: nat, list: seq<Element>, had: seq<Element>, page: seq<Element>) {
    && token in next.published && token in next.delivered && token in next.cursors
    && next.published[token] == list
    && next.delivered[token] == had + page
    && (next.cursors[token] == if |had + page| < |list| then Some(|had + page|) else None)
  }

  lemma RunOneMore(view: View, requests: seq<Request>, r: Request)
    requires Measures(view)
    ensures RunChain(view, requests + [r]) == After(view, RunChain(view, requests), r)
  {
    assert (requests + [r])[..|requests|] == requests;
  }

  /** The first page belongs to the list of its kind, from what the inspect publishes. */
  lemma FirstPageIsRecorded(view: View, requests: seq<Request>, kind: Kind, token: nat, id: string, now: int,
                            limit: Option<real>)
    requires Measures(view)
    ensures var c, r := RunChain(view, requests), Publish(kind, token, id, now, limit);
      var next, answer := RunChain(view, requests + [r]), AnswerTo(view, c, r);
      && (answer.Delivered? ==>
            && Publishes(c.session, token) && token in next.kinds && next.kinds[token] == kind
            && Recorded(next, token, ListOf(view, kind, PublishedElements(c.session, token)), [], answer.elements))
      && (Publishes(c.session, token) <==> !answer.Stale?)
  {
    RunOneMore(view, requests, Publish(kind, token, id, now, limit));
  }

  /** A continuation that is answered carries on where the pages before it ended. */
  lemma NextPageIsRecorded(view: View, requests: seq<Request>, kind: Kind, id: string, now: int, offset: Option<real>,
                           limit: Option<real>)
    requires Measures(view)
    ensures var c, r := RunChain(view, requests), Continue(kind, id, now, offset, limit);
      var next, answer, token := RunChain(view, requests + [r]), AnswerTo(view, c, r), PagedToken(c, r);
      answer.Delivered? ==>
        && token.Some? && token.value in c.published && token.value in c.delivered
        && Recorded(next, token.value, c.published[token.value], c.delivered[token.value], answer.elements)
  {
    RunOneMore(view, requests, Continue(kind, id, now, offset, limit));
    ChainKeepsInv(view, requests);
    var c := RunChain(view, requests);
    if AnswerTo(view, c, Continue(kind, id, now, offset, limit)).Delivered? {
      ContinueRecords(view, c, kind, id, now, offset, limit);
    }
  }

  lemma AdvanceRecords(c: Chain, token: nat, offset: nat, answer: Answer)
    requires token in c.published && token in c.delivered && |c.delivered[token]| == offset && answer.Delivered?
    ensures Recorded(Advance(c, token, offset, answer), token, c.published[token], c.delivered[token], answer.elements)
  {
  }

  lemma ContinueRecords(view: View, c: Chain, kind: Kind, id: string, now: int, offset: Option<real>,
                        limit: Option<real>)
    requires Measures(view) && ListsOk(c) && AnswerTo(view, c, Continue(kind, id, now, offset, limit)).Delivered?
    ensures var r := Continue(kind, id, now, offset, limit);
      var answer, token := AnswerTo(view, c, r), PagedToken(c, r);
      && token.Some? && token.value in c.published && token.value in c.delivered
      && Recorded(After(view, c, r), token.value, c.published[token.value], c.delivered[token.value], answer.elements)
  {
    var r := Continue(kind, id, now, offset, limit);
    var token := PagedToken(c, r).value;
    assert CoveredSoFar(c, token);
    var next := c.(session := Step(c.session, Get(id, now)));
    AdvanceRecords(next, token, P.PageOffset(offset), AnswerTo(view, c, r));
  }

  /** A request changes the lists of the snapshot it pages through only, and those only when it delivers a page. */
  lemma OtherListsStay(view: View, requests: seq<Request>, r: Request, token: nat)
    requires Measures(view)
    requires PagedToken(RunChain(view, requests), r) != Some(token) ||
      (r.Continue? && !AnswerTo(view, RunChain(view, requests), r).Delivered?)
    ensures SameLists(RunChain(view, requests), RunChain(view, requests + [r]), token)
  {
    RunOneMore(view, requests, r);
  }

  /**
   Whatever has happened since it was published: a snapshot that is still stored, unexpired and open is continued at
   its announced offset with the next page of the list as it was published.
   */
  lemma OpenSnapshotIsContinued(view: View, requests: seq<Request>, snap: Snap, now: int, offset: nat,
                                limit: Option<real>)
    requires Measures(view) && MayContinue(Events(requests), snap.id, now, snap)
    requires snap.begunAt in RunChain(view, requests).published
    requires snap.begunAt in RunChain(view, requests).cursors &&
      RunChain(view, requests).cursors[snap.begunAt] == Some(offset)
    ensures var c, token := RunChain(view, requests), snap.begunAt;
      && token in c.kinds && token in c.delivered && c.delivered[token] <= c.published[token]
      && IsNextPage(view, c.kinds[token], token, c.published[token], c.delivered[token], P.PageLimit(limit),
                    AnswerTo(view, c, Continue(c.kinds[token], snap.id, now, Some(offset as real), limit)))
  {
    var c, token := RunChain(view, requests), snap.begunAt;
    DeliveredOnceUnderInterference(view, requests, token);
    AnnouncedOffsetGetsNextPage(view, requests, token, offset, limit);
    ContinuationIsStaleOrFromPublished(view, requests, c.kinds[token], snap.id, now, Some(offset as real), limit);
    ChainIsSessionRun(view, requests);
    AvailableIff(Events(requests), snap.id, now);
    OnlyOneMayContinue(Events(requests), snap.id, now, snap,
                       Pruned(c.session, now).snaps[Available(c.session, snap.id, now).value]);
  }
}
