/**
 Where each source leaves its mark on the fused page: DOM nodes, layout records, accessibility nodes and interactive
 elements all end up at the key they name (packages/browser-core/src/browser-semantic-registry.ts).
 */
module SemanticFusion {
  import opened Prelude
  import opened SemanticRegistry
  import opened SemanticParents

  // ---- Which node a backend id stands for ----

  ghost predicate CarriesId(r: Registry, b: nat, k: string) {
    k in r.nodes && r.nodes[k].backendNodeId == Some(b)
  }

  ghost predicate OnlyCarrier(r: Registry, b: nat, k: string) {
    CarriesId(r, b, k) && forall j :: CarriesId(r, b, j) ==> j == k
  }

  /** The node of the frame itself, else the only one of that id, else the main frame's, else a new one of the frame. */
  ghost predicate StandsFor(r: Registry, b: nat, frame: Option<string>, k: string) {
    var own := CanonicalKey(OrElse(frame, r.main), b);
    if frame.Some? && frame.value != "" && own in r.nodes then k == own
    else if exists only :: OnlyCarrier(r, b, only) then OnlyCarrier(r, b, k)
    else if CarriesId(r, b, CanonicalKey(r.main, b)) then k == CanonicalKey(r.main, b)
    else k == own
  }

  lemma StandsForOne(r: Registry, b: nat, frame: Option<string>, k: string, j: string)
    requires StandsFor(r, b, frame, k) && StandsFor(r, b, frame, j)
    ensures k == j
  {
  }

  lemma CarriersAre(r: Registry, b: nat)
    ensures forall k :: k in Carriers(r, b) <==> CarriesId(r, b, k)
  {
  }

  lemma OnlyCarrierIff(r: Registry, b: nat, k: string)
    ensures OnlyCarrier(r, b, k) <==> Carriers(r, b) == {k}
  {
    CarriersAre(r, b);
    if Carriers(r, b) == {k} {
      assert k in Carriers(r, b);
    }
  }

  lemma SingleIs(keys: set<string>) returns (k: string)
    requires |keys| == 1
    ensures keys == {k}
  {
    k :| k in keys;
    assert |keys - {k}| == 0;
    assert keys == {k} + (keys - {k});
  }

  /** Resolving a backend id, and falling back on the canonical key, gives exactly the key it stands for. */
  lemma ResolvesToStandsFor(r: Registry, b: nat, frame: Option<string>)
    ensures StandsFor(r, b, frame, OrElse(ResolveKey(r, b, frame), CanonicalKey(OrElse(frame, r.main), b)))
  {
    var carriers := Carriers(r, b);
    CarriersAre(r, b);
    if |carriers| == 1 {
      var only := SingleIs(carriers);
      OnlyCarrierIff(r, b, only);
    } else if only :| OnlyCarrier(r, b, only) {
      OnlyCarrierIff(r, b, only);
    }
  }

  /** What an id stands for depends on the keys and the ids that the nodes carry, and on nothing else. */
  lemma StandsForSame(r: Registry, s: Registry, b: nat, frame: Option<string>, k: string)
    requires s.main == r.main && StandsFor(r, b, frame, k)
    requires forall j :: CarriesId(s, b, j) <==> CarriesId(r, b, j)
    requires frame.Some? ==>
      (CanonicalKey(frame.value, b) in s.nodes <==> CanonicalKey(frame.value, b) in r.nodes)
    ensures StandsFor(s, b, frame, k)
  {
    forall j ensures OnlyCarrier(s, b, j) <==> OnlyCarrier(r, b, j) {
    }
  }

  // ---- The DOM ----

  function KeySet(keys: seq<string>): set<string> {
    set k | k in keys
  }

  lemma KeySetPlus(a: seq<string>, b: seq<string>)
    ensures KeySet(a + b) == KeySet(a) + KeySet(b)
  {
  }

  function DocumentKeys(node: DomNode, frameId: string): seq<string> {
    if node.contentDocument.None? then []
    else DomKeys(node.contentDocument.value, OrElse(node.contentDocument.value.frameId, frameId))
  }

  function VisitDocument(r: Registry, node: DomNode, frameId: string, key: string): Registry {
    if node.contentDocument.None? then r
    else VisitDom(r, node.contentDocument.value, OrElse(node.contentDocument.value.frameId, frameId), Some(key))
  }

  /** The children, then the shadow roots, then the content document. */
  function VisitBelow(r: Registry, node: DomNode, frameId: string, key: string): Registry {
    VisitRoots(VisitAll(r, node.children, frameId, Some(key)), node, frameId, key)
  }

  function VisitRoots(r: Registry, node: DomNode, frameId: string, key: string): Registry {
    VisitDocument(VisitAll(r, node.shadowRoots, frameId, Some(key)), node, frameId, key)
  }

  /** The visit of a node and its keys, part by part. */
  lemma VisitUnfolds(r: Registry, node: DomNode, inherited: string, parent: Option<string>)
    ensures var frameId, key := OrElse(node.frameId, inherited), DomKey(node, inherited);
      && VisitDom(r, node, inherited, parent) ==
           VisitBelow(NoteDom(r, node, inherited, parent), node, frameId, key)
      && DomKeys(node, inherited) ==
           [key] + (AllDomKeys(node.children, frameId) +
                    (AllDomKeys(node.shadowRoots, frameId) + DocumentKeys(node, frameId)))
  {
  }

  lemma KeySetPlus4(a: seq<string>, b: seq<string>, c: seq<string>, d: seq<string>)
    ensures KeySet(a + (b + (c + d))) == KeySet(a) + KeySet(b) + KeySet(c) + KeySet(d)
  {
  }

  /** Every node of a DOM tree is registered, and nothing else. */
  lemma {:induction false} VisitRegisters(r: Registry, node: DomNode, inherited: string, parent: Option<string>)
    ensures VisitDom(r, node, inherited, parent).nodes.Keys == r.nodes.Keys + KeySet(DomKeys(node, inherited))
    decreases node, 2
  {
    var frameId, key := OrElse(node.frameId, inherited), DomKey(node, inherited);
    VisitUnfolds(r, node, inherited, parent);
    BelowRegisters(NoteDom(r, node, inherited, parent), node, frameId, key);
    KeySetPlus4([key], AllDomKeys(node.children, frameId), AllDomKeys(node.shadowRoots, frameId),
                DocumentKeys(node, frameId));
  }

  lemma {:induction false} BelowRegisters(r: Registry, node: DomNode, frameId: string, key: string)
    ensures VisitBelow(r, node, frameId, key).nodes.Keys ==
      r.nodes.Keys + KeySet(AllDomKeys(node.children, frameId)) + KeySet(AllDomKeys(node.shadowRoots, frameId)) +
      KeySet(DocumentKeys(node, frameId))
    decreases node, 1
  {
    var r2 := VisitAll(r, node.children, frameId, Some(key));
    var r3 := VisitAll(r2, node.shadowRoots, frameId, Some(key));
    VisitAllRegisters(r, node.children, frameId, Some(key));
    VisitAllRegisters(r2, node.shadowRoots, frameId, Some(key));
    if node.contentDocument.Some? {
      VisitRegisters(r3, node.contentDocument.value, OrElse(node.contentDocument.value.frameId, frameId), Some(key));
    }
  }

  lemma {:induction false} VisitAllRegisters(r: Registry, nodes: seq<DomNode>, inherited: string,
                                             parent: Option<string>)
    ensures VisitAll(r, nodes, inherited, parent).nodes.Keys == r.nodes.Keys + KeySet(AllDomKeys(nodes, inherited))
    decreases nodes, 1
  {
    if nodes != [] {
      VisitRegisters(r, nodes[0], inherited, parent);
      VisitAllRegisters(VisitDom(r, nodes[0], inherited, parent), nodes[1..], inherited, parent);
      KeySetPlus(DomKeys(nodes[0], inherited), AllDomKeys(nodes[1..], inherited));
    }
  }

  /** After the DOM phase exactly the old nodes and those of the tree are registered, whatever keys repeat. */
  lemma DomIsRegistered(r: Registry, root: DomNode, k: string)
    ensures k in AddDomTree(r, root).nodes <==> k in r.nodes || k in DomKeys(root, OrElse(root.frameId, r.main))
  {
    VisitRegisters(r, root, OrElse(root.frameId, r.main), None);
  }

  /** The node is held at its key with its own data, under the key `parent`; so is everything below it. */
  ghost predicate Placed(s: Registry, node: DomNode, inherited: string, parent: Option<string>)
    decreases node, 0
  {
    var frameId, key := OrElse(node.frameId, inherited), DomKey(node, inherited);
    && HeldUnder(s, node, key, frameId, parent)
    && AllPlaced(s, node.children, frameId, Some(key)) && AllPlaced(s, node.shadowRoots, frameId, Some(key))
    && (node.contentDocument.Some? ==>
          Placed(s, node.contentDocument.value, OrElse(node.contentDocument.value.frameId, frameId), Some(key)))
  }

  ghost predicate AllPlaced(s: Registry, nodes: seq<DomNode>, inherited: string, parent: Option<string>)
    decreases nodes, 1
  {
    forall n | n in nodes :: Placed(s, n, inherited, parent)
  }

  ghost predicate HeldUnder(s: Registry, node: DomNode, key: string, frameId: string, parent: Option<string>) {
    && key in s.nodes && s.nodes[key].dom == Some(node) && s.nodes[key].domParentKey == parent
    && s.nodes[key].frameId == frameId && s.nodes[key].backendNodeId == Some(node.backendNodeId)
  }

  /** Old nodes stay, with what the DOM and the keys say about them. */
  ghost predicate KeepsDom(r: Registry, s: Registry) {
    forall k | k in r.nodes :: k in s.nodes
      && s.nodes[k].dom == r.nodes[k].dom && s.nodes[k].domParentKey == r.nodes[k].domParentKey
      && s.nodes[k].frameId == r.nodes[k].frameId && s.nodes[k].backendNodeId == r.nodes[k].backendNodeId
  }

  lemma {:induction false} PlacedStays(r: Registry, s: Registry, node: DomNode, inherited: string,
                                       parent: Option<string>)
    requires KeepsDom(r, s) && Placed(r, node, inherited, parent)
    ensures Placed(s, node, inherited, parent)
    decreases node, 0
  {
    var frameId, key := OrElse(node.frameId, inherited), Some(DomKey(node, inherited));
    AllPlacedStays(r, s, node.children, frameId, key);
    AllPlacedStays(r, s, node.shadowRoots, frameId, key);
    if node.contentDocument.Some? {
      PlacedStays(r, s, node.contentDocument.value, OrElse(node.contentDocument.value.frameId, frameId), key);
    }
  }

  lemma {:induction false} AllPlacedStays(r: Registry, s: Registry, nodes: seq<DomNode>, inherited: string,
                                          parent: Option<string>)
    requires KeepsDom(r, s) && AllPlaced(r, nodes, inherited, parent)
    ensures AllPlaced(s, nodes, inherited, parent)
    decreases nodes, 1
  {
    forall n | n in nodes ensures Placed(s, n, inherited, parent) {
      PlacedStays(r, s, n, inherited, parent);
    }
  }

  ghost predicate Unused(r: Registry, keys: seq<string>) {
    Distinct(keys) && forall k | k in keys :: k !in r.nodes
  }

  /** Old nodes stay as they are, and the new ones are listed after them in the order of `keys`. */
  ghost predicate Appends(r: Registry, s: Registry, keys: seq<string>) {
    && s.main == r.main && s.order == r.order + keys
    && s.nodes.Keys == r.nodes.Keys + KeySet(keys)
    && forall k | k in r.nodes :: s.nodes[k] == r.nodes[k]
  }

  lemma AppendsMore(r: Registry, s: Registry, t: Registry, a: seq<string>, b: seq<string>)
    requires Appends(r, s, a) && Appends(s, t, b)
    ensures Appends(r, t, a + b)
  {
    KeySetPlus(a, b);
    assert r.order + (a + b) == (r.order + a) + b;
    forall k | k in r.nodes ensures t.nodes[k] == r.nodes[k] {
      assert k in s.nodes;
    }
  }

  lemma UnusedParts(r: Registry, s: Registry, a: seq<string>, b: seq<string>)
    requires Unused(r, a + b)
    ensures Unused(r, a)
    ensures Appends(r, s, a) ==> Unused(s, b)
  {
    DistinctParts(a, b);
    assert forall k | k in a :: k in a + b;
    assert forall k | k in b :: k in a + b;
  }

  lemma NotePlaces(r: Registry, node: DomNode, inherited: string, parent: Option<string>)
    requires DomKey(node, inherited) !in r.nodes && (parent.Some? ==> parent.value in r.nodes)
    ensures var s, key := NoteDom(r, node, inherited, parent), DomKey(node, inherited);
      Appends(r, s, [key]) && HeldUnder(s, node, key, OrElse(node.frameId, inherited), parent)
  {
  }

  lemma {:induction false} VisitPlaces(r: Registry, node: DomNode, inherited: string, parent: Option<string>)
    requires Unused(r, DomKeys(node, inherited)) && (parent.Some? ==> parent.value in r.nodes)
    ensures var s := VisitDom(r, node, inherited, parent);
      Appends(r, s, DomKeys(node, inherited)) && Placed(s, node, inherited, parent)
    decreases node, 2
  {
    var frameId, key := OrElse(node.frameId, inherited), DomKey(node, inherited);
    var below := AllDomKeys(node.children, frameId) +
                 (AllDomKeys(node.shadowRoots, frameId) + DocumentKeys(node, frameId));
    var noted, s := NoteDom(r, node, inherited, parent), VisitDom(r, node, inherited, parent);
    VisitUnfolds(r, node, inherited, parent);
    UnusedParts(r, noted, [key], below);
    assert [key][0] == key && key in [key];
    NotePlaces(r, node, inherited, parent);
    BelowPlaces(noted, node, frameId, key);
    AppendsMore(r, noted, s, [key], below);
  }

  lemma {:induction false} BelowPlaces(r: Registry, node: DomNode, frameId: string, key: string)
    requires key in r.nodes
    requires Unused(r, AllDomKeys(node.children, frameId) +
                       (AllDomKeys(node.shadowRoots, frameId) + DocumentKeys(node, frameId)))
    ensures var s := VisitBelow(r, node, frameId, key);
      && Appends(r, s, AllDomKeys(node.children, frameId) +
                       (AllDomKeys(node.shadowRoots, frameId) + DocumentKeys(node, frameId)))
      && AllPlaced(s, node.children, frameId, Some(key)) && AllPlaced(s, node.shadowRoots, frameId, Some(key))
      && DocumentPlaced(s, node, frameId, key)
    decreases node, 1
  {
    var children := AllDomKeys(node.children, frameId);
    var rest := AllDomKeys(node.shadowRoots, frameId) + DocumentKeys(node, frameId);
    var visited := VisitAll(r, node.children, frameId, Some(key));
    var s := VisitRoots(visited, node, frameId, key);
    UnusedParts(r, visited, children, rest);
    VisitAllPlaces(r, node.children, frameId, Some(key));
    RootsPlace(visited, node, frameId, key);
    AppendsMore(r, visited, s, children, rest);
    AllPlacedStays(visited, s, node.children, frameId, Some(key));
  }

  lemma {:induction false} RootsPlace(r: Registry, node: DomNode, frameId: string, key: string)
    requires key in r.nodes && Unused(r, AllDomKeys(node.shadowRoots, frameId) + DocumentKeys(node, frameId))
    ensures var s := VisitRoots(r, node, frameId, key);
      && Appends(r, s, AllDomKeys(node.shadowRoots, frameId) + DocumentKeys(node, frameId))
      && AllPlaced(s, node.shadowRoots, frameId, Some(key)) && DocumentPlaced(s, node, frameId, key)
    decreases node, 0
  {
    var roots := AllDomKeys(node.shadowRoots, frameId);
    var visited := VisitAll(r, node.shadowRoots, frameId, Some(key));
    var s := VisitDocument(visited, node, frameId, key);
    UnusedParts(r, visited, roots, DocumentKeys(node, frameId));
    VisitAllPlaces(r, node.shadowRoots, frameId, Some(key));
    if node.contentDocument.Some? {
      VisitPlaces(visited, node.contentDocument.value, OrElse(node.contentDocument.value.frameId, frameId), Some(key));
    }
    AppendsMore(r, visited, s, roots, DocumentKeys(node, frameId));
    AllPlacedStays(visited, s, node.shadowRoots, frameId, Some(key));
  }

  ghost predicate DocumentPlaced(s: Registry, node: DomNode, frameId: string, key: string) {
    node.contentDocument.Some? ==>
      Placed(s, node.contentDocument.value, OrElse(node.contentDocument.value.frameId, frameId), Some(key))
  }

  lemma {:induction false} VisitAllPlaces(r: Registry, nodes: seq<DomNode>, inherited: string, parent: Option<string>)
    requires Unused(r, AllDomKeys(nodes, inherited)) && (parent.Some? ==> parent.value in r.nodes)
    ensures var s := VisitAll(r, nodes, inherited, parent);
      Appends(r, s, AllDomKeys(nodes, inherited)) && AllPlaced(s, nodes, inherited, parent)
    decreases nodes, 1
  {
    if nodes == [] {
    } else {
      var first, rest := DomKeys(nodes[0], inherited), AllDomKeys(nodes[1..], inherited);
      var s := VisitDom(r, nodes[0], inherited, parent);
      var t := VisitAll(s, nodes[1..], inherited, parent);
      UnusedParts(r, s, first, rest);
      VisitPlaces(r, nodes[0], inherited, parent);
      VisitAllPlaces(s, nodes[1..], inherited, parent);
      AppendsMore(r, s, t, first, rest);
      PlacedStays(s, t, nodes[0], inherited, parent);
      AllPlacedCons(t, nodes, inherited, parent);
    }
  }

  lemma AllPlacedCons(s: Registry, nodes: seq<DomNode>, inherited: string, parent: Option<string>)
    requires nodes != [] && Placed(s, nodes[0], inherited, parent) && AllPlaced(s, nodes[1..], inherited, parent)
    ensures AllPlaced(s, nodes, inherited, parent)
  {
    assert nodes == [nodes[0]] + nodes[1..];
  }

  /** With distinct keys every DOM node is held at its own key under that of the node above it, in document order. */
  lemma DomIsPlaced(r: Registry, root: DomNode)
    requires Unused(r, DomKeys(root, OrElse(root.frameId, r.main)))
    ensures var s, inherited := AddDomTree(r, root), OrElse(root.frameId, r.main);
      Appends(r, s, DomKeys(root, inherited)) && Placed(s, root, inherited, None)
  {
    VisitPlaces(r, root, OrElse(root.frameId, r.main), None);
  }

  // ---- One mark of a source ----

  /** The node at `k`, or the new one there. */
  function NodeAt(r: Registry, k: string, frameId: string, b: Option<nat>): Node {
    if k in r.nodes then r.nodes[k] else Fresh(k, frameId, b)
  }

  /** The node at `k` is changed or added, listed last if new; no other node is touched. */
  ghost predicate Marks(r: Registry, s: Registry, k: string, node: Node) {
    && s.main == r.main && s.nodes.Keys == r.nodes.Keys + {k} && s.nodes[k] == node
    && s.order == r.order + (if k in r.nodes then [] else [k])
    && forall j | j in r.nodes && j != k :: s.nodes[j] == r.nodes[j]
  }

  /** Old nodes stay in place, and on all nodes only layouts, or accessibility, or targets are new. */
  ghost predicate Grows(r: Registry, s: Registry) {
    s.main == r.main && r.order <= s.order && r.nodes.Keys <= s.nodes.Keys
  }

  function Base(r: Registry, k: string, node: Node): Node {
    NodeAt(r, k, node.frameId, node.backendNodeId)
  }

  ghost predicate OnlyLayouts(r: Registry, s: Registry) {
    Grows(r, s) && forall k | k in s.nodes :: s.nodes[k] == Base(r, k, s.nodes[k]).(layout := s.nodes[k].layout)
  }

  ghost predicate OnlyNoted(r: Registry, s: Registry) {
    Grows(r, s) && forall k | k in s.nodes :: s.nodes[k] == Base(r, k, s.nodes[k]).(ax := s.nodes[k].ax)
  }

  ghost predicate OnlyAx(r: Registry, s: Registry) {
    && Grows(r, s)
    && forall k | k in s.nodes ::
      s.nodes[k] == Base(r, k, s.nodes[k]).(ax := s.nodes[k].ax, axParentKey := s.nodes[k].axParentKey)
  }

  ghost predicate OnlyTargets(r: Registry, s: Registry) {
    && Grows(r, s)
    && forall k | k in s.nodes ::
      s.nodes[k] ==
        Base(r, k, s.nodes[k]).(target := s.nodes[k].target, semanticSourceKey := s.nodes[k].semanticSourceKey)
  }

  // ---- Layout ----

  ghost predicate RecordKey(r: Registry, record: Record, k: string) {
    StandsFor(r, record.backendNodeId, record.layout.frameId, k)
  }

  function Laid(r: Registry, record: Record, k: string): Node {
    NodeAt(r, k, OrElse(record.layout.frameId, r.main), Some(record.backendNodeId)).(layout := Some(record.layout))
  }

  lemma RecordMarks(r: Registry, record: Record) returns (k: string)
    ensures RecordKey(r, record, k) && Marks(r, AddRecord(r, record), k, Laid(r, record, k))
  {
    var b, frame := record.backendNodeId, record.layout.frameId;
    ResolvesToStandsFor(r, b, frame);
    k := OrElse(ResolveKey(r, b, frame), CanonicalKey(OrElse(frame, r.main), b));
  }

  /** Every key is that of its node's frame and backend id. */
  ghost predicate Canonical(r: Registry) {
    forall k | k in r.nodes ::
      r.nodes[k].backendNodeId.Some? && k == CanonicalKey(r.nodes[k].frameId, r.nodes[k].backendNodeId.value)
  }

  lemma StandsForCanonical(r: Registry, b: nat, frame: Option<string>, k: string)
    requires Canonical(r) && StandsFor(r, b, frame, k)
    ensures k in r.nodes ==> r.nodes[k].backendNodeId == Some(b)
    ensures k !in r.nodes ==> k == CanonicalKey(OrElse(frame, r.main), b)
  {
    if k in r.nodes && !OnlyCarrier(r, b, k) {
      var f := if k == CanonicalKey(OrElse(frame, r.main), b) then OrElse(frame, r.main) else r.main;
      CanonicalKeyInjective(f, b, r.nodes[k].frameId, r.nodes[k].backendNodeId.value);
    }
  }

  /** A record changes nothing about what another id stands for. */
  lemma StandsForStays(r: Registry, record: Record, b: nat, frame: Option<string>, k: string)
    requires Canonical(r) && b != record.backendNodeId
    ensures StandsFor(AddRecord(r, record), b, frame, k) <==> StandsFor(r, b, frame, k)
  {
    var s := AddRecord(r, record);
    OthersStay(r, record, b);
    if frame.Some? {
      OtherKeysStay(r, record, b, frame.value);
    }
    if StandsFor(s, b, frame, k) {
      StandsForSame(s, r, b, frame, k);
    }
    if StandsFor(r, b, frame, k) {
      StandsForSame(r, s, b, frame, k);
    }
  }

  lemma RecordCanonical(r: Registry, record: Record)
    requires Canonical(r)
    ensures Canonical(AddRecord(r, record))
  {
    var at := RecordMarks(r, record);
    StandsForCanonical(r, record.backendNodeId, record.layout.frameId, at);
  }

  lemma OthersStay(r: Registry, record: Record, b: nat)
    requires b != record.backendNodeId
    ensures AddRecord(r, record).main == r.main
    ensures forall j :: CarriesId(AddRecord(r, record), b, j) <==> CarriesId(r, b, j)
  {
    var at := RecordMarks(r, record);
  }

  lemma OtherKeysStay(r: Registry, record: Record, b: nat, frameId: string)
    requires Canonical(r) && b != record.backendNodeId
    ensures CanonicalKey(frameId, b) in AddRecord(r, record).nodes <==> CanonicalKey(frameId, b) in r.nodes
  {
    var at := RecordMarks(r, record);
    StandsForCanonical(r, record.backendNodeId, record.layout.frameId, at);
    if CanonicalKey(frameId, b) == at && at !in r.nodes {
      CanonicalKeyInjective(frameId, b, OrElse(record.layout.frameId, r.main), record.backendNodeId);
    }
  }

  /** The records of a page are a map by backend id. */
  ghost predicate DistinctRecords(records: seq<Record>) {
    forall i, j | 0 <= i < j < |records| :: records[i].backendNodeId != records[j].backendNodeId
  }

  ghost predicate NoRecordAt(r: Registry, records: seq<Record>, k: string) {
    forall record | record in records :: !RecordKey(r, record, k)
  }

  ghost predicate LayoutsArrived(r: Registry, records: seq<Record>, s: Registry) {
    && (forall record, k | record in records && RecordKey(r, record, k) ::
          k in s.nodes && s.nodes[k] == Laid(r, record, k))
    && (forall k | NoRecordAt(r, records, k) :: UntouchedAt(r, s, k))
  }

  ghost predicate UntouchedAt(r: Registry, s: Registry, k: string) {
    (k in s.nodes <==> k in r.nodes) && (k in r.nodes ==> s.nodes[k] == r.nodes[k])
  }

  /** No node has anything but what the DOM says, nor is its own parent. */
  ghost predicate Bare(r: Registry) {
    forall k | k in r.nodes ::
      var node := r.nodes[k];
      && node.domParentKey != Some(k)
      && node == Fresh(k, node.frameId, node.backendNodeId).(dom := node.dom, domParentKey := node.domParentKey)
  }

  lemma {:induction false} VisitCanonical(r: Registry, node: DomNode, inherited: string, parent: Option<string>)
    requires Canonical(r) && Bare(r)
    ensures var s := VisitDom(r, node, inherited, parent); Canonical(s) && Bare(s) && s.main == r.main
    decreases node, 0
  {
    var frameId, key := OrElse(node.frameId, inherited), Some(DomKey(node, inherited));
    var noted := NoteDom(r, node, inherited, parent);
    NoteCanonical(r, node, inherited, parent);
    VisitAllCanonical(noted, node.children, frameId, key);
    VisitAllCanonical(VisitAll(noted, node.children, frameId, key), node.shadowRoots, frameId, key);
    if node.contentDocument.Some? {
      VisitCanonical(VisitAll(VisitAll(noted, node.children, frameId, key), node.shadowRoots, frameId, key),
                     node.contentDocument.value, OrElse(node.contentDocument.value.frameId, frameId), key);
    }
  }

  lemma NoteCanonical(r: Registry, node: DomNode, inherited: string, parent: Option<string>)
    requires Canonical(r) && Bare(r)
    ensures var s := NoteDom(r, node, inherited, parent); Canonical(s) && Bare(s) && s.main == r.main
  {
    var key := DomKey(node, inherited);
    var ensured := Ensure(r, key, OrElse(node.frameId, inherited), Some(node.backendNodeId));
    assert Canonical(ensured) && Bare(ensured);
    var noted := ensured.nodes[key].(dom := Some(node));
    PutCanonical(ensured, key, noted.(
      domParentKey := if parent.Some? && parent != Some(key) then parent else noted.domParentKey));
  }

  lemma PutCanonical(r: Registry, key: string, node: Node)
    requires Canonical(r) && Bare(r) && key in r.nodes
    requires node == r.nodes[key].(dom := node.dom, domParentKey := node.domParentKey)
    requires node.domParentKey != Some(key)
    ensures Canonical(Put(r, key, node)) && Bare(Put(r, key, node))
  {
  }

  lemma {:induction false} VisitAllCanonical(r: Registry, nodes: seq<DomNode>, inherited: string,
                                             parent: Option<string>)
    requires Canonical(r) && Bare(r)
    ensures var s := VisitAll(r, nodes, inherited, parent); Canonical(s) && Bare(s) && s.main == r.main
    decreases nodes, 1
  {
    if nodes != [] {
      VisitCanonical(r, nodes[0], inherited, parent);
      VisitAllCanonical(VisitDom(r, nodes[0], inherited, parent), nodes[1..], inherited, parent);
    }
  }

  /** A key that one record names is named by no other. */
  lemma RecordKeyApart(r: Registry, record: Record, other: Record, k: string)
    requires Canonical(r) && record.backendNodeId != other.backendNodeId && RecordKey(r, record, k)
    ensures !RecordKey(AddRecord(r, record), other, k)
  {
    var s := AddRecord(r, record);
    var at := RecordMarks(r, record);
    StandsForOne(r, record.backendNodeId, record.layout.frameId, k, at);
    StandsForCanonical(r, record.backendNodeId, record.layout.frameId, at);
    RecordCanonical(r, record);
    if RecordKey(s, other, k) {
      StandsForCanonical(s, other.backendNodeId, other.layout.frameId, k);
    }
  }

  lemma LayoutTouches(r: Registry, record: Record, rest: seq<Record>, s: Registry, k: string)
    requires Canonical(r) && RecordKey(r, record, k) && LayoutsArrived(AddRecord(r, record), rest, s)
    requires forall other | other in rest :: other.backendNodeId != record.backendNodeId
    ensures k in s.nodes && s.nodes[k] == Laid(r, record, k)
  {
    var at := RecordMarks(r, record);
    StandsForOne(r, record.backendNodeId, record.layout.frameId, k, at);
    forall other | other in rest ensures !RecordKey(AddRecord(r, record), other, k) {
      RecordKeyApart(r, record, other, k);
    }
    assert UntouchedAt(AddRecord(r, record), s, k);
  }

  lemma LayoutPasses(r: Registry, record: Record, rest: seq<Record>, s: Registry, other: Record, k: string)
    requires Canonical(r) && RecordKey(r, other, k) && LayoutsArrived(AddRecord(r, record), rest, s) && other in rest
    requires other.backendNodeId != record.backendNodeId
    ensures k in s.nodes && s.nodes[k] == Laid(r, other, k)
  {
    var next := AddRecord(r, record);
    var at := RecordMarks(r, record);
    StandsForStays(r, record, other.backendNodeId, other.layout.frameId, k);
    assert RecordKey(next, other, k);
    RecordKeyApart(r, record, other, at);
    assert Laid(next, other, k) == Laid(r, other, k);
  }

  /** Every record's layout arrives at the node its id stood for before, and no other node is touched. */
  lemma {:induction false} LayoutsArrive(r: Registry, records: seq<Record>)
    requires Canonical(r) && DistinctRecords(records)
    ensures LayoutsArrived(r, records, AddRecords(r, records))
    decreases |records|
  {
    if records != [] {
      var next, s := AddRecord(r, records[0]), AddRecords(r, records);
      var at := RecordMarks(r, records[0]);
      RecordCanonical(r, records[0]);
      LayoutsArrive(next, records[1..]);
      LayoutsStep(r, records, s);
      forall k | NoRecordAt(r, records, k) ensures UntouchedAt(r, s, k) {
        LayoutsPassBy(r, records, s, at, k);
      }
    }
  }

  lemma {:induction false} RecordsFrame(r: Registry, records: seq<Record>)
    ensures OnlyLayouts(r, AddRecords(r, records))
    decreases |records|
  {
    if records != [] {
      var next := AddRecord(r, records[0]);
      var at := RecordMarks(r, records[0]);
      RecordsFrame(next, records[1..]);
      LayoutsFrame(r, next, AddRecords(r, records), at, Laid(r, records[0], at));
    }
  }

  lemma LayoutsFrame(r: Registry, next: Registry, s: Registry, at: string, node: Node)
    requires Marks(r, next, at, node) && node == Base(r, at, node).(layout := node.layout) && OnlyLayouts(next, s)
    ensures OnlyLayouts(r, s)
  {
  }

  lemma LayoutsStep(r: Registry, records: seq<Record>, s: Registry)
    requires records != [] && Canonical(r) && DistinctRecords(records)
    requires LayoutsArrived(AddRecord(r, records[0]), records[1..], s)
    ensures forall other, k | other in records && RecordKey(r, other, k) ::
      k in s.nodes && s.nodes[k] == Laid(r, other, k)
  {
    var record, rest := records[0], records[1..];
    forall other | other in rest ensures other.backendNodeId != record.backendNodeId {
      var j :| 0 < j < |records| && records[j] == other;
    }
    forall other, k | other in records && RecordKey(r, other, k)
      ensures k in s.nodes && s.nodes[k] == Laid(r, other, k)
    {
      if other == record {
        LayoutTouches(r, record, rest, s, k);
      } else {
        LayoutPasses(r, record, rest, s, other, k);
      }
    }
  }

  lemma LayoutsPassBy(r: Registry, records: seq<Record>, s: Registry, at: string, k: string)
    requires records != [] && Canonical(r) && DistinctRecords(records) && NoRecordAt(r, records, k)
    requires RecordKey(r, records[0], at) && Marks(r, AddRecord(r, records[0]), at, Laid(r, records[0], at))
    requires LayoutsArrived(AddRecord(r, records[0]), records[1..], s)
    ensures UntouchedAt(r, s, k)
  {
    var next := AddRecord(r, records[0]);
    assert records[0] in records && k != at;
    forall other | other in records[1..] ensures !RecordKey(next, other, k) {
      assert other in records;
      var j :| 0 < j < |records| && records[j] == other;
      StandsForStays(r, records[0], other.backendNodeId, other.layout.frameId, k);
    }
    assert UntouchedAt(next, s, k);
  }

  // ---- Accessibility nodes ----

  /** An accessibility node belongs to the node its backend id stands for, else to one of its own. */
  ghost predicate AxKeyIs(r: Registry, ax: AxNode, k: string) {
    if Positive(ax).Some? then StandsFor(r, Positive(ax).value, None, k) else k == AxOnlyKey(ax.nodeId)
  }

  function Noted(r: Registry, ax: AxNode, k: string): Node {
    NodeAt(r, k, r.main, ax.backendNodeId).(ax := Some(ax))
  }

  lemma AxMarks(r: Registry, ax: AxNode)
    ensures var k := AxKey(r, ax); AxKeyIs(r, ax, k) && Marks(r, NoteAx(r, ax), k, Noted(r, ax, k))
  {
    if Positive(ax).Some? {
      ResolvesToStandsFor(r, Positive(ax).value, None);
    }
  }

  lemma AxKeyOne(r: Registry, ax: AxNode, k: string, j: string)
    requires AxKeyIs(r, ax, k) && AxKeyIs(r, ax, j)
    ensures k == j
  {
  }

  /** A new node for an id is the main frame's, which the id stood for already. */
  lemma StandsForAdded(r: Registry, s: Registry, b: nat, k: string)
    requires s.main == r.main && StandsFor(r, b, None, CanonicalKey(r.main, b))
    requires forall j :: CarriesId(s, b, j) <==> CarriesId(r, b, j) || j == CanonicalKey(r.main, b)
    ensures StandsFor(s, b, None, k) <==> k == CanonicalKey(r.main, b)
  {
    var own := CanonicalKey(r.main, b);
    assert CarriesId(s, b, own);
    if only :| OnlyCarrier(s, b, only) {
      assert only == own;
    }
  }

  /** Noting an accessibility node changes nothing about where others belong. */
  lemma AxKeyStays(r: Registry, ax: AxNode, other: AxNode, k: string)
    ensures AxKeyIs(NoteAx(r, ax), other, k) <==> AxKeyIs(r, other, k)
  {
    if Positive(other).Some? {
      StandsForNoted(r, ax, Positive(other).value, k);
    }
  }

  lemma StandsForNoted(r: Registry, ax: AxNode, b: nat, k: string)
    requires b != 0
    ensures StandsFor(NoteAx(r, ax), b, None, k) <==> StandsFor(r, b, None, k)
  {
    var s, at := NoteAx(r, ax), AxKey(r, ax);
    AxMarks(r, ax);
    if at !in r.nodes && Positive(ax) == Some(b) {
      forall j ensures CarriesId(s, b, j) <==> CarriesId(r, b, j) || j == at {
      }
      StandsForAdded(r, s, b, k);
      if StandsFor(r, b, None, k) {
        StandsForOne(r, b, None, k, at);
      }
    } else {
      forall j ensures CarriesId(s, b, j) <==> CarriesId(r, b, j) {
      }
      if StandsFor(s, b, None, k) {
        StandsForSame(s, r, b, None, k);
      }
      if StandsFor(r, b, None, k) {
        StandsForSame(r, s, b, None, k);
      }
    }
  }

  ghost predicate NoAxAt(r: Registry, nodes: seq<AxNode>, k: string) {
    forall n | n in nodes :: !AxKeyIs(r, n, k)
  }

  /** The last of the accessibility nodes that belong at `k`. */
  ghost predicate LastAxAt(r: Registry, nodes: seq<AxNode>, i: nat, k: string) {
    i < |nodes| && AxKeyIs(r, nodes[i], k) && NoAxAt(r, nodes[i + 1..], k)
  }

  ghost predicate AxArrived(r: Registry, nodes: seq<AxNode>, s: Registry) {
    && (forall i: nat, k | LastAxAt(r, nodes, i, k) :: k in s.nodes && s.nodes[k].ax == Some(nodes[i]))
    && (forall k | NoAxAt(r, nodes, k) :: UntouchedAt(r, s, k))
  }

  lemma NoAxStays(r: Registry, ax: AxNode, nodes: seq<AxNode>, k: string)
    ensures NoAxAt(NoteAx(r, ax), nodes, k) <==> NoAxAt(r, nodes, k)
  {
    forall n | n in nodes ensures AxKeyIs(NoteAx(r, ax), n, k) <==> AxKeyIs(r, n, k) {
      AxKeyStays(r, ax, n, k);
    }
  }

  lemma AxStep(r: Registry, nodes: seq<AxNode>, s: Registry)
    requires nodes != [] && AxArrived(NoteAx(r, nodes[0]), nodes[1..], s)
    ensures AxArrived(r, nodes, s)
  {
    forall i: nat, k | LastAxAt(r, nodes, i, k) ensures k in s.nodes && s.nodes[k].ax == Some(nodes[i]) {
      LastAxStep(r, nodes, s, i, k);
    }
    forall k | NoAxAt(r, nodes, k) ensures UntouchedAt(r, s, k) {
      AxMarks(r, nodes[0]);
      assert nodes[0] in nodes && forall n | n in nodes[1..] :: n in nodes;
      NoAxStays(r, nodes[0], nodes[1..], k);
      assert UntouchedAt(NoteAx(r, nodes[0]), s, k);
    }
  }

  lemma LastAxStep(r: Registry, nodes: seq<AxNode>, s: Registry, i: nat, k: string)
    requires nodes != [] && AxArrived(NoteAx(r, nodes[0]), nodes[1..], s) && LastAxAt(r, nodes, i, k)
    ensures k in s.nodes && s.nodes[k].ax == Some(nodes[i])
  {
    var next := NoteAx(r, nodes[0]);
    AxMarks(r, nodes[0]);
    assert nodes[1..][i..] == nodes[i + 1..];
    NoAxStays(r, nodes[0], nodes[i + 1..], k);
    if i == 0 {
      AxKeyOne(r, nodes[0], k, AxKey(r, nodes[0]));
      assert UntouchedAt(next, s, k);
    } else {
      AxKeyStays(r, nodes[0], nodes[i], k);
      assert LastAxAt(next, nodes[1..], i - 1, k);
    }
  }

  lemma AxFrame(r: Registry, next: Registry, s: Registry, at: string, node: Node)
    requires Marks(r, next, at, node) && node == Base(r, at, node).(ax := node.ax) && OnlyNoted(next, s)
    ensures OnlyNoted(r, s)
  {
  }

  /** Every node holds the last of the accessibility nodes that belong to it, by what ids stood for before. */
  lemma {:induction false} AxArrives(s: Keyed, nodes: seq<AxNode>)
    ensures AxArrived(s.registry, nodes, NoteAllAx(s, nodes).registry)
    ensures OnlyNoted(s.registry, NoteAllAx(s, nodes).registry)
    decreases |nodes|
  {
    if nodes != [] {
      var r := s.registry;
      var next := Keyed(NoteAx(r, nodes[0]), s.keyByAxId[nodes[0].nodeId := AxKey(r, nodes[0])]);
      AxArrives(next, nodes[1..]);
      AxMarks(r, nodes[0]);
      AxFrame(r, next.registry, NoteAllAx(next, nodes[1..]).registry, AxKey(r, nodes[0]),
              Noted(r, nodes[0], AxKey(r, nodes[0])));
      AxStep(r, nodes, NoteAllAx(next, nodes[1..]).registry);
    }
  }

  // ---- Accessibility links ----

  ghost predicate Unnamed(nodes: seq<AxNode>, id: string) {
    forall n | n in nodes :: n.nodeId != id
  }

  /** An accessibility id means the last node of that id. */
  ghost predicate LastNamed(nodes: seq<AxNode>, i: nat, id: string) {
    i < |nodes| && nodes[i].nodeId == id && Unnamed(nodes[i + 1..], id)
  }

  ghost predicate IdsArrived(s: Keyed, nodes: seq<AxNode>, ids: map<string, string>) {
    && (forall i: nat, id | LastNamed(nodes, i, id) :: id in ids && AxKeyIs(s.registry, nodes[i], ids[id]))
    && (forall id | Unnamed(nodes, id) ::
          (id in ids <==> id in s.keyByAxId) && (id in ids ==> ids[id] == s.keyByAxId[id]))
  }

  lemma {:induction false} IdsArrive(s: Keyed, nodes: seq<AxNode>)
    ensures IdsArrived(s, nodes, NoteAllAx(s, nodes).keyByAxId)
    decreases |nodes|
  {
    if nodes != [] {
      var next := Keyed(NoteAx(s.registry, nodes[0]), s.keyByAxId[nodes[0].nodeId := AxKey(s.registry, nodes[0])]);
      IdsArrive(next, nodes[1..]);
      IdsStep(s, nodes, next, NoteAllAx(s, nodes).keyByAxId);
    }
  }

  lemma IdsStep(s: Keyed, nodes: seq<AxNode>, next: Keyed, ids: map<string, string>)
    requires nodes != [] && IdsArrived(next, nodes[1..], ids)
    requires next.registry == NoteAx(s.registry, nodes[0])
    requires next.keyByAxId == s.keyByAxId[nodes[0].nodeId := AxKey(s.registry, nodes[0])]
    ensures IdsArrived(s, nodes, ids)
  {
    AxMarks(s.registry, nodes[0]);
    forall i: nat, id | LastNamed(nodes, i, id) ensures id in ids && AxKeyIs(s.registry, nodes[i], ids[id]) {
      assert nodes[1..][i..] == nodes[i + 1..];
      if i > 0 {
        assert LastNamed(nodes[1..], i - 1, id);
        AxKeyStays(s.registry, nodes[0], nodes[i], ids[id]);
      }
    }
    forall id | Unnamed(nodes, id)
      ensures (id in ids <==> id in s.keyByAxId) && (id in ids ==> ids[id] == s.keyByAxId[id])
    {
      assert nodes[0] in nodes && Unnamed(nodes[1..], id);
    }
  }

  ghost predicate IsListed(ids: map<string, string>, childIds: seq<string>, k: string) {
    exists c | c in childIds :: c in ids && ids[c] == k
  }

  /** Some child that `n` lists is the node at `k`, another than that of `n`. */
  ghost predicate Links(ids: map<string, string>, n: AxNode, k: string) {
    n.nodeId in ids && ids[n.nodeId] != k && IsListed(ids, n.childIds, k)
  }

  ghost predicate Unlinking(ids: map<string, string>, nodes: seq<AxNode>, k: string) {
    forall n | n in nodes :: !Links(ids, n, k)
  }

  ghost predicate LastLinking(ids: map<string, string>, nodes: seq<AxNode>, i: nat, k: string) {
    i < |nodes| && Links(ids, nodes[i], k) && Unlinking(ids, nodes[i + 1..], k)
  }

  lemma {:induction false} ChildrenGetParent(r: Registry, ids: map<string, string>, parentKey: string,
                                             childIds: seq<string>)
    ensures var s := LinkChildren(r, ids, parentKey, childIds);
      && OnlyAxParents(r, s)
      && forall k | k in r.nodes ::
        s.nodes[k].axParentKey ==
          if k != parentKey && IsListed(ids, childIds, k) then Some(parentKey) else r.nodes[k].axParentKey
    decreases |childIds|
  {
    if childIds != [] {
      ChildrenGetParent(LinkChild(r, ids, parentKey, childIds[0]), ids, parentKey, childIds[1..]);
      forall k ensures IsListed(ids, childIds, k) <==>
        (childIds[0] in ids && ids[childIds[0]] == k) || IsListed(ids, childIds[1..], k)
      {
        ListedCons(ids, childIds, k);
      }
    }
  }

  lemma ListedCons(ids: map<string, string>, childIds: seq<string>, k: string)
    requires childIds != []
    ensures IsListed(ids, childIds, k) <==>
      (childIds[0] in ids && ids[childIds[0]] == k) || IsListed(ids, childIds[1..], k)
  {
    assert childIds == [childIds[0]] + childIds[1..];
  }

  ghost predicate ParentsArrived(r: Registry, ids: map<string, string>, nodes: seq<AxNode>, s: Registry) {
    && (forall i: nat, k | k in r.nodes && LastLinking(ids, nodes, i, k) ::
          k in s.nodes && s.nodes[k].axParentKey == Some(ids[nodes[i].nodeId]))
    && (forall k | k in r.nodes && Unlinking(ids, nodes, k) ::
          k in s.nodes && s.nodes[k].axParentKey == r.nodes[k].axParentKey)
  }

  /** Every node gets the key of the last other node that lists it as a child for its accessibility parent. */
  lemma {:induction false} ParentsArrive(r: Registry, ids: map<string, string>, nodes: seq<AxNode>)
    ensures OnlyAxParents(r, LinkAllAx(r, ids, nodes)) && ParentsArrived(r, ids, nodes, LinkAllAx(r, ids, nodes))
    decreases |nodes|
  {
    if nodes != [] {
      var n := nodes[0];
      var next := if n.nodeId in ids then LinkChildren(r, ids, ids[n.nodeId], n.childIds) else r;
      var s := LinkAllAx(next, ids, nodes[1..]);
      if n.nodeId in ids {
        ChildrenGetParent(r, ids, ids[n.nodeId], n.childIds);
      }
      ParentsArrive(next, ids, nodes[1..]);
      forall i: nat, k | k in r.nodes && LastLinking(ids, nodes, i, k)
        ensures k in s.nodes && s.nodes[k].axParentKey == Some(ids[nodes[i].nodeId])
      {
        assert nodes[1..][i..] == nodes[i + 1..];
        assert i > 0 ==> LastLinking(ids, nodes[1..], i - 1, k);
      }
      forall k | k in r.nodes && Unlinking(ids, nodes, k)
        ensures k in s.nodes && s.nodes[k].axParentKey == r.nodes[k].axParentKey
      {
        assert n in nodes && Unlinking(ids, nodes[1..], k);
      }
    }
  }

  // ---- Interactive elements ----

  predicate NamesSource(e: Element) {
    e.semanticBackendNodeId.Some? && e.semanticBackendNodeId.value != e.backendNodeId
  }

  /** The node that an element's semantic id stands for in its frame. */
  ghost predicate SourceIs(s: Registry, e: Element, source: Option<string>)
    requires NamesSource(e)
  {
    source.Some? && StandsFor(s, e.semanticBackendNodeId.value, Some(OrElse(e.frameId, s.main)), source.value)
  }

  function Targeted(r: Registry, e: Element, source: Option<string>): Node {
    NodeAt(r, ElementKey(r.main, e), OrElse(e.frameId, r.main), Some(e.backendNodeId)).(
      target := Some(e), semanticSourceKey := source)
  }

  function SourceAt(r: Registry, k: string): Option<string> {
    if k in r.nodes then r.nodes[k].semanticSourceKey else None
  }

  lemma ElementMarks(r: Registry, e: Element) returns (source: Option<string>)
    ensures var s, k := AddElement(r, e), ElementKey(r.main, e);
      && Marks(r, s, k, Targeted(r, e, source))
      && (if NamesSource(e) then SourceIs(s, e, source) else source == SourceAt(r, k))
  {
    var s, k, frameId := AddElement(r, e), ElementKey(r.main, e), OrElse(e.frameId, r.main);
    source := s.nodes[k].semanticSourceKey;
    if NamesSource(e) {
      var b := e.semanticBackendNodeId.value;
      var ensured := Ensure(r, k, frameId, Some(e.backendNodeId));
      var targeted := Put(ensured, k, ensured.nodes[k].(target := Some(e)));
      ResolvesToStandsFor(targeted, b, Some(frameId));
      forall j ensures CarriesId(s, b, j) <==> CarriesId(targeted, b, j) {
      }
      StandsForSame(targeted, s, b, Some(frameId), source.value);
    }
  }

  ghost predicate NoTargetAt(main: string, elements: seq<Element>, k: string) {
    forall e | e in elements :: ElementKey(main, e) != k
  }

  ghost predicate LastTargetAt(main: string, elements: seq<Element>, i: nat, k: string) {
    i < |elements| && ElementKey(main, elements[i]) == k && NoTargetAt(main, elements[i + 1..], k)
  }

  ghost predicate NoSourceAt(main: string, elements: seq<Element>, k: string) {
    forall e | e in elements :: !(ElementKey(main, e) == k && NamesSource(e))
  }

  ghost predicate LastSourceAt(main: string, elements: seq<Element>, i: nat, k: string) {
    && i < |elements| && ElementKey(main, elements[i]) == k && NamesSource(elements[i])
    && NoSourceAt(main, elements[i + 1..], k)
  }

  ghost predicate TargetsArrived(r: Registry, elements: seq<Element>, s: Registry) {
    && (forall i: nat, k | LastTargetAt(r.main, elements, i, k) ::
          k in s.nodes && s.nodes[k].target == Some(elements[i]))
    && (forall k | NoTargetAt(r.main, elements, k) :: UntouchedAt(r, s, k))
  }

  /** A source is what the element's semantic id stood for when the element was added. */
  ghost predicate SourcesArrived(r: Registry, elements: seq<Element>, s: Registry) {
    && (forall i: nat, k | LastSourceAt(r.main, elements, i, k) ::
          k in s.nodes && SourceIs(AddElements(r, elements[..i + 1]), elements[i], s.nodes[k].semanticSourceKey))
    && (forall k | NoSourceAt(r.main, elements, k) :: SourceAt(s, k) == SourceAt(r, k))
  }

  lemma TargetsStep(r: Registry, elements: seq<Element>, s: Registry)
    requires elements != [] && TargetsArrived(AddElement(r, elements[0]), elements[1..], s)
    ensures TargetsArrived(r, elements, s)
  {
    var source := ElementMarks(r, elements[0]);
    var next := AddElement(r, elements[0]);
    forall i: nat, k | LastTargetAt(r.main, elements, i, k)
      ensures k in s.nodes && s.nodes[k].target == Some(elements[i])
    {
      assert elements[1..][i..] == elements[i + 1..];
      if i == 0 {
        assert UntouchedAt(next, s, k);
      } else {
        assert LastTargetAt(r.main, elements[1..], i - 1, k);
      }
    }
    forall k | NoTargetAt(r.main, elements, k) ensures UntouchedAt(r, s, k) {
      assert elements[0] in elements && NoTargetAt(r.main, elements[1..], k);
      assert UntouchedAt(next, s, k);
    }
  }

  lemma PrefixStep(r: Registry, elements: seq<Element>, i: nat)
    requires i < |elements|
    ensures AddElements(r, elements[..i + 1]) == AddElements(AddElement(r, elements[0]), elements[1..][..i])
  {
    assert elements[..i + 1][1..] == elements[1..][..i];
  }

  lemma SourcesStep(r: Registry, elements: seq<Element>, s: Registry)
    requires elements != [] && SourcesArrived(AddElement(r, elements[0]), elements[1..], s)
    ensures SourcesArrived(r, elements, s)
  {
    var source := ElementMarks(r, elements[0]);
    var next := AddElement(r, elements[0]);
    forall i: nat, k | LastSourceAt(r.main, elements, i, k)
      ensures k in s.nodes && SourceIs(AddElements(r, elements[..i + 1]), elements[i], s.nodes[k].semanticSourceKey)
    {
      PrefixStep(r, elements, i);
      assert elements[1..][i..] == elements[i + 1..];
      if i == 0 {
        assert elements[1..][..0] == [];
        assert SourceAt(s, k) == SourceAt(next, k);
      } else {
        assert LastSourceAt(r.main, elements[1..], i - 1, k);
      }
    }
    forall k | NoSourceAt(r.main, elements, k) ensures SourceAt(s, k) == SourceAt(r, k) {
      assert elements[0] in elements && NoSourceAt(r.main, elements[1..], k);
    }
  }

  lemma TargetsFrame(r: Registry, next: Registry, s: Registry, at: string, node: Node)
    requires Marks(r, next, at, node) && OnlyTargets(next, s)
    requires node == Base(r, at, node).(target := node.target, semanticSourceKey := node.semanticSourceKey)
    ensures OnlyTargets(r, s)
  {
  }

  /** Every node holds the last of the elements at its key, and the source that the last of them with one named. */
  lemma {:induction false} ElementsArrive(r: Registry, elements: seq<Element>)
    ensures var s := AddElements(r, elements);
      TargetsArrived(r, elements, s) && SourcesArrived(r, elements, s) && OnlyTargets(r, s)
    decreases |elements|
  {
    if elements != [] {
      var next, s := AddElement(r, elements[0]), AddElements(r, elements);
      var source := ElementMarks(r, elements[0]);
      ElementsArrive(next, elements[1..]);
      TargetsStep(r, elements, s);
      SourcesStep(r, elements, s);
      TargetsFrame(r, next, s, ElementKey(r.main, elements[0]), Targeted(r, elements[0], source));
    }
  }

  // ---- The fused page ----

  function FromDom(input: Input): Registry {
    if input.domRoot.Some? then AddDomTree(Empty(input.main), input.domRoot.value) else Empty(input.main)
  }

  ghost function WithLayouts(input: Input): Registry {
    AddRecords(FromDom(input), input.records)
  }

  ghost function WithAx(input: Input): Registry {
    AddAxTree(WithLayouts(input), input.axNodes)
  }

  lemma AxTreeFrame(r: Registry, nodes: seq<AxNode>)
    ensures OnlyAx(r, AddAxTree(r, nodes))
  {
    var keyed := NoteAllAx(Keyed(r, map[]), nodes);
    AxArrives(Keyed(r, map[]), nodes);
    ParentsArrive(keyed.registry, keyed.keyByAxId, nodes);
  }

  /** What each phase leaves alone. */
  lemma PhasesFrame(input: Input)
    ensures Canonical(FromDom(input)) && Bare(FromDom(input)) && FromDom(input).main == input.main
    ensures OnlyLayouts(FromDom(input), WithLayouts(input)) && OnlyAx(WithLayouts(input), WithAx(input))
    ensures OnlyTargets(WithAx(input), BuildRegistry(input))
  {
    if input.domRoot.Some? {
      VisitCanonical(Empty(input.main), input.domRoot.value, OrElse(input.domRoot.value.frameId, input.main), None);
    }
    RecordsFrame(FromDom(input), input.records);
    AxTreeFrame(WithLayouts(input), input.axNodes);
    ElementsArrive(WithAx(input), input.elements);
  }

  lemma PhasesKeepDom(r: Registry, a: Registry, b: Registry, s: Registry)
    requires OnlyLayouts(r, a) && OnlyAx(a, b) && OnlyTargets(b, s)
    ensures KeepsDom(r, s) && r.order <= s.order
  {
  }

  /** On a page whose DOM keys are distinct, every DOM node is at its own key under that of the node above it. */
  lemma PageHoldsDom(input: Input)
    requires input.domRoot.Some?
    requires Distinct(DomKeys(input.domRoot.value, OrElse(input.domRoot.value.frameId, input.main)))
    ensures var s, root := BuildRegistry(input), input.domRoot.value;
      && Placed(s, root, OrElse(root.frameId, input.main), None)
      && DomKeys(root, OrElse(root.frameId, input.main)) <= s.order
  {
    var root := input.domRoot.value;
    PhasesFrame(input);
    DomIsPlaced(Empty(input.main), root);
    PhasesKeepDom(FromDom(input), WithLayouts(input), WithAx(input), BuildRegistry(input));
    PlacedStays(FromDom(input), BuildRegistry(input), root, OrElse(root.frameId, input.main), None);
  }

  lemma LayoutsStay(r: Registry, a: Registry, s: Registry)
    requires OnlyAx(r, a) && OnlyTargets(a, s)
    ensures forall k | k in s.nodes :: s.nodes[k].layout == if k in r.nodes then r.nodes[k].layout else None
  {
  }

  /** A node has a layout exactly when a record belongs to it, and then that record's. */
  lemma PageHoldsLayouts(input: Input)
    requires DistinctRecords(input.records)
    ensures var s := BuildRegistry(input);
      && (forall record, k | record in input.records && RecordKey(FromDom(input), record, k) ::
            k in s.nodes && s.nodes[k].layout == Some(record.layout))
      && (forall k | k in s.nodes && NoRecordAt(FromDom(input), input.records, k) :: s.nodes[k].layout.None?)
  {
    PhasesFrame(input);
    LayoutsArrive(FromDom(input), input.records);
    var r, s := WithLayouts(input), BuildRegistry(input);
    LayoutsStay(r, WithAx(input), s);
    forall k | k in s.nodes && NoRecordAt(FromDom(input), input.records, k) ensures s.nodes[k].layout.None? {
      assert UntouchedAt(FromDom(input), r, k);
    }
  }

  /** A node holds the last accessibility node that belongs to it, by what ids stood for after the layout phase. */
  lemma PageHoldsAx(input: Input)
    ensures var s := BuildRegistry(input);
      && (forall i: nat, k | LastAxAt(WithLayouts(input), input.axNodes, i, k) ::
            k in s.nodes && s.nodes[k].ax == Some(input.axNodes[i]))
      && (forall k | k in s.nodes && NoAxAt(WithLayouts(input), input.axNodes, k) :: s.nodes[k].ax.None?)
  {
    PhasesFrame(input);
    var r, s := WithLayouts(input), BuildRegistry(input);
    var keyed := NoteAllAx(Keyed(r, map[]), input.axNodes);
    AxArrives(Keyed(r, map[]), input.axNodes);
    ParentsArrive(keyed.registry, keyed.keyByAxId, input.axNodes);
    forall k | k in s.nodes && NoAxAt(r, input.axNodes, k) ensures s.nodes[k].ax.None? {
      assert UntouchedAt(r, keyed.registry, k);
    }
  }

  /**
   A node's accessibility parent is the last other node that lists it as a child. Ids of accessibility nodes mean the
   node that the last of that id belongs to.
   */
  lemma PageHoldsAxParents(input: Input) returns (ids: map<string, string>)
    ensures IdsArrived(Keyed(WithLayouts(input), map[]), input.axNodes, ids)
    ensures var s := BuildRegistry(input);
      && (forall i: nat, k | LastLinking(ids, input.axNodes, i, k) ::
            k in s.nodes && s.nodes[k].axParentKey == Some(ids[input.axNodes[i].nodeId]))
      && (forall k | k in s.nodes && Unlinking(ids, input.axNodes, k) :: s.nodes[k].axParentKey.None?)
  {
    PhasesFrame(input);
    var start := Keyed(WithLayouts(input), map[]);
    ids := NoteAllAx(start, input.axNodes).keyByAxId;
    IdsArrive(start, input.axNodes);
    AxTreeParents(start.registry, input.axNodes, ids);
    ParentsStay(WithLayouts(input), WithAx(input), BuildRegistry(input), ids, input.axNodes);
  }

  lemma {:induction false} IdsAreNoted(s: Keyed, nodes: seq<AxNode>)
    requires IdsIn(s)
    ensures IdsIn(NoteAllAx(s, nodes))
    decreases |nodes|
  {
    if nodes != [] {
      AxMarks(s.registry, nodes[0]);
      var next := Keyed(NoteAx(s.registry, nodes[0]), s.keyByAxId[nodes[0].nodeId := AxKey(s.registry, nodes[0])]);
      assert IdsIn(next);
      IdsAreNoted(next, nodes[1..]);
    }
  }

  ghost predicate IdsIn(s: Keyed) {
    forall id | id in s.keyByAxId :: s.keyByAxId[id] in s.registry.nodes
  }

  ghost predicate ParentsAre(r: Registry, s: Registry, ids: map<string, string>, nodes: seq<AxNode>) {
    && (forall i: nat, k | LastLinking(ids, nodes, i, k) ::
          k in s.nodes && s.nodes[k].axParentKey == Some(ids[nodes[i].nodeId]))
    && (forall k | k in s.nodes && Unlinking(ids, nodes, k) ::
          s.nodes[k].axParentKey == if k in r.nodes then r.nodes[k].axParentKey else None)
  }

  lemma AxTreeParents(r: Registry, nodes: seq<AxNode>, ids: map<string, string>)
    requires ids == NoteAllAx(Keyed(r, map[]), nodes).keyByAxId
    ensures ParentsAre(r, AddAxTree(r, nodes), ids, nodes)
  {
    var keyed := NoteAllAx(Keyed(r, map[]), nodes);
    AxArrives(Keyed(r, map[]), nodes);
    IdsAreNoted(Keyed(r, map[]), nodes);
    ParentsArrive(keyed.registry, ids, nodes);
    LinkedParents(r, keyed, nodes, AddAxTree(r, nodes));
  }

  lemma LinkedParents(r: Registry, keyed: Keyed, nodes: seq<AxNode>, s: Registry)
    requires OnlyNoted(r, keyed.registry) && IdsIn(keyed) && OnlyAxParents(keyed.registry, s)
    requires ParentsArrived(keyed.registry, keyed.keyByAxId, nodes, s)
    ensures ParentsAre(r, s, keyed.keyByAxId, nodes)
  {
    forall i: nat, k | LastLinking(keyed.keyByAxId, nodes, i, k) ensures k in keyed.registry.nodes {
      assert Links(keyed.keyByAxId, nodes[i], k);
    }
  }

  lemma ParentsStay(r: Registry, a: Registry, s: Registry, ids: map<string, string>, nodes: seq<AxNode>)
    requires ParentsAre(r, a, ids, nodes) && OnlyTargets(a, s) && r.nodes.Keys <= a.nodes.Keys
    ensures ParentsAre(r, s, ids, nodes)
  {
  }

  /** A node is the target of the last element at its key, with the semantic source that the last one names. */
  lemma PageHoldsTargets(input: Input)
    ensures TargetsArrived(WithAx(input), input.elements, BuildRegistry(input))
    ensures SourcesArrived(WithAx(input), input.elements, BuildRegistry(input))
    ensures forall k | k in WithAx(input).nodes ::
      WithAx(input).nodes[k].target.None? && WithAx(input).nodes[k].semanticSourceKey.None?
    ensures WithAx(input).main == input.main
  {
    PhasesFrame(input);
    ElementsArrive(WithAx(input), input.elements);
  }

  /** An element whose source is on the page in its own frame is linked to that very node. */
  lemma SourceInFrameIsLinked(input: Input, i: nat, k: string)
    requires LastSourceAt(input.main, input.elements, i, k)
    requires OrElse(input.elements[i].frameId, input.main) != ""
    requires CanonicalKey(OrElse(input.elements[i].frameId, input.main),
                          input.elements[i].semanticBackendNodeId.value) in WithAx(input).nodes
    ensures var e := input.elements[i];
      k in BuildRegistry(input).nodes && BuildRegistry(input).nodes[k].semanticSourceKey ==
        Some(CanonicalKey(OrElse(e.frameId, input.main), e.semanticBackendNodeId.value))
  {
    PageHoldsTargets(input);
    ElementsArrive(WithAx(input), input.elements[..i + 1]);
  }

  lemma {:induction false} SomeLastAx(r: Registry, nodes: seq<AxNode>, k: string)
    requires !NoAxAt(r, nodes, k)
    ensures exists i: nat :: LastAxAt(r, nodes, i, k)
    decreases |nodes|
  {
    if NoAxAt(r, nodes[1..], k) {
      assert nodes == [nodes[0]] + nodes[1..];
      assert LastAxAt(r, nodes, 0, k);
    } else {
      SomeLastAx(r, nodes[1..], k);
      var i: nat :| LastAxAt(r, nodes[1..], i, k);
      assert nodes[1..][i + 1..] == nodes[i + 2..];
      assert LastAxAt(r, nodes, i + 1, k);
    }
  }

  lemma {:induction false} SomeLastTarget(main: string, elements: seq<Element>, k: string)
    requires !NoTargetAt(main, elements, k)
    ensures exists i: nat :: LastTargetAt(main, elements, i, k)
    decreases |elements|
  {
    if NoTargetAt(main, elements[1..], k) {
      assert elements == [elements[0]] + elements[1..];
      assert LastTargetAt(main, elements, 0, k);
    } else {
      SomeLastTarget(main, elements[1..], k);
      var i: nat :| LastTargetAt(main, elements[1..], i, k);
      assert elements[1..][i + 1..] == elements[i + 2..];
      assert LastTargetAt(main, elements, i + 1, k);
    }
  }

  ghost predicate InDom(input: Input, k: string) {
    input.domRoot.Some? && k in DomKeys(input.domRoot.value, OrElse(input.domRoot.value.frameId, input.main))
  }

  /** The nodes of a page are exactly those that one of the four sources names. */
  lemma PageNodesAreNamed(input: Input, k: string)
    requires DistinctRecords(input.records)
    ensures k in BuildRegistry(input).nodes <==>
      || InDom(input, k)
      || (exists record | record in input.records :: RecordKey(FromDom(input), record, k))
      || (exists ax | ax in input.axNodes :: AxKeyIs(WithLayouts(input), ax, k))
      || exists e | e in input.elements :: ElementKey(input.main, e) == k
  {
    PhasesFrame(input);
    if input.domRoot.Some? {
      DomIsRegistered(Empty(input.main), input.domRoot.value, k);
    }
    LayoutsArrive(FromDom(input), input.records);
    AxNodesAreNamed(WithLayouts(input), input.axNodes, k);
    ElementsArrive(WithAx(input), input.elements);
    if NoTargetAt(input.main, input.elements, k) {
      assert UntouchedAt(WithAx(input), BuildRegistry(input), k);
    } else {
      SomeLastTarget(input.main, input.elements, k);
    }
    if NoRecordAt(FromDom(input), input.records, k) {
      assert UntouchedAt(FromDom(input), WithLayouts(input), k);
    }
  }

  lemma AxNodesAreNamed(r: Registry, nodes: seq<AxNode>, k: string)
    ensures k in AddAxTree(r, nodes).nodes <==> k in r.nodes || !NoAxAt(r, nodes, k)
  {
    var keyed := NoteAllAx(Keyed(r, map[]), nodes);
    AxArrives(Keyed(r, map[]), nodes);
    ParentsArrive(keyed.registry, keyed.keyByAxId, nodes);
    if NoAxAt(r, nodes, k) {
      assert UntouchedAt(r, keyed.registry, k);
    } else {
      SomeLastAx(r, nodes, k);
    }
  }

  lemma {:induction false} SomeLastLinking(ids: map<string, string>, nodes: seq<AxNode>, k: string)
    requires !Unlinking(ids, nodes, k)
    ensures exists i: nat :: LastLinking(ids, nodes, i, k)
    decreases |nodes|
  {
    if Unlinking(ids, nodes[1..], k) {
      assert nodes == [nodes[0]] + nodes[1..];
      assert LastLinking(ids, nodes, 0, k);
    } else {
      SomeLastLinking(ids, nodes[1..], k);
      var i: nat :| LastLinking(ids, nodes[1..], i, k);
      assert nodes[1..][i + 1..] == nodes[i + 2..];
      assert LastLinking(ids, nodes, i + 1, k);
    }
  }

  /** Whatever keys repeat, no node of a page is its own parent. */
  lemma NoNodeIsItsOwnParent(input: Input, k: string)
    requires k in BuildRegistry(input).nodes
    ensures BuildRegistry(input).nodes[k].domParentKey != Some(k)
    ensures BuildRegistry(input).nodes[k].axParentKey != Some(k)
  {
    PhasesFrame(input);
    PhasesKeepDom(FromDom(input), WithLayouts(input), WithAx(input), BuildRegistry(input));
    var ids := PageHoldsAxParents(input);
    if !Unlinking(ids, input.axNodes, k) {
      SomeLastLinking(ids, input.axNodes, k);
      var i: nat :| LastLinking(ids, input.axNodes, i, k);
      assert Links(ids, input.axNodes[i], k);
    }
  }
}
