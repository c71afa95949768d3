/**
 The parent relation of a fused page: a node's DOM parent, else its accessibility parent. On a page whose
 sources are trees, the two relations together have no cycle (packages/browser-core/src/browser-semantic-tree.ts).
 */
module SemanticParents {
  import opened Prelude
  import opened SemanticRegistry

  datatype Input = Input(main: string, domRoot: Option<DomNode>, records: seq<Record>, axNodes: seq<AxNode>,
                         elements: seq<Element>)

  ghost function BuildRegistry(input: Input): Registry {
    var withDom := if input.domRoot.Some? then AddDomTree(Empty(input.main), input.domRoot.value)
      else Empty(input.main);
    AddElements(AddAxTree(AddRecords(withDom, input.records), input.axNodes), input.elements)
  }

  function ParentOf(node: Node): Option<string> {
    if node.domParentKey.Some? then node.domParentKey else node.axParentKey
  }

  // ---- What is asked of a page ----

  function DomKeys(node: DomNode, inherited: string): seq<string>
    decreases node, 0
  {
    var frameId := OrElse(node.frameId, inherited);
    var document :=
      if node.contentDocument.Some?
        then DomKeys(node.contentDocument.value, OrElse(node.contentDocument.value.frameId, frameId)) else [];
    [DomKey(node, inherited)] +
      (AllDomKeys(node.children, frameId) + (AllDomKeys(node.shadowRoots, frameId) + document))
  }

  function AllDomKeys(nodes: seq<DomNode>, inherited: string): seq<string>
    decreases nodes, 1
  {
    if nodes == [] then [] else DomKeys(nodes[0], inherited) + AllDomKeys(nodes[1..], inherited)
  }

  /** A key that cannot be mistaken for that of an accessibility-only node. */
  predicate Plain(key: string) {
    !("ax:" <= key)
  }

  ghost predicate PlainFrame(frameId: string) {
    forall b :: Plain(CanonicalKey(frameId, b))
  }

  function Positive(ax: AxNode): Option<nat> {
    if ax.backendNodeId.Some? && ax.backendNodeId.value != 0 then ax.backendNodeId else None
  }

  /** `c` is listed as a child of another node `p`. */
  predicate AxLink(p: AxNode, c: AxNode) {
    c.nodeId in p.childIds && p.nodeId != c.nodeId
  }

  /** Accessibility nodes have their own ids, no two stand for one DOM node, and no chain of children is cyclic. */
  ghost predicate AxForest(nodes: seq<AxNode>, rank: map<string, nat>) {
    && (forall i, j | 0 <= i < j < |nodes| :: nodes[i].nodeId != nodes[j].nodeId)
    && (forall i, j | 0 <= i < j < |nodes| :: Positive(nodes[i]).Some? ==> Positive(nodes[i]) != Positive(nodes[j]))
    && (forall n | n in nodes :: n.nodeId in rank)
    && (forall p, c | p in nodes && c in nodes && AxLink(p, c) :: rank[p.nodeId] < rank[c.nodeId])
  }

  ghost predicate RootKeysOk(input: Input) {
    input.domRoot.Some? ==>
      var root := input.domRoot.value;
      var keys := DomKeys(root, OrElse(root.frameId, input.main));
      && Distinct(keys)
      && forall p, c | p in input.axNodes && c in input.axNodes && AxLink(p, c) ::
        Positive(c) != Some(root.backendNodeId)
  }

  /** DOM keys are unique, the accessibility nodes form a forest, and the DOM root is no accessibility child. */
  ghost predicate SourcesAreTrees(input: Input, rank: map<string, nat>) {
    RootKeysOk(input) && AxForest(input.axNodes, rank)
  }

  /** No frame key begins with the prefix under which nodes with an accessibility id alone are registered. */
  ghost predicate PlainKeys(input: Input) {
    && PlainFrame(input.main)
    && (input.domRoot.Some? ==>
      forall k | k in DomKeys(input.domRoot.value, OrElse(input.domRoot.value.frameId, input.main)) :: Plain(k))
    && (forall record | record in input.records && record.layout.frameId.Some? ::
      Plain(CanonicalKey(record.layout.frameId.value, record.backendNodeId)))
  }

  ghost predicate WellFormed(input: Input, rank: map<string, nat>) {
    SourcesAreTrees(input, rank) && PlainKeys(input)
  }

  // ---- The DOM phase ----

  /** Nodes from the DOM are ranked above their DOM parents, and every key says what its node carries. */
  ghost predicate DomRanked(r: Registry, rank: map<string, nat>, next: nat) {
    && (forall k | k in rank :: rank[k] < next)
    && (forall k | k in r.nodes && r.nodes[k].dom.Some? :: k in rank)
    && (forall k | k in r.nodes && r.nodes[k].domParentKey.Some? ::
          var p := r.nodes[k].domParentKey.value;
          r.nodes[k].dom.Some? && p in r.nodes && r.nodes[p].dom.Some? && k in rank && p in rank && rank[p] < rank[k])
  }

  ghost predicate KeyOk(k: string, node: Node) {
    if Plain(k) then node.backendNodeId.Some? && k == CanonicalKey(node.frameId, node.backendNodeId.value)
    else node.backendNodeId.None? || node.backendNodeId == Some(0)
  }

  ghost predicate KeysOk(r: Registry) {
    forall k | k in r.nodes :: KeyOk(k, r.nodes[k])
  }

  ghost predicate Unlinked(r: Registry) {
    forall k | k in r.nodes :: r.nodes[k].axParentKey.None? && r.nodes[k].ax.None?
  }

  /** The new nodes of a visit come from the DOM; only the visit's own root may be without a DOM parent. */
  ghost predicate VisitAdds(r: Registry, s: Registry, keys: seq<string>, root: Option<string>) {
    && s.main == r.main
    && (forall k | k in r.nodes :: k in s.nodes && s.nodes[k] == r.nodes[k])
    && (forall k | k in s.nodes :: k in r.nodes || k in keys)
    && (forall k | k in s.nodes && k !in r.nodes ::
      s.nodes[k].dom.Some? && (s.nodes[k].domParentKey.None? ==> root == Some(k)))
  }

  ghost predicate DomState(r: Registry, rank: map<string, nat>, next: nat) {
    DomRanked(r, rank, next) && KeysOk(r) && Unlinked(r)
  }

  lemma AddsMore(r: Registry, s: Registry, t: Registry, a: seq<string>, b: seq<string>, root: Option<string>)
    requires VisitAdds(r, s, a, root) && VisitAdds(s, t, b, None)
    ensures VisitAdds(r, t, a + b, root)
  {
    forall k | k in t.nodes && k !in r.nodes
      ensures k in a + b && t.nodes[k].dom.Some? && (t.nodes[k].domParentKey.None? ==> root == Some(k))
    {
      if k in s.nodes {
        assert t.nodes[k] == s.nodes[k];
      }
    }
  }

  lemma NoteRanked(r: Registry, rank: map<string, nat>, next: nat, node: DomNode, inherited: string,
                   parent: Option<string>)
    returns (rank': map<string, nat>)
    requires DomState(r, rank, next)
    requires DomKey(node, inherited) !in r.nodes && Plain(DomKey(node, inherited))
    requires parent.Some? ==> parent.value in r.nodes && r.nodes[parent.value].dom.Some?
    ensures var s := NoteDom(r, node, inherited, parent);
      && DomState(s, rank', next + 1) && DomKey(node, inherited) in s.nodes &&
        s.nodes[DomKey(node, inherited)].dom.Some?
      && VisitAdds(r, s, [DomKey(node, inherited)], if parent.None? then Some(DomKey(node, inherited)) else None)
  {
    rank' := rank[DomKey(node, inherited) := next];
  }

  ghost predicate NewKeys(r: Registry, keys: seq<string>) {
    Distinct(keys) && forall k | k in keys :: k !in r.nodes && Plain(k)
  }

  /** Keys that are new, and new to each other, stay new while some of them are added. */
  lemma StillNew(r: Registry, s: Registry, a: seq<string>, b: seq<string>, root: Option<string>)
    requires NewKeys(r, a + b) && VisitAdds(r, s, a, root)
    ensures NewKeys(r, a) && NewKeys(s, b)
  {
    DistinctParts(a, b);
    forall k | k in a ensures k in a + b {}
    forall k | k in b ensures k !in s.nodes && Plain(k) {
      assert k in a + b;
    }
  }

  lemma {:induction false} VisitRanked(r: Registry, rank: map<string, nat>, next: nat, node: DomNode, inherited: string,
                                       parent: Option<string>)
    returns (rank': map<string, nat>, next': nat)
    requires DomState(r, rank, next) && NewKeys(r, DomKeys(node, inherited))
    requires parent.Some? ==> parent.value in r.nodes && r.nodes[parent.value].dom.Some?
    ensures var s := VisitDom(r, node, inherited, parent);
      && DomState(s, rank', next')
      && VisitAdds(r, s, DomKeys(node, inherited), if parent.None? then Some(DomKey(node, inherited)) else None)
    decreases node, 0
  {
    var frameId := OrElse(node.frameId, inherited);
    var key := DomKey(node, inherited);
    var own := [key];
    var root := if parent.None? then Some(key) else None;
    var children, roots := AllDomKeys(node.children, frameId), AllDomKeys(node.shadowRoots, frameId);
    var doc := if node.contentDocument.Some?
      then DomKeys(node.contentDocument.value, OrElse(node.contentDocument.value.frameId, frameId)) else [];
    assert DomKeys(node, inherited) == own + (children + (roots + doc));
    assert DomKeys(node, inherited)[0] == key;
    rank' := NoteRanked(r, rank, next, node, inherited, parent);
    var r1 := NoteDom(r, node, inherited, parent);
    StillNew(r, r1, own, children + (roots + doc), root);
    SplitNew(r1, children, roots + doc);
    rank', next' := VisitAllRanked(r1, rank', next + 1, node.children, frameId, key);
    var r2 := VisitAll(r1, node.children, frameId, Some(key));
    StillNew(r1, r2, children, roots + doc, None);
    SplitNew(r2, roots, doc);
    rank', next' := VisitAllRanked(r2, rank', next', node.shadowRoots, frameId, key);
    var r3 := VisitAll(r2, node.shadowRoots, frameId, Some(key));
    StillNew(r2, r3, roots, doc, None);
    if node.contentDocument.Some? {
      rank', next' := VisitRanked(r3, rank', next', node.contentDocument.value,
                                  OrElse(node.contentDocument.value.frameId, frameId), Some(key));
    }
    var r4 := VisitDom(r, node, inherited, parent);
    AddsMore(r2, r3, r4, roots, doc, None);
    AddsMore(r1, r2, r4, children, roots + doc, None);
    AddsMore(r, r1, r4, own, children + (roots + doc), root);
  }

  lemma SplitNew(r: Registry, a: seq<string>, b: seq<string>)
    requires NewKeys(r, a + b)
    ensures NewKeys(r, a)
  {
    DistinctParts(a, b);
    forall k | k in a ensures k in a + b {}
  }

  lemma {:induction false} VisitAllRanked(r: Registry, rank: map<string, nat>, next: nat, nodes: seq<DomNode>,
                                          inherited: string, parent: string)
    returns (rank': map<string, nat>, next': nat)
    requires DomState(r, rank, next) && NewKeys(r, AllDomKeys(nodes, inherited))
    requires parent in r.nodes && r.nodes[parent].dom.Some?
    ensures var s := VisitAll(r, nodes, inherited, Some(parent));
      && DomState(s, rank', next')
      && VisitAdds(r, s, AllDomKeys(nodes, inherited), None)
    decreases nodes, 1
  {
    if nodes == [] {
      rank', next' := rank, next;
    } else {
      var first, rest := DomKeys(nodes[0], inherited), AllDomKeys(nodes[1..], inherited);
      SplitNew(r, first, rest);
      rank', next' := VisitRanked(r, rank, next, nodes[0], inherited, Some(parent));
      var s := VisitDom(r, nodes[0], inherited, Some(parent));
      StillNew(r, s, first, rest, None);
      rank', next' := VisitAllRanked(s, rank', next', nodes[1..], inherited, parent);
      AddsMore(r, s, VisitAll(s, nodes[1..], inherited, Some(parent)), first, rest, None);
    }
  }

  // ---- The layout phase ----

  /** Old nodes keep what the DOM and the keys say about them; new nodes do not come from the DOM. */
  ghost predicate SameDom(r: Registry, s: Registry) {
    && s.main == r.main
    && (forall k | k in r.nodes :: k in s.nodes
          && s.nodes[k].dom == r.nodes[k].dom && s.nodes[k].domParentKey == r.nodes[k].domParentKey
          && s.nodes[k].backendNodeId == r.nodes[k].backendNodeId && s.nodes[k].frameId == r.nodes[k].frameId)
    && (forall k | k in s.nodes && k !in r.nodes :: s.nodes[k].dom.None? && s.nodes[k].domParentKey.None?)
  }

  lemma {:induction false} RecordsKeep(r: Registry, records: seq<Record>)
    requires KeysOk(r) && Unlinked(r) && PlainFrame(r.main)
    requires forall record | record in records && record.layout.frameId.Some? ::
      Plain(CanonicalKey(record.layout.frameId.value, record.backendNodeId))
    ensures var s := AddRecords(r, records); KeysOk(s) && Unlinked(s) && SameDom(r, s)
    decreases |records|
  {
    if records != [] {
      RecordKeeps(r, records[0]);
      RecordsKeep(AddRecord(r, records[0]), records[1..]);
    }
  }

  lemma EnsureKeeps(r: Registry, key: string, frameId: string, backendNodeId: nat)
    requires KeysOk(r) && Unlinked(r) && (key in r.nodes || (key == CanonicalKey(frameId, backendNodeId) && Plain(key)))
    ensures var s := Ensure(r, key, frameId, Some(backendNodeId)); KeysOk(s) && Unlinked(s) && SameDom(r, s)
  {
  }

  lemma RecordKeeps(r: Registry, record: Record)
    requires KeysOk(r) && Unlinked(r) && PlainFrame(r.main)
    requires record.layout.frameId.Some? ==> Plain(CanonicalKey(record.layout.frameId.value, record.backendNodeId))
    ensures var s := AddRecord(r, record); KeysOk(s) && Unlinked(s) && SameDom(r, s)
  {
    var existing := ResolveKey(r, record.backendNodeId, record.layout.frameId);
    var frameId := if record.layout.frameId.Some? then record.layout.frameId.value
                   else if existing.Some? then r.nodes[existing.value].frameId else r.main;
    var key := if existing.Some? then existing.value else CanonicalKey(frameId, record.backendNodeId);
    var ensured := Ensure(r, key, frameId, Some(record.backendNodeId));
    EnsureKeeps(r, key, frameId, record.backendNodeId);
    LayoutKeeps(ensured, key, record.layout);
    SameDomTwice(r, ensured, AddRecord(r, record));
  }

  lemma LayoutKeeps(r: Registry, key: string, layout: Layout)
    requires KeysOk(r) && Unlinked(r) && key in r.nodes
    ensures var s := Put(r, key, r.nodes[key].(layout := Some(layout))); KeysOk(s) && Unlinked(s) && SameDom(r, s)
  {
  }

  // ---- The accessibility phase ----

  /** The key an accessibility node was given stands for its backend id, or for itself alone. */
  predicate Carries(ax: AxNode, key: string, node: Node) {
    if Positive(ax).Some? then Plain(key) && node.backendNodeId == Positive(ax) else key == AxOnlyKey(ax.nodeId)
  }

  lemma NoteAxCarries(r: Registry, ax: AxNode)
    requires KeysOk(r) && PlainFrame(r.main)
    ensures var key, s := AxKey(r, ax), NoteAx(r, ax);
      key in s.nodes && Carries(ax, key, s.nodes[key]) && KeyOk(key, s.nodes[key])
  {
    var key := AxKey(r, ax);
    if Positive(ax).Some? {
      var b := Positive(ax).value;
      if ExistingAxKey(r, ax).Some? {
        assert r.nodes[key].backendNodeId == Some(b);
      } else if key in r.nodes {
        CanonicalKeyInjective(r.main, b, r.nodes[key].frameId, r.nodes[key].backendNodeId.value);
        assert key in Carriers(r, b);
      }
    }
  }

  /** The id of `n` leads to a node that holds `n`, under a key that stands for it. */
  ghost predicate NotedAt(s: Keyed, n: AxNode) {
    && n.nodeId in s.keyByAxId && s.keyByAxId[n.nodeId] in s.registry.nodes
    && s.registry.nodes[s.keyByAxId[n.nodeId]].ax == Some(n)
    && Carries(n, s.keyByAxId[n.nodeId], s.registry.nodes[s.keyByAxId[n.nodeId]])
  }

  ghost predicate AllNoted(s: Keyed, done: seq<AxNode>) {
    forall n | n in done :: NotedAt(s, n)
  }

  ghost predicate IdsNoted(keyByAxId: map<string, string>, done: seq<AxNode>) {
    forall id | id in keyByAxId :: exists n :: n in done && n.nodeId == id
  }

  ghost predicate OnlyNoted(r: Registry, done: seq<AxNode>) {
    forall k | k in r.nodes && r.nodes[k].ax.Some? ::
      r.nodes[k].ax.value in done && Carries(r.nodes[k].ax.value, k, r.nodes[k])
  }

  ghost predicate NoAxParents(r: Registry) {
    forall k | k in r.nodes :: r.nodes[k].axParentKey.None?
  }

  ghost predicate AxNoted(s: Keyed, done: seq<AxNode>) {
    KeysOk(s.registry) && AllNoted(s, done) && IdsNoted(s.keyByAxId, done) && OnlyNoted(s.registry, done) &&
      NoAxParents(s.registry)
  }

  /** `after` is `r` but for the node at `key`, which now holds `ax`. */
  ghost predicate Notes(r: Registry, after: Registry, key: string, ax: AxNode) {
    && key in after.nodes && after.nodes[key].ax == Some(ax) && Carries(ax, key, after.nodes[key])
    && (forall k | k in r.nodes :: k in after.nodes)
    && (forall k | k in after.nodes && k != key :: k in r.nodes && after.nodes[k] == r.nodes[k])
    && (if key in r.nodes then after.nodes[key].axParentKey == r.nodes[key].axParentKey
      else after.nodes[key].axParentKey.None?)
  }

  lemma OtherKeyStays(s: Keyed, n: AxNode, ax: AxNode, key: string, node: Node)
    requires NotedAt(s, n) && Carries(ax, key, node)
    requires key in s.registry.nodes ==> node.backendNodeId == s.registry.nodes[key].backendNodeId
    requires n.nodeId != ax.nodeId && (Positive(ax).Some? ==> Positive(n) != Positive(ax))
    ensures s.keyByAxId[n.nodeId] != key
  {
    assert AxOnlyKey(n.nodeId)[3..] == n.nodeId && AxOnlyKey(ax.nodeId)[3..] == ax.nodeId;
  }

  lemma AllNotedStep(s: Keyed, done: seq<AxNode>, ax: AxNode, after: Registry, key: string)
    requires AllNoted(s, done) && Notes(s.registry, after, key, ax)
    requires key in s.registry.nodes ==> after.nodes[key].backendNodeId == s.registry.nodes[key].backendNodeId
    requires forall n | n in done :: n.nodeId != ax.nodeId && (Positive(ax).Some? ==> Positive(n) != Positive(ax))
    ensures AllNoted(Keyed(after, s.keyByAxId[ax.nodeId := key]), done + [ax])
  {
    var next := Keyed(after, s.keyByAxId[ax.nodeId := key]);
    forall n | n in done ensures NotedAt(next, n) {
      OtherKeyStays(s, n, ax, key, after.nodes[key]);
    }
    assert NotedAt(next, ax);
  }

  lemma IdsNotedStep(keyByAxId: map<string, string>, done: seq<AxNode>, ax: AxNode, key: string)
    requires IdsNoted(keyByAxId, done)
    ensures IdsNoted(keyByAxId[ax.nodeId := key], done + [ax])
  {
    var next := keyByAxId[ax.nodeId := key];
    forall id | id in next ensures exists n :: n in done + [ax] && n.nodeId == id {
      if id in keyByAxId && id != ax.nodeId {
        var n :| n in done && n.nodeId == id;
        assert n in done + [ax];
      } else {
        assert (done + [ax])[|done|] == ax;
      }
    }
  }

  lemma OnlyNotedStep(r: Registry, done: seq<AxNode>, ax: AxNode, after: Registry, key: string)
    requires OnlyNoted(r, done) && NoAxParents(r) && Notes(r, after, key, ax)
    ensures OnlyNoted(after, done + [ax]) && NoAxParents(after)
  {
    assert (done + [ax])[|done|] == ax;
    forall k | k in after.nodes && after.nodes[k].ax.Some?
      ensures after.nodes[k].ax.value in done + [ax] && Carries(after.nodes[k].ax.value, k, after.nodes[k])
    {
      if k != key {
        assert r.nodes[k].ax.value in done;
      }
    }
  }

  lemma AxNotedStep(s: Keyed, done: seq<AxNode>, ax: AxNode)
    requires AxNoted(s, done) && PlainFrame(s.registry.main)
    requires forall n | n in done :: n.nodeId != ax.nodeId && (Positive(ax).Some? ==> Positive(n) != Positive(ax))
    ensures AxNoted(Keyed(NoteAx(s.registry, ax), s.keyByAxId[ax.nodeId := AxKey(s.registry, ax)]), done + [ax])
    ensures SameDom(s.registry, NoteAx(s.registry, ax))
  {
    var key, after := AxKey(s.registry, ax), NoteAx(s.registry, ax);
    NoteAxNotes(s.registry, ax);
    AllNotedStep(s, done, ax, after, key);
    IdsNotedStep(s.keyByAxId, done, ax, key);
    OnlyNotedStep(s.registry, done, ax, after, key);
  }

  lemma NoteAxNotes(r: Registry, ax: AxNode)
    requires KeysOk(r) && PlainFrame(r.main)
    ensures var key, after := AxKey(r, ax), NoteAx(r, ax);
      && KeysOk(after) && SameDom(r, after) && Notes(r, after, key, ax)
      && (key in r.nodes ==> after.nodes[key].backendNodeId == r.nodes[key].backendNodeId)
  {
    NoteAxCarries(r, ax);
  }

  lemma SameDomTwice(r: Registry, s: Registry, t: Registry)
    requires SameDom(r, s) && SameDom(s, t)
    ensures SameDom(r, t)
  {
    forall k | k in t.nodes && k !in r.nodes ensures t.nodes[k].dom.None? && t.nodes[k].domParentKey.None? {
      if k in s.nodes {
        assert s.nodes[k].dom.None?;
      }
    }
  }

  lemma HeadIsNew(done: seq<AxNode>, nodes: seq<AxNode>, rank: map<string, nat>)
    requires nodes != [] && AxForest(done + nodes, rank)
    ensures forall n | n in done ::
      n.nodeId != nodes[0].nodeId && (Positive(nodes[0]).Some? ==> Positive(n) != Positive(nodes[0]))
  {
    var all := done + nodes;
    forall n | n in done
      ensures n.nodeId != nodes[0].nodeId && (Positive(nodes[0]).Some? ==> Positive(n) != Positive(nodes[0]))
    {
      var i :| 0 <= i < |done| && done[i] == n;
      assert all[i] == n && all[|done|] == nodes[0];
    }
  }

  lemma {:induction false} AllAxNoted(s: Keyed, done: seq<AxNode>, nodes: seq<AxNode>, rank: map<string, nat>)
    requires AxNoted(s, done) && PlainFrame(s.registry.main) && AxForest(done + nodes, rank)
    ensures var t := NoteAllAx(s, nodes); AxNoted(t, done + nodes) && SameDom(s.registry, t.registry)
    decreases |nodes|
  {
    if nodes == [] {
      assert done + nodes == done;
    } else {
      HeadIsNew(done, nodes, rank);
      AxNotedStep(s, done, nodes[0]);
      var next := Keyed(NoteAx(s.registry, nodes[0]), s.keyByAxId[nodes[0].nodeId := AxKey(s.registry, nodes[0])]);
      assert done + nodes == (done + [nodes[0]]) + nodes[1..];
      AllAxNoted(next, done + [nodes[0]], nodes[1..], rank);
      SameDomTwice(s.registry, next.registry, NoteAllAx(next, nodes[1..]).registry);
    }
  }

  /** An accessibility parent link goes between the keys of a node and of one it lists as its child. */
  ghost predicate LinksOk(r: Registry, nodes: seq<AxNode>) {
    forall k | k in r.nodes && r.nodes[k].axParentKey.Some? ::
      var p := r.nodes[k].axParentKey.value;
      && p in r.nodes && r.nodes[p].ax.Some? && r.nodes[k].ax.Some?
      && r.nodes[p].ax.value in nodes && r.nodes[k].ax.value in nodes &&
        AxLink(r.nodes[p].ax.value, r.nodes[k].ax.value)
  }

  /** Only accessibility parents differ. */
  ghost predicate OnlyAxParents(r: Registry, s: Registry) {
    && s.main == r.main && s.order == r.order && s.nodes.Keys == r.nodes.Keys
    && forall k | k in r.nodes :: s.nodes[k] == r.nodes[k].(axParentKey := s.nodes[k].axParentKey)
  }

  /** Every accessibility id leads to a node that holds the accessibility node of that id. */
  ghost predicate IdsLead(r: Registry, keyByAxId: map<string, string>, nodes: seq<AxNode>) {
    forall id | id in keyByAxId ::
      && keyByAxId[id] in r.nodes && r.nodes[keyByAxId[id]].ax.Some?
      && r.nodes[keyByAxId[id]].ax.value in nodes && r.nodes[keyByAxId[id]].ax.value.nodeId == id
  }

  lemma {:induction false} ChildrenLinked(r: Registry, keyByAxId: map<string, string>, nodes: seq<AxNode>,
                                          parent: AxNode, childIds: seq<string>)
    requires LinksOk(r, nodes) && IdsLead(r, keyByAxId, nodes)
    requires parent.nodeId in keyByAxId && r.nodes[keyByAxId[parent.nodeId]].ax == Some(parent)
    requires forall id | id in childIds :: id in parent.childIds
    ensures var s := LinkChildren(r, keyByAxId, keyByAxId[parent.nodeId], childIds);
      LinksOk(s, nodes) && OnlyAxParents(r, s)
    decreases |childIds|
  {
    if childIds != [] {
      var s := LinkChild(r, keyByAxId, keyByAxId[parent.nodeId], childIds[0]);
      if childIds[0] in keyByAxId && keyByAxId[childIds[0]] != keyByAxId[parent.nodeId] {
        assert AxLink(parent, r.nodes[keyByAxId[childIds[0]]].ax.value);
      }
      assert LinksOk(s, nodes);
      ChildrenLinked(s, keyByAxId, nodes, parent, childIds[1..]);
    }
  }

  lemma {:induction false} AllLinked(r: Registry, keyByAxId: map<string, string>, nodes: seq<AxNode>, rest: seq<AxNode>)
    requires LinksOk(r, nodes) && IdsLead(r, keyByAxId, nodes)
    requires forall n | n in rest :: n in nodes && n.nodeId in keyByAxId && r.nodes[keyByAxId[n.nodeId]].ax == Some(n)
    ensures var s := LinkAllAx(r, keyByAxId, rest); LinksOk(s, nodes) && OnlyAxParents(r, s)
    decreases |rest|
  {
    if rest != [] {
      ChildrenLinked(r, keyByAxId, nodes, rest[0], rest[0].childIds);
      AllLinked(LinkChildren(r, keyByAxId, keyByAxId[rest[0].nodeId], rest[0].childIds), keyByAxId, nodes, rest[1..]);
    }
  }

  ghost predicate AxCarried(r: Registry) {
    forall k | k in r.nodes && r.nodes[k].ax.Some? :: Carries(r.nodes[k].ax.value, k, r.nodes[k])
  }

  lemma AxTreeKeeps(r: Registry, nodes: seq<AxNode>, rank: map<string, nat>)
    requires KeysOk(r) && Unlinked(r) && PlainFrame(r.main) && AxForest(nodes, rank)
    ensures var s := AddAxTree(r, nodes); SameDom(r, s) && LinksOk(s, nodes) && AxCarried(s)
  {
    var start := Keyed(r, map[]);
    assert [] + nodes == nodes;
    AllAxNoted(start, [], nodes, rank);
    var keyed := NoteAllAx(start, nodes);
    forall k | k in keyed.registry.nodes && keyed.registry.nodes[k].ax.Some?
      ensures Carries(keyed.registry.nodes[k].ax.value, k, keyed.registry.nodes[k])
    {
      assert keyed.registry.nodes[k].ax.value in nodes;
    }
    AllLinked(keyed.registry, keyed.keyByAxId, nodes, nodes);
    SameDomTwice(r, keyed.registry, AddAxTree(r, nodes));
  }

  // ---- The elements phase ----

  /** Parents and their sources stay; new nodes have none. */
  ghost predicate SameParents(r: Registry, s: Registry) {
    && (forall k | k in r.nodes :: k in s.nodes
          && s.nodes[k].dom == r.nodes[k].dom && s.nodes[k].ax == r.nodes[k].ax
          && s.nodes[k].domParentKey == r.nodes[k].domParentKey && s.nodes[k].axParentKey == r.nodes[k].axParentKey)
    && (forall k | k in s.nodes && k !in r.nodes ::
      s.nodes[k].dom.None? && s.nodes[k].ax.None? && ParentOf(s.nodes[k]).None?)
  }

  lemma ElementKeeps(r: Registry, e: Element)
    ensures SameParents(r, AddElement(r, e))
  {
  }

  lemma SameParentsTwice(r: Registry, s: Registry, t: Registry)
    requires SameParents(r, s) && SameParents(s, t)
    ensures SameParents(r, t)
  {
  }

  lemma {:induction false} ElementsKeep(r: Registry, elements: seq<Element>)
    ensures SameParents(r, AddElements(r, elements))
    decreases |elements|
  {
    if elements != [] {
      var s := AddElement(r, elements[0]);
      ElementKeeps(r, elements[0]);
      ElementsKeep(s, elements[1..]);
      SameParentsTwice(r, s, AddElements(s, elements[1..]));
    }
  }

  // ---- No cycles ----

  /** Every parent is a node of the registry, and ranked below its child. */
  ghost predicate ParentsRanked(r: Registry, rank: string -> nat) {
    forall k | k in r.nodes && ParentOf(r.nodes[k]).Some? ::
      ParentOf(r.nodes[k]).value in r.nodes && rank(ParentOf(r.nodes[k]).value) < rank(k)
  }

  /** DOM nodes by their place in the DOM, below them the others by their place in the accessibility tree. */
  ghost function RankIn(r: Registry, domRank: map<string, nat>, next: nat, axRank: map<string, nat>): string -> nat {
    k =>
      if k !in r.nodes then 0
      else if r.nodes[k].dom.Some? then (if k in domRank then domRank[k] else 0)
      else if r.nodes[k].ax.Some? && r.nodes[k].ax.value.nodeId in axRank
        then next + 1 + axRank[r.nodes[k].ax.value.nodeId]
      else next
  }

  ghost predicate RootUnlinked(r: Registry, input: Input) {
    input.domRoot.Some? ==>
      forall k | k in r.nodes && r.nodes[k].dom.Some? && r.nodes[k].domParentKey.None? ::
        Plain(k) && r.nodes[k].backendNodeId == Some(input.domRoot.value.backendNodeId)
  }

  lemma DomPhase(input: Input) returns (domRank: map<string, nat>, next: nat)
    requires RootKeysOk(input) && PlainKeys(input)
    ensures var r := if input.domRoot.Some? then AddDomTree(Empty(input.main), input.domRoot.value)
      else Empty(input.main);
      DomState(r, domRank, next) && r.main == input.main && RootUnlinked(r, input) &&
        (input.domRoot.None? ==> r == Empty(input.main))
  {
    var r := Empty(input.main);
    domRank, next := map[], 0;
    if input.domRoot.Some? {
      var root := input.domRoot.value;
      var inherited := OrElse(root.frameId, input.main);
      domRank, next := VisitRanked(r, domRank, next, root, inherited, None);
      var s := AddDomTree(r, root);
      forall k | k in s.nodes && s.nodes[k].dom.Some? && s.nodes[k].domParentKey.None?
        ensures Plain(k) && s.nodes[k].backendNodeId == Some(root.backendNodeId)
      {
        assert k == DomKey(root, inherited);
        assert DomKeys(root, inherited)[0] == k;
        assert KeyOk(k, s.nodes[k]);
        CanonicalKeyInjective(OrElse(root.frameId, inherited), root.backendNodeId, s.nodes[k].frameId,
                              s.nodes[k].backendNodeId.value);
      }
    }
  }

  /**
   When the sources are trees and no frame key begins with "ax:", the parent relation of the fused nodes goes
   strictly up. `SemanticCollision.FrameNamedAxMakesCycle` shows what happens when a frame is named "ax".
   */
  lemma ParentsAreAcyclic(input: Input, axRank: map<string, nat>) returns (rank: string -> nat)
    requires WellFormed(input, axRank)
    ensures ParentsRanked(BuildRegistry(input), rank)
  {
    var domRank, next := DomPhase(input);
    var r0 := if input.domRoot.Some? then AddDomTree(Empty(input.main), input.domRoot.value) else Empty(input.main);
    RecordsKeep(r0, input.records);
    var r1 := AddRecords(r0, input.records);
    AxTreeKeeps(r1, input.axNodes, axRank);
    var r2 := AddAxTree(r1, input.axNodes);
    SameDomTwice(r0, r1, r2);
    ElementsKeep(r2, input.elements);
    var r3 := AddElements(r2, input.elements);
    rank := RankIn(r3, domRank, next, axRank);
    forall k | k in r3.nodes && ParentOf(r3.nodes[k]).Some?
      ensures ParentOf(r3.nodes[k]).value in r3.nodes && rank(ParentOf(r3.nodes[k]).value) < rank(k)
    {
      ParentGoesUp(input, axRank, domRank, next, r0, r2, r3, k);
    }
  }

  lemma ParentGoesUp(input: Input, axRank: map<string, nat>, domRank: map<string, nat>, next: nat, r0: Registry,
                     r2: Registry, r3: Registry, k: string)
    requires WellFormed(input, axRank)
    requires DomRanked(r0, domRank, next) && RootUnlinked(r0, input)
    requires input.domRoot.None? ==> r0 == Empty(input.main)
    requires SameDom(r0, r2) && LinksOk(r2, input.axNodes) && AxCarried(r2) && SameParents(r2, r3)
    requires k in r3.nodes && ParentOf(r3.nodes[k]).Some?
    ensures var rank := RankIn(r3, domRank, next, axRank);
      ParentOf(r3.nodes[k]).value in r3.nodes && rank(ParentOf(r3.nodes[k]).value) < rank(k)
  {
    assert k in r2.nodes;
    var p := ParentOf(r3.nodes[k]).value;
    if r2.nodes[k].domParentKey.Some? {
      assert k in r0.nodes && r0.nodes[k].dom.Some? && r0.nodes[p].dom.Some?;
      assert domRank[p] < domRank[k];
    } else {
      assert r2.nodes[k].axParentKey == Some(p);
      var child, parent := r2.nodes[k].ax.value, r2.nodes[p].ax.value;
      assert AxLink(parent, child) && axRank[parent.nodeId] < axRank[child.nodeId];
      assert Carries(child, k, r2.nodes[k]);
      assert r2.nodes[k].dom.Some? ==> k in r0.nodes;
      if r2.nodes[k].dom.Some? {
        assert false;
      }
    }
  }
}
