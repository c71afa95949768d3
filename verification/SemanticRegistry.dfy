/**
 The registry that fuses the DOM tree, the layout snapshot, the accessibility tree and the interactive
 elements of a page into one set of nodes (packages/browser-core/src/browser-semantic-registry.ts).
 */
module SemanticRegistry {
  import opened Prelude
  import opened JsonSize

  datatype DomNode = DomNode(
    backendNodeId: nat, nodeType: int, name: string, frameId: Option<string>,
    children: seq<DomNode>, shadowRoots: seq<DomNode>, contentDocument: Option<DomNode>)

  datatype AxNode = AxNode(nodeId: string, backendNodeId: Option<nat>, role: string, ignored: bool,
                           childIds: seq<string>)

  datatype Layout = Layout(frameId: Option<string>, hidden: bool)

  datatype Element = Element(backendNodeId: nat, frameId: Option<string>, semanticBackendNodeId: Option<nat>,
                             kind: string)

  datatype Node = Node(
    key: string, frameId: string, backendNodeId: Option<nat>,
    dom: Option<DomNode>, layout: Option<Layout>, ax: Option<AxNode>, target: Option<Element>,
    domParentKey: Option<string>, axParentKey: Option<string>, semanticSourceKey: Option<string>)

  // ---- Keys ----

  function CanonicalKey(frameId: string, backendNodeId: nat): string {
    frameId + ":" + Decimal(backendNodeId)
  }

  function AxOnlyKey(nodeId: string): string {
    "ax:" + nodeId
  }

  lemma {:induction false} DecimalDigits(n: nat)
    ensures Decimal(n) != [] && ':' !in Decimal(n)
  {
    if n >= 10 {
      DecimalDigits(n / 10);
    }
  }

  lemma {:induction false} DecimalInjective(a: nat, b: nat)
    requires Decimal(a) == Decimal(b)
    ensures a == b
  {
    var last := Decimal(a)[|Decimal(a)| - 1];
    DecimalDigits(a / 10);
    DecimalDigits(b / 10);
    if a >= 10 {
      assert Decimal(a)[..|Decimal(a)| - 1] == Decimal(a / 10);
      assert b >= 10;
      assert Decimal(b)[..|Decimal(b)| - 1] == Decimal(b / 10);
      DecimalInjective(a / 10, b / 10);
    }
  }

  /** A key determines both the frame and the backend id, whatever characters frame ids hold. */
  lemma CanonicalKeyInjective(f: string, a: nat, g: string, b: nat)
    requires CanonicalKey(f, a) == CanonicalKey(g, b)
    ensures f == g && a == b
  {
    var s, t := CanonicalKey(f, a), CanonicalKey(g, b);
    DecimalDigits(a);
    DecimalDigits(b);
    assert s[|f|] == ':' && t[|g|] == ':';
    assert forall i | |f| < i < |s| :: s[i] == Decimal(a)[i - |f| - 1];
    assert forall i | |g| < i < |t| :: t[i] == Decimal(b)[i - |g| - 1];
    assert |f| == |g|;
    assert f == s[..|f|] && g == t[..|g|];
    assert Decimal(a) == s[|f| + 1..] && Decimal(b) == t[|g| + 1..];
    DecimalInjective(a, b);
  }

  // ---- The registry as a value ----

  /** `order` is the order in which keys were first seen (that of Map.values()). */
  datatype Registry = Registry(main: string, order: seq<string>, nodes: map<string, Node>)

  function Empty(main: string): Registry {
    Registry(main, [], map[])
  }

  function Fresh(key: string, frameId: string, backendNodeId: Option<nat>): Node {
    Node(key, frameId, backendNodeId, None, None, None, None, None, None, None)
  }

  function Ensure(r: Registry, key: string, frameId: string, backendNodeId: Option<nat>): (s: Registry)
    ensures key in s.nodes && s.nodes.Keys == r.nodes.Keys + {key}
  {
    if key in r.nodes then r
    else r.(order := r.order + [key], nodes := r.nodes[key := Fresh(key, frameId, backendNodeId)])
  }

  function Put(r: Registry, key: string, node: Node): (s: Registry)
    requires key in r.nodes
    ensures s.nodes.Keys == r.nodes.Keys
  {
    r.(nodes := r.nodes[key := node])
  }

  function Carriers(r: Registry, backendNodeId: nat): set<string> {
    set k | k in r.nodes && r.nodes[k].backendNodeId == Some(backendNodeId)
  }

  /** The node a backend id stands for: the exact frame's, else the only one, else the main frame's, else none. */
  ghost function ResolveKey(r: Registry, backendNodeId: nat, frameId: Option<string>): (k: Option<string>)
    ensures k.Some? ==> k.value in r.nodes
  {
    if frameId.Some? && frameId.value != "" && CanonicalKey(frameId.value, backendNodeId) in r.nodes
    then Some(CanonicalKey(frameId.value, backendNodeId))
    else
      var carriers := Carriers(r, backendNodeId);
      if carriers == {} then None
      else if |carriers| == 1 then (var k :| k in carriers; Some(k))
      else if CanonicalKey(r.main, backendNodeId) in carriers then Some(CanonicalKey(r.main, backendNodeId))
      else None
  }

  lemma OnlyMember(keys: set<string>, a: string, b: string)
    requires |keys| == 1 && a in keys && b in keys
    ensures a == b
  {
    assert |keys - {a}| == 0;
    assert b !in keys - {a};
  }

  // ---- The four sources ----

  function OrElse(o: Option<string>, other: string): string {
    if o.Some? then o.value else other
  }

  function DomKey(node: DomNode, inherited: string): string {
    CanonicalKey(OrElse(node.frameId, inherited), node.backendNodeId)
  }

  /** The node itself, before its descendants. */
  function NoteDom(r: Registry, node: DomNode, inherited: string, parent: Option<string>): (s: Registry)
    ensures DomKey(node, inherited) in s.nodes
  {
    var key := DomKey(node, inherited);
    var ensured := Ensure(r, key, OrElse(node.frameId, inherited), Some(node.backendNodeId));
    var seen := ensured.nodes[key];
    Put(ensured, key,
        seen.(dom := Some(node),
              domParentKey := if parent.Some? && parent != Some(key) then parent else seen.domParentKey))
  }

  function VisitDom(r: Registry, node: DomNode, inherited: string, parent: Option<string>): Registry
    decreases node, 0
  {
    var frameId := OrElse(node.frameId, inherited);
    var key := Some(DomKey(node, inherited));
    var below := VisitAll(VisitAll(NoteDom(r, node, inherited, parent), node.children, frameId, key), node.shadowRoots,
                          frameId, key);
    if node.contentDocument.Some?
      then VisitDom(below, node.contentDocument.value, OrElse(node.contentDocument.value.frameId, frameId), key)
    else below
  }

  function VisitAll(r: Registry, nodes: seq<DomNode>, inherited: string, parent: Option<string>): Registry
    decreases nodes, 1
  {
    if nodes == [] then r else VisitAll(VisitDom(r, nodes[0], inherited, parent), nodes[1..], inherited, parent)
  }

  function AddDomTree(r: Registry, root: DomNode): Registry {
    VisitDom(r, root, OrElse(root.frameId, r.main), None)
  }

  datatype Record = Record(backendNodeId: nat, layout: Layout)

  ghost function AddRecord(r: Registry, record: Record): Registry {
    var existing := ResolveKey(r, record.backendNodeId, record.layout.frameId);
    var frameId := if record.layout.frameId.Some? then record.layout.frameId.value
                   else if existing.Some? then r.nodes[existing.value].frameId else r.main;
    var key := if existing.Some? then existing.value else CanonicalKey(frameId, record.backendNodeId);
    var ensured := Ensure(r, key, frameId, Some(record.backendNodeId));
    Put(ensured, key, ensured.nodes[key].(layout := Some(record.layout)))
  }

  ghost function AddRecords(r: Registry, records: seq<Record>): Registry
    decreases |records|
  {
    if records == [] then r else AddRecords(AddRecord(r, records[0]), records[1..])
  }

  ghost function ExistingAxKey(r: Registry, ax: AxNode): Option<string> {
    if ax.backendNodeId.Some? && ax.backendNodeId.value != 0 then ResolveKey(r, ax.backendNodeId.value, None) else None
  }

  ghost function AxKey(r: Registry, ax: AxNode): string {
    if ExistingAxKey(r, ax).Some? then ExistingAxKey(r, ax).value
    else if ax.backendNodeId.Some? && ax.backendNodeId.value != 0 then CanonicalKey(r.main, ax.backendNodeId.value)
    else AxOnlyKey(ax.nodeId)
  }

  ghost function NoteAx(r: Registry, ax: AxNode): Registry {
    var existing := ExistingAxKey(r, ax);
    var key := AxKey(r, ax);
    var frameId := if existing.Some? then r.nodes[existing.value].frameId else r.main;
    var ensured := Ensure(r, key, frameId, ax.backendNodeId);
    Put(ensured, key, ensured.nodes[key].(ax := Some(ax)))
  }

  /** The registry with every accessibility node noted, and the key each accessibility id got. */
  datatype Keyed = Keyed(registry: Registry, keyByAxId: map<string, string>)

  ghost function NoteAllAx(s: Keyed, nodes: seq<AxNode>): Keyed
    decreases |nodes|
  {
    if nodes == [] then s
    else NoteAllAx(Keyed(NoteAx(s.registry, nodes[0]), s.keyByAxId[nodes[0].nodeId := AxKey(s.registry, nodes[0])]),
                   nodes[1..])
  }

  function LinkChild(r: Registry, keyByAxId: map<string, string>, parentKey: string, childId: string): Registry {
    if childId !in keyByAxId || keyByAxId[childId] == parentKey || keyByAxId[childId] !in r.nodes then r
    else Put(r, keyByAxId[childId], r.nodes[keyByAxId[childId]].(axParentKey := Some(parentKey)))
  }

  function LinkChildren(r: Registry, keyByAxId: map<string, string>, parentKey: string, childIds: seq<string>): Registry
    decreases |childIds|
  {
    if childIds == [] then r
      else LinkChildren(LinkChild(r, keyByAxId, parentKey, childIds[0]), keyByAxId, parentKey, childIds[1..])
  }

  function LinkAllAx(r: Registry, keyByAxId: map<string, string>, nodes: seq<AxNode>): Registry
    decreases |nodes|
  {
    if nodes == [] then r
    else
      var linked := if nodes[0].nodeId in keyByAxId
        then LinkChildren(r, keyByAxId, keyByAxId[nodes[0].nodeId], nodes[0].childIds) else r;
      LinkAllAx(linked, keyByAxId, nodes[1..])
  }

  ghost function AddAxTree(r: Registry, nodes: seq<AxNode>): Registry {
    var keyed := NoteAllAx(Keyed(r, map[]), nodes);
    LinkAllAx(keyed.registry, keyed.keyByAxId, nodes)
  }

  function ElementKey(main: string, e: Element): string {
    CanonicalKey(OrElse(e.frameId, main), e.backendNodeId)
  }

  ghost function AddElement(r: Registry, e: Element): Registry {
    var frameId := OrElse(e.frameId, r.main);
    var key := CanonicalKey(frameId, e.backendNodeId);
    var ensured := Ensure(r, key, frameId, Some(e.backendNodeId));
    var targeted := Put(ensured, key, ensured.nodes[key].(target := Some(e)));
    if e.semanticBackendNodeId.Some? && e.semanticBackendNodeId.value != e.backendNodeId then
      var source := OrElse(ResolveKey(targeted, e.semanticBackendNodeId.value, Some(frameId)),
                           CanonicalKey(frameId, e.semanticBackendNodeId.value));
      Put(targeted, key, targeted.nodes[key].(semanticSourceKey := Some(source)))
    else targeted
  }

  ghost function AddElements(r: Registry, elements: seq<Element>): Registry
    decreases |elements|
  {
    if elements == [] then r else AddElements(AddElement(r, elements[0]), elements[1..])
  }

  // ---- The registry as an object with an index by backend id ----

  class CanonicalNodeRegistry {
    const mainFrameId: string
    var order: seq<string>
    var nodes: map<string, Node>
    var keysByBackendNodeId: map<nat, set<string>>

    ghost function AsRegistry(): Registry
      reads this
    {
      Registry(mainFrameId, order, nodes)
    }

    /** The index lists for every backend id exactly the keys of the nodes that carry it. */
    ghost predicate Valid()
      reads this
    {
      forall b: nat :: Indexed(b) == Carriers(AsRegistry(), b)
    }

    ghost function Indexed(b: nat): set<string>
      reads this
    {
      if b in keysByBackendNodeId then keysByBackendNodeId[b] else {}
    }

    constructor (mainFrameId: string)
      ensures Valid() && AsRegistry() == Empty(mainFrameId)
    {
      this.mainFrameId := mainFrameId;
      order, nodes, keysByBackendNodeId := [], map[], map[];
    }

    method EnsureNode(key: string, frameId: string, backendNodeId: Option<nat>)
      requires Valid()
      modifies this
      ensures Valid() && AsRegistry() == Ensure(old(AsRegistry()), key, frameId, backendNodeId)
    {
      if key in nodes {
        return;
      }
      ghost var before := AsRegistry();
      order := order + [key];
      nodes := nodes[key := Fresh(key, frameId, backendNodeId)];
      if backendNodeId.Some? {
        var b := backendNodeId.value;
        var keys := if b in keysByBackendNodeId then keysByBackendNodeId[b] else {};
        keysByBackendNodeId := keysByBackendNodeId[b := keys + {key}];
      }
      forall b: nat ensures Indexed(b) == Carriers(AsRegistry(), b) {
        assert Carriers(AsRegistry(), b) == Carriers(before, b) + if backendNodeId == Some(b) then {key} else {};
      }
    }

    /** Changes a node's other fields. */
    method SetNode(key: string, node: Node)
      requires Valid() && key in nodes && node.backendNodeId == nodes[key].backendNodeId
      modifies this`nodes
      ensures Valid() && AsRegistry() == Put(old(AsRegistry()), key, node)
    {
      ghost var before := AsRegistry();
      nodes := nodes[key := node];
      forall b: nat ensures Indexed(b) == Carriers(AsRegistry(), b) {
        assert Carriers(AsRegistry(), b) == Carriers(before, b);
      }
    }

    /** The index gives the same answer as a search through all nodes. */
    method Resolve(backendNodeId: nat, frameId: Option<string>) returns (r: Option<string>)
      requires Valid()
      ensures r == ResolveKey(AsRegistry(), backendNodeId, frameId)
    {
      if frameId.Some? && frameId.value != "" {
        var exact := CanonicalKey(frameId.value, backendNodeId);
        if exact in nodes {
          return Some(exact);
        }
      }
      var keys := if backendNodeId in keysByBackendNodeId then keysByBackendNodeId[backendNodeId] else {};
      assert keys == Indexed(backendNodeId) == Carriers(AsRegistry(), backendNodeId);
      if keys == {} {
        return None;
      }
      if |keys| == 1 {
        var only :| only in keys;
        forall k | k in keys ensures k == only {
          OnlyMember(keys, only, k);
        }
        return Some(only);
      }
      var mainFrameKey := CanonicalKey(mainFrameId, backendNodeId);
      return if mainFrameKey in keys then Some(mainFrameKey) else None;
    }

    method AddDOMTree(root: DomNode)
      requires Valid()
      modifies this
      ensures Valid() && AsRegistry() == AddDomTree(old(AsRegistry()), root)
    {
      Visit(root, OrElse(root.frameId, mainFrameId), None);
    }

    method Visit(node: DomNode, inherited: string, parent: Option<string>)
      requires Valid()
      modifies this
      ensures Valid() && AsRegistry() == VisitDom(old(AsRegistry()), node, inherited, parent)
      decreases node, 0
    {
      var frameId := OrElse(node.frameId, inherited);
      var key := CanonicalKey(frameId, node.backendNodeId);
      EnsureNode(key, frameId, Some(node.backendNodeId));
      var noted := nodes[key].(dom := Some(node));
      SetNode(key, if parent.Some? && parent.value != key then noted.(domParentKey := parent) else noted);
      assert AsRegistry() == NoteDom(old(AsRegistry()), node, inherited, parent);
      VisitEach(node.children, frameId, Some(key));
      VisitEach(node.shadowRoots, frameId, Some(key));
      if node.contentDocument.Some? {
        Visit(node.contentDocument.value, OrElse(node.contentDocument.value.frameId, frameId), Some(key));
      }
    }

    method VisitEach(children: seq<DomNode>, inherited: string, parent: Option<string>)
      requires Valid()
      modifies this
      ensures Valid() && AsRegistry() == VisitAll(old(AsRegistry()), children, inherited, parent)
      decreases children, 1
    {
      if children != [] {
        Visit(children[0], inherited, parent);
        VisitEach(children[1..], inherited, parent);
      }
    }

    method AddSnapshotRecords(records: seq<Record>)
      requires Valid()
      modifies this
      ensures Valid() && AsRegistry() == AddRecords(old(AsRegistry()), records)
    {
      var i := 0;
      while i < |records|
        invariant 0 <= i <= |records| && Valid()
        invariant AddRecords(AsRegistry(), records[i..]) == AddRecords(old(AsRegistry()), records)
      {
        AddOneRecord(records[i]);
        assert records[i..][1..] == records[i + 1..];
        i := i + 1;
      }
    }

    method AddOneRecord(record: Record)
      requires Valid()
      modifies this
      ensures Valid() && AsRegistry() == AddRecord(old(AsRegistry()), record)
    {
      var existing := Resolve(record.backendNodeId, record.layout.frameId);
      var frameId := if record.layout.frameId.Some? then record.layout.frameId.value
                     else if existing.Some? then nodes[existing.value].frameId else mainFrameId;
      var key := if existing.Some? then existing.value else CanonicalKey(frameId, record.backendNodeId);
      EnsureNode(key, frameId, Some(record.backendNodeId));
      SetNode(key, nodes[key].(layout := Some(record.layout)));
    }

    method AddAXTree(axNodes: seq<AxNode>)
      requires Valid()
      modifies this
      ensures Valid() && AsRegistry() == AddAxTree(old(AsRegistry()), axNodes)
    {
      var keyByAxId: map<string, string> := map[];
      ghost var all := NoteAllAx(Keyed(AsRegistry(), map[]), axNodes);
      var i := 0;
      while i < |axNodes|
        invariant 0 <= i <= |axNodes| && Valid()
        invariant NoteAllAx(Keyed(AsRegistry(), keyByAxId), axNodes[i..]) == all
      {
        var key := NoteOneAx(axNodes[i]);
        keyByAxId := keyByAxId[axNodes[i].nodeId := key];
        assert axNodes[i..][1..] == axNodes[i + 1..];
        i := i + 1;
      }
      LinkParents(keyByAxId, axNodes);
    }

    method NoteOneAx(axNode: AxNode) returns (key: string)
      requires Valid()
      modifies this
      ensures Valid() && AsRegistry() == NoteAx(old(AsRegistry()), axNode) && key == AxKey(old(AsRegistry()), axNode)
    {
      var existing := None;
      if axNode.backendNodeId.Some? && axNode.backendNodeId.value != 0 {
        existing := Resolve(axNode.backendNodeId.value, None);
      }
      key := if existing.Some? then existing.value
             else if axNode.backendNodeId.Some? && axNode.backendNodeId.value != 0
               then CanonicalKey(mainFrameId, axNode.backendNodeId.value)
             else AxOnlyKey(axNode.nodeId);
      var frameId := if existing.Some? then nodes[existing.value].frameId else mainFrameId;
      EnsureNode(key, frameId, axNode.backendNodeId);
      SetNode(key, nodes[key].(ax := Some(axNode)));
    }

    method LinkParents(keyByAxId: map<string, string>, axNodes: seq<AxNode>)
      requires Valid()
      modifies this
      ensures Valid() && AsRegistry() == LinkAllAx(old(AsRegistry()), keyByAxId, axNodes)
    {
      var i := 0;
      while i < |axNodes|
        invariant 0 <= i <= |axNodes| && Valid()
        invariant LinkAllAx(AsRegistry(), keyByAxId, axNodes[i..]) == LinkAllAx(old(AsRegistry()), keyByAxId, axNodes)
      {
        assert axNodes[i..][1..] == axNodes[i + 1..];
        if axNodes[i].nodeId in keyByAxId {
          LinkOneParent(keyByAxId, keyByAxId[axNodes[i].nodeId], axNodes[i].childIds);
        }
        i := i + 1;
      }
    }

    method LinkOneParent(keyByAxId: map<string, string>, parentKey: string, childIds: seq<string>)
      requires Valid()
      modifies this
      ensures Valid() && AsRegistry() == LinkChildren(old(AsRegistry()), keyByAxId, parentKey, childIds)
    {
      var i := 0;
      while i < |childIds|
        invariant 0 <= i <= |childIds| && Valid()
        invariant LinkChildren(AsRegistry(), keyByAxId, parentKey, childIds[i..]) ==
          LinkChildren(old(AsRegistry()), keyByAxId, parentKey, childIds)
      {
        assert childIds[i..][1..] == childIds[i + 1..];
        if childIds[i] in keyByAxId {
          var childKey := keyByAxId[childIds[i]];
          if childKey != parentKey && childKey in nodes {
            SetNode(childKey, nodes[childKey].(axParentKey := Some(parentKey)));
          }
        }
        i := i + 1;
      }
    }

    method AddInteractiveElements(elements: seq<Element>)
      requires Valid()
      modifies this
      ensures Valid() && AsRegistry() == AddElements(old(AsRegistry()), elements)
    {
      var i := 0;
      while i < |elements|
        invariant 0 <= i <= |elements| && Valid()
        invariant AddElements(AsRegistry(), elements[i..]) == AddElements(old(AsRegistry()), elements)
      {
        AddOneElement(elements[i]);
        assert elements[i..][1..] == elements[i + 1..];
        i := i + 1;
      }
    }

    method AddOneElement(e: Element)
      requires Valid()
      modifies this
      ensures Valid() && AsRegistry() == AddElement(old(AsRegistry()), e)
    {
      var frameId := OrElse(e.frameId, mainFrameId);
      var key := CanonicalKey(frameId, e.backendNodeId);
      EnsureNode(key, frameId, Some(e.backendNodeId));
      SetNode(key, nodes[key].(target := Some(e)));
      if e.semanticBackendNodeId.Some? && e.semanticBackendNodeId.value != e.backendNodeId {
        var source := Resolve(e.semanticBackendNodeId.value, Some(frameId));
        SetNode(key,
                nodes[key].(semanticSourceKey := Some(OrElse(source,
                                                             CanonicalKey(frameId, e.semanticBackendNodeId.value)))));
      }
    }
  }
}
