/**
 The semantic page tree: of the fused nodes of a page the meaningful ones are kept, each under its nearest kept
 ancestor (packages/browser-core/src/browser-semantic-tree.ts).
 */
module SemanticTree {
  import opened Prelude
  import opened SemanticRegistry
  import opened SemanticParents
  import F = Forest

  // ---- Which nodes are kept ----

  /** What is read off a node and its semantic source: role, name, description, and whether it has any state. */
  datatype Description = Description(role: string, name: string, description: string, hasState: bool)

  /** The readers of a page's texts and styles. */
  datatype Readers = Readers(describe: (Node, Option<Node>) -> Description, hidden: Node -> bool)

  const STRUCTURAL_ROLES := {
    "document", "main", "navigation", "region", "article", "form", "dialog", "alertdialog", "heading", "list",
    "listitem", "table", "row", "cell", "columnheader", "rowheader", "group" }

  const TEXT_CONTEXT_ROLES := { "paragraph", "label", "caption", "note", "status", "alert", "description" }

  predicate IsMeaningful(d: Description, actionable: bool) {
    if actionable then true
    else if d.role in STRUCTURAL_ROLES then d.role != "group" || d.name != ""
    else if d.role in TEXT_CONTEXT_ROLES then d.name != "" || d.description != ""
    else d.hasState && d.role != "generic"
  }

  predicate IsText(node: Node) {
    node.dom.Some? && (node.dom.value.nodeType == 3 || node.dom.value.nodeType == 8)
  }

  /** The keys that other nodes name as their semantic source. */
  function Aliased(r: Registry): set<string> {
    set k | k in r.nodes && r.nodes[k].semanticSourceKey.Some? :: r.nodes[k].semanticSourceKey.value
  }

  predicate IsCandidate(r: Registry, readers: Readers, aliased: set<string>, key: string)
    requires key in r.nodes
  {
    var node := r.nodes[key];
    && !IsText(node)
    && !(node.ax.Some? && node.ax.value.ignored && node.target.None?)
    && !(node.target.None? && readers.hidden(node))
    && !(key in aliased && node.target.None?)
  }

  function Describe(r: Registry, readers: Readers, key: string): Description
    requires key in r.nodes
  {
    var node := r.nodes[key];
    readers.describe(node,
      if node.semanticSourceKey.Some? && node.semanticSourceKey.value in r.nodes
        then Some(r.nodes[node.semanticSourceKey.value]) else None)
  }

  predicate IsKept(r: Registry, readers: Readers, aliased: set<string>, key: string)
    requires key in r.nodes
  {
    IsCandidate(r, readers, aliased, key) && IsMeaningful(Describe(r, readers, key), r.nodes[key].target.Some?)
  }

  function Keeps(r: Registry, readers: Readers, aliased: set<string>): string -> bool {
    (key: string) => key in r.nodes && IsKept(r, readers, aliased, key)
  }

  function Collapses(r: Registry, readers: Readers, aliased: set<string>): string -> bool {
    (key: string) => key in r.nodes && IsCandidate(r, readers, aliased, key) && !IsKept(r, readers, aliased, key)
  }

  function KeptKeys(r: Registry, readers: Readers): seq<string> {
    Filter(r.order, Keeps(r, readers, Aliased(r)))
  }

  // ---- The registry lists every node once ----

  ghost predicate OrderOk(r: Registry, main: string) {
    r.main == main && Distinct(r.order) && forall k :: k in r.order <==> k in r.nodes
  }

  lemma EnsureListed(r: Registry, key: string, frameId: string, backendNodeId: Option<nat>)
    requires OrderOk(r, r.main)
    ensures OrderOk(Ensure(r, key, frameId, backendNodeId), r.main)
  {
  }

  lemma {:induction false} DomListed(r: Registry, node: DomNode, inherited: string, parent: Option<string>)
    requires OrderOk(r, r.main)
    ensures OrderOk(VisitDom(r, node, inherited, parent), r.main)
    decreases node, 0
  {
    var frameId := OrElse(node.frameId, inherited);
    var key := Some(DomKey(node, inherited));
    var r1 := NoteDom(r, node, inherited, parent);
    EnsureListed(r, DomKey(node, inherited), frameId, Some(node.backendNodeId));
    AllDomListed(r1, node.children, frameId, key);
    var r2 := VisitAll(r1, node.children, frameId, key);
    AllDomListed(r2, node.shadowRoots, frameId, key);
    if node.contentDocument.Some? {
      DomListed(VisitAll(r2, node.shadowRoots, frameId, key), node.contentDocument.value,
                OrElse(node.contentDocument.value.frameId, frameId), key);
    }
  }

  lemma {:induction false} AllDomListed(r: Registry, nodes: seq<DomNode>, inherited: string, parent: Option<string>)
    requires OrderOk(r, r.main)
    ensures OrderOk(VisitAll(r, nodes, inherited, parent), r.main)
    decreases nodes, 1
  {
    if nodes != [] {
      DomListed(r, nodes[0], inherited, parent);
      AllDomListed(VisitDom(r, nodes[0], inherited, parent), nodes[1..], inherited, parent);
    }
  }

  lemma {:induction false} RecordsListed(r: Registry, records: seq<Record>)
    requires OrderOk(r, r.main)
    ensures OrderOk(AddRecords(r, records), r.main)
    decreases |records|
  {
    if records != [] {
      RecordsListed(AddRecord(r, records[0]), records[1..]);
    }
  }

  lemma {:induction false} AxNotesListed(s: Keyed, nodes: seq<AxNode>)
    requires OrderOk(s.registry, s.registry.main)
    ensures OrderOk(NoteAllAx(s, nodes).registry, s.registry.main)
    decreases |nodes|
  {
    if nodes != [] {
      AxNotesListed(Keyed(NoteAx(s.registry, nodes[0]), s.keyByAxId[nodes[0].nodeId := AxKey(s.registry, nodes[0])]),
                    nodes[1..]);
    }
  }

  lemma {:induction false} ChildrenListed(r: Registry, keyByAxId: map<string, string>, parentKey: string,
                                          childIds: seq<string>)
    requires OrderOk(r, r.main)
    ensures OrderOk(LinkChildren(r, keyByAxId, parentKey, childIds), r.main)
    decreases |childIds|
  {
    if childIds != [] {
      ChildrenListed(LinkChild(r, keyByAxId, parentKey, childIds[0]), keyByAxId, parentKey, childIds[1..]);
    }
  }

  lemma {:induction false} AxLinksListed(r: Registry, keyByAxId: map<string, string>, nodes: seq<AxNode>)
    requires OrderOk(r, r.main)
    ensures OrderOk(LinkAllAx(r, keyByAxId, nodes), r.main)
    decreases |nodes|
  {
    if nodes != [] {
      var linked := r;
      if nodes[0].nodeId in keyByAxId {
        ChildrenListed(r, keyByAxId, keyByAxId[nodes[0].nodeId], nodes[0].childIds);
        linked := LinkChildren(r, keyByAxId, keyByAxId[nodes[0].nodeId], nodes[0].childIds);
      }
      AxLinksListed(linked, keyByAxId, nodes[1..]);
    }
  }

  lemma {:induction false} ElementsListed(r: Registry, elements: seq<Element>)
    requires OrderOk(r, r.main)
    ensures OrderOk(AddElements(r, elements), r.main)
    decreases |elements|
  {
    if elements != [] {
      ElementsListed(AddElement(r, elements[0]), elements[1..]);
    }
  }

  /** However its sources overlap, the registry lists each of its nodes exactly once. */
  lemma RegistryListsNodesOnce(input: Input)
    ensures OrderOk(BuildRegistry(input), input.main)
  {
    var r := Empty(input.main);
    if input.domRoot.Some? {
      DomListed(r, input.domRoot.value, OrElse(input.domRoot.value.frameId, r.main), None);
      r := AddDomTree(r, input.domRoot.value);
    }
    RecordsListed(r, input.records);
    r := AddRecords(r, input.records);
    AxNotesListed(Keyed(r, map[]), input.axNodes);
    var keyed := NoteAllAx(Keyed(r, map[]), input.axNodes);
    AxLinksListed(keyed.registry, keyed.keyByAxId, input.axNodes);
    ElementsListed(AddAxTree(r, input.axNodes), input.elements);
  }

  // ---- Interactive elements are kept ----

  ghost predicate Targeted(r: Registry, s: Registry) {
    s.main == r.main && forall k | k in r.nodes :: k in s.nodes && (r.nodes[k].target.Some? ==> s.nodes[k].target.Some?)
  }

  ghost predicate IsTargeted(r: Registry, e: Element) {
    var key := ElementKey(r.main, e);
    key in r.nodes && r.nodes[key].target.Some?
  }

  lemma ElementTargeted(r: Registry, e: Element)
    ensures Targeted(r, AddElement(r, e)) && IsTargeted(AddElement(r, e), e)
  {
  }

  lemma {:induction false} ElementsTargeted(r: Registry, elements: seq<Element>)
    ensures Targeted(r, AddElements(r, elements))
    ensures forall e | e in elements :: IsTargeted(AddElements(r, elements), e)
    decreases |elements|
  {
    if elements != [] {
      ElementTargeted(r, elements[0]);
      ElementsTargeted(AddElement(r, elements[0]), elements[1..]);
      assert elements == [elements[0]] + elements[1..];
    }
  }

  /** The element an input lists is the target of the node its key names. */
  lemma ElementsAreTargets(input: Input, e: Element)
    requires e in input.elements
    ensures var r, key := BuildRegistry(input), ElementKey(input.main, e);
      key in r.nodes && r.nodes[key].target.Some?
  {
    var withDom := if input.domRoot.Some? then AddDomTree(Empty(input.main), input.domRoot.value)
      else Empty(input.main);
    var r := AddAxTree(AddRecords(withDom, input.records), input.axNodes);
    RegistryListsNodesOnce(input);
    ElementsTargeted(r, input.elements);
    assert BuildRegistry(input) == AddElements(r, input.elements);
  }

  lemma TargetsAreKept(r: Registry, readers: Readers, key: string)
    requires OrderOk(r, r.main) && key in r.nodes && r.nodes[key].target.Some?
    ensures key in KeptKeys(r, readers) <==> !IsText(r.nodes[key])
  {
    FilterMembers(r.order, Keeps(r, readers, Aliased(r)));
    assert key in r.order;
  }

  /** An interactive element is kept unless its DOM node is a text or a comment; nothing else decides. */
  lemma InteractiveElementsAreKept(input: Input, readers: Readers, e: Element)
    requires e in input.elements
    ensures var r, key := BuildRegistry(input), ElementKey(input.main, e);
      && key in r.nodes && r.nodes[key].target.Some?
      && (key in KeptKeys(r, readers) <==> !(r.nodes[key].dom.Some? && r.nodes[key].dom.value.nodeType in {3, 8}))
  {
    ElementsAreTargets(input, e);
    RegistryListsNodesOnce(input);
    TargetsAreKept(BuildRegistry(input), readers, ElementKey(input.main, e));
  }

  function IsTarget(r: Registry): string -> bool {
    (key: string) => key in r.nodes && r.nodes[key].target.Some?
  }

  function IsPlainTarget(r: Registry): string -> bool {
    (key: string) => key in r.nodes && r.nodes[key].target.Some? && !IsText(r.nodes[key])
  }

  /** The kept targets are all the targets of the page, in order, but those on a text or a comment. */
  lemma ActionableNodesAreConserved(r: Registry, readers: Readers)
    ensures Filter(KeptKeys(r, readers), IsTarget(r)) == Filter(r.order, IsPlainTarget(r))
  {
    FilterTwice(r.order, Keeps(r, readers, Aliased(r)), IsTarget(r), IsPlainTarget(r));
  }

  /** An element names the node at `key` as its semantic source. */
  ghost predicate IsSource(r: Registry, key: string) {
    exists j :: j in r.nodes && r.nodes[j].semanticSourceKey == Some(key)
  }

  /** A role, name or state that says something: what a node that is no target needs to be kept. */
  predicate SaysSomething(d: Description) {
    || (d.role in STRUCTURAL_ROLES && !(d.role == "group" && d.name == ""))
    || (d.role in TEXT_CONTEXT_ROLES && !(d.name == "" && d.description == ""))
    || (d.role !in STRUCTURAL_ROLES + TEXT_CONTEXT_ROLES + {"generic"} && d.hasState)
  }

  /** A DOM node of type 3 or 8, section 4.4 of the DOM Standard. */
  predicate IsTextOrComment(node: Node) {
    node.dom.Some? && node.dom.value.nodeType in {3, 8}
  }

  /** What is read off the node at `key`, with the node that its source names, if that is on the page. */
  predicate IsRead(r: Registry, readers: Readers, key: string, d: Description)
    requires key in r.nodes
  {
    var node := r.nodes[key];
    && (forall k | node.semanticSourceKey == Some(k) && k in r.nodes :: d == readers.describe(node, Some(r.nodes[k])))
    && (node.semanticSourceKey.None? || node.semanticSourceKey.value !in r.nodes ==> d == readers.describe(node, None))
  }

  /** Shown, in the accessibility tree if anywhere, and standing for itself: no element has it for its source. */
  ghost predicate StandsAlone(r: Registry, readers: Readers, key: string)
    requires key in r.nodes
  {
    && !IsTextOrComment(r.nodes[key]) && !readers.hidden(r.nodes[key])
    && !(r.nodes[key].ax.Some? && r.nodes[key].ax.value.ignored) && !IsSource(r, key)
  }

  /**
   A node that is no target is kept exactly when it says something, is neither text, comment, ignored nor hidden, and
   stands for itself; when it only says nothing it is counted as collapsed.
   */
  lemma PlainNodeIsKeptIff(r: Registry, readers: Readers, key: string, d: Description)
    requires OrderOk(r, r.main) && key in r.nodes && r.nodes[key].target.None? && IsRead(r, readers, key, d)
    ensures key in KeptKeys(r, readers) <==> StandsAlone(r, readers, key) && SaysSomething(d)
    ensures key in Filter(r.order, Collapses(r, readers, Aliased(r))) <==>
      StandsAlone(r, readers, key) && !SaysSomething(d)
  {
    FilterMembers(r.order, Keeps(r, readers, Aliased(r)));
    FilterMembers(r.order, Collapses(r, readers, Aliased(r)));
    assert key in r.order;
    MeaningfulIff(d);
    assert Describe(r, readers, key) == d;
    assert key in Aliased(r) <==> IsSource(r, key);
  }

  lemma MeaningfulIff(d: Description)
    ensures IsMeaningful(d, false) <==> SaysSomething(d)
  {
    RolesApart(d.role);
  }

  lemma RolesApart(role: string)
    ensures role in TEXT_CONTEXT_ROLES ==> role !in STRUCTURAL_ROLES && role != "generic"
    ensures "generic" !in STRUCTURAL_ROLES
  {
  }

  // ---- The nearest kept ancestor ----

  function Next(r: Registry, key: string): Option<string> {
    if key in r.nodes then ParentOf(r.nodes[key]) else None
  }

  /** The ancestor `d` steps above `key`. */
  function Ancestor(r: Registry, key: string, d: nat): Option<string> {
    if d == 0 then Some(key)
    else match Ancestor(r, key, d - 1)
      case None => None
      case Some(below) => Next(r, below)
  }

  ghost predicate FirstAt(r: Registry, kept: seq<string>, key: string, p: Option<string>, d: nat) {
    && Ancestor(r, key, d) == p
    && forall e: nat | 0 < e < d :: Ancestor(r, key, e).Some? && Ancestor(r, key, e).value !in kept
  }

  /** `p` is the first kept node above `key`, or there is none at all. */
  ghost predicate IsNearest(r: Registry, kept: seq<string>, key: string, p: Option<string>) {
    if p.Some? then
      p.value in kept && exists d: nat :: d > 0 && FirstAt(r, kept, key, p, d)
    else forall d: nat | d > 0 :: Ancestor(r, key, d).Some? ==> Ancestor(r, key, d).value !in kept
  }

  /** The walk upwards, which stops at the first kept node and where it has been before. */
  function Walk(r: Registry, kept: seq<string>, at: Option<string>, visited: set<string>): (p: Option<string>)
    ensures p.Some? ==> p.value in kept
    decreases |r.nodes.Keys - visited|, if at.Some? then 1 else 0
  {
    if at.None? || at.value in visited then None
    else if at.value in kept then at
    else
      Unvisited(r, at.value, visited);
      Walk(r, kept, Next(r, at.value), visited + {at.value})
  }

  lemma Unvisited(r: Registry, key: string, visited: set<string>)
    requires key !in visited
    ensures |r.nodes.Keys - (visited + {key})| <= |r.nodes.Keys - visited|
    ensures key in r.nodes ==> |r.nodes.Keys - (visited + {key})| < |r.nodes.Keys - visited|
  {
    var left := r.nodes.Keys - visited;
    assert r.nodes.Keys - (visited + {key}) == left - {key};
  }

  /** Everything visited leads on to what was visited too, or to where the walk is now. */
  ghost predicate Trail(r: Registry, kept: seq<string>, key: string, at: Option<string>, visited: set<string>, d: nat) {
    && d > 0 && Ancestor(r, key, d) == at
    && (forall v | v in visited ::
      v !in kept && (Next(r, v) == at || (Next(r, v).Some? && Next(r, v).value in visited)))
    && (forall e: nat | 0 < e < d :: Ancestor(r, key, e).Some? && Ancestor(r, key, e).value in visited)
  }

  lemma {:induction false} AncestorsEnd(r: Registry, key: string, d: nat, e: nat)
    requires d <= e && Ancestor(r, key, d).None?
    ensures Ancestor(r, key, e).None?
  {
    if d < e {
      AncestorsEnd(r, key, d, e - 1);
    }
  }

  lemma {:induction false} AncestorsCircle(r: Registry, kept: seq<string>, key: string, at: Option<string>,
                                           visited: set<string>, d: nat, e: nat)
    requires Trail(r, kept, key, at, visited, d) && at.Some? && at.value in visited && d <= e
    ensures Ancestor(r, key, e).Some? && Ancestor(r, key, e).value in visited
  {
    if d < e {
      AncestorsCircle(r, kept, key, at, visited, d, e - 1);
    }
  }

  /** A walk that ends, or comes back to where it was, has passed no kept node and never will. */
  lemma NothingKeptAbove(r: Registry, kept: seq<string>, key: string, at: Option<string>, visited: set<string>, d: nat)
    requires Trail(r, kept, key, at, visited, d) && (at.None? || at.value in visited)
    ensures IsNearest(r, kept, key, None)
  {
    forall e: nat | e > 0 ensures Ancestor(r, key, e).Some? ==> Ancestor(r, key, e).value !in kept {
      if d <= e {
        if at.None? {
          AncestorsEnd(r, key, d, e);
        } else {
          AncestorsCircle(r, kept, key, at, visited, d, e);
        }
      }
    }
  }

  lemma TrailGoesOn(r: Registry, kept: seq<string>, key: string, at: string, visited: set<string>, d: nat)
    requires Trail(r, kept, key, Some(at), visited, d) && at !in kept
    ensures Trail(r, kept, key, Next(r, at), visited + {at}, d + 1)
  {
  }

  lemma {:induction false} WalkIsNearest(r: Registry, kept: seq<string>, key: string, at: Option<string>,
                                         visited: set<string>, d: nat)
    requires Trail(r, kept, key, at, visited, d)
    ensures IsNearest(r, kept, key, Walk(r, kept, at, visited))
    decreases |r.nodes.Keys - visited|, if at.Some? then 1 else 0
  {
    if at.None? || at.value in visited {
      NothingKeptAbove(r, kept, key, at, visited, d);
    } else if at.value in kept {
      assert FirstAt(r, kept, key, at, d);
    } else {
      Unvisited(r, at.value, visited);
      TrailGoesOn(r, kept, key, at.value, visited, d);
      WalkIsNearest(r, kept, key, Next(r, at.value), visited + {at.value}, d + 1);
    }
  }

  /** The search ends on every parent relation, circular ones included, at the nearest kept ancestor if there is one. */
  method NearestSemanticParent(r: Registry, kept: seq<string>, key: string) returns (p: Option<string>)
    ensures p == Walk(r, kept, Next(r, key), {})
    ensures IsNearest(r, kept, key, p)
  {
    assert Ancestor(r, key, 1) == Next(r, key) by {
      assert Ancestor(r, key, 0) == Some(key);
    }
    WalkIsNearest(r, kept, key, Next(r, key), {}, 1);
    var at := Next(r, key);
    var visited := {};
    while at.Some? && at.value !in visited
      invariant Walk(r, kept, at, visited) == Walk(r, kept, Next(r, key), {})
      decreases |r.nodes.Keys - visited|, if at.Some? then 1 else 0
    {
      Unvisited(r, at.value, visited);
      if at.value in kept {
        return at;
      }
      visited := visited + {at.value};
      at := Next(r, at.value);
    }
    return None;
  }

  lemma NearestIsUnique(r: Registry, kept: seq<string>, key: string, p: Option<string>, q: Option<string>)
    requires IsNearest(r, kept, key, p) && IsNearest(r, kept, key, q)
    ensures p == q
  {
    if p.Some? && q.Some? {
      var d: nat :| d > 0 && FirstAt(r, kept, key, p, d);
      var c: nat :| c > 0 && FirstAt(r, kept, key, q, c);
      assert !(c < d) && !(d < c);
    }
  }

  // ---- Putting the tree together ----

  /** A kept node's parent in the tree; a node that is its own nearest kept ancestor becomes a root. */
  function Attached(r: Registry, kept: seq<string>, key: string): Option<string> {
    var p := Walk(r, kept, Next(r, key), {});
    if p == Some(key) then None else p
  }

  function Attachments(r: Registry, kept: seq<string>): F.Parents {
    map key | key in kept :: Attached(r, kept, key)
  }

  datatype Stats = Stats(canonicalNodeCount: nat, semanticNodeCount: nat, actionableCount: nat, collapsedCount: nat)

  datatype PageTree = PageTree(roots: seq<string>, children: map<string, seq<string>>, stats: Stats)

  method KeepNodes(r: Registry, readers: Readers) returns (kept: seq<string>, collapsed: nat)
    requires OrderOk(r, r.main)
    ensures kept == KeptKeys(r, readers)
    ensures collapsed == |Filter(r.order, Collapses(r, readers, Aliased(r)))|
  {
    var aliased := Aliased(r);
    kept, collapsed := [], 0;
    for i := 0 to |r.order|
      invariant kept == Filter(r.order[..i], Keeps(r, readers, aliased))
      invariant collapsed == |Filter(r.order[..i], Collapses(r, readers, aliased))|
    {
      var key := r.order[i];
      FilterSnoc(r.order, i, Keeps(r, readers, aliased));
      FilterSnoc(r.order, i, Collapses(r, readers, aliased));
      if IsCandidate(r, readers, aliased, key) {
        if IsMeaningful(Describe(r, readers, key), r.nodes[key].target.Some?) {
          kept := kept + [key];
        } else {
          collapsed := collapsed + 1;
        }
      }
    }
    assert r.order[..|r.order|] == r.order;
  }

  /** What has been pushed when `part` of the kept nodes has been attached. */
  ghost predicate Pushed(part: seq<string>, kept: seq<string>, up: F.Parents, roots: seq<string>,
                         children: map<string, seq<string>>) {
    && roots == F.ChildrenOf(part, up, None)
    && children.Keys == (set k | k in kept)
    && forall k | k in children :: children[k] == F.ChildrenOf(part, up, Some(k))
  }

  lemma OneMoreChild(part: seq<string>, key: string, up: F.Parents, p: Option<string>)
    requires key in up
    ensures F.ChildrenOf(part + [key], up, p) == F.ChildrenOf(part, up, p) + if up[key] == p then [key] else []
  {
    FilterAppend(part, [key], F.HasParent(up, p));
  }

  lemma Push(part: seq<string>, key: string, kept: seq<string>, up: F.Parents, roots: seq<string>,
             children: map<string, seq<string>>)
    requires Pushed(part, kept, up, roots, children) && key in up && (up[key].Some? ==> up[key].value in children)
    ensures up[key].None? ==> Pushed(part + [key], kept, up, roots + [key], children)
    ensures up[key].Some? ==>
      Pushed(part + [key], kept, up, roots, children[up[key].value := children[up[key].value] + [key]])
  {
    OneMoreChild(part, key, up, None);
    forall k | k in children
      ensures F.ChildrenOf(part + [key], up, Some(k)) == children[k] + if up[key] == Some(k) then [key] else []
    {
      OneMoreChild(part, key, up, Some(k));
    }
  }

  /** The first `i` kept nodes have been pushed. */
  ghost predicate PushedUpTo(r: Registry, kept: seq<string>, i: nat, roots: seq<string>,
                             children: map<string, seq<string>>) {
    i <= |kept| && Pushed(kept[..i], kept, Attachments(r, kept), roots, children)
  }

  /** A node goes to the children of its nearest kept ancestor, or to the roots. */
  method PushNode(r: Registry, kept: seq<string>, i: nat, roots: seq<string>, children: map<string, seq<string>>)
    returns (roots': seq<string>, children': map<string, seq<string>>)
    requires i < |kept| && PushedUpTo(r, kept, i, roots, children)
    ensures PushedUpTo(r, kept, i + 1, roots', children')
  {
    var key := kept[i];
    var parent := NearestSemanticParent(r, kept, key);
    Push(kept[..i], key, kept, Attachments(r, kept), roots, children);
    assert kept[..i + 1] == kept[..i] + [key];
    if parent.Some? && parent.value != key {
      return roots, children[parent.value := children[parent.value] + [key]];
    } else {
      return roots + [key], children;
    }
  }

  lemma NothingPushed(r: Registry, kept: seq<string>)
    ensures PushedUpTo(r, kept, 0, [], map k | k in kept :: [])
  {
  }

  lemma AllPushed(r: Registry, kept: seq<string>, roots: seq<string>, children: map<string, seq<string>>)
    requires PushedUpTo(r, kept, |kept|, roots, children)
    ensures Pushed(kept, kept, Attachments(r, kept), roots, children)
  {
    assert kept[..|kept|] == kept;
  }

  /** Every kept node is pushed once. */
  method AttachNodes(r: Registry, kept: seq<string>) returns (roots: seq<string>, children: map<string, seq<string>>)
    ensures Pushed(kept, kept, Attachments(r, kept), roots, children)
  {
    roots := [];
    children := map k | k in kept :: [];
    NothingPushed(r, kept);
    for i := 0 to |kept|
      invariant PushedUpTo(r, kept, i, roots, children)
    {
      roots, children := PushNode(r, kept, i, roots, children);
    }
    AllPushed(r, kept, roots, children);
  }

  lemma {:induction false} OrderCounts(order: seq<string>, keys: set<string>)
    requires Distinct(order) && forall k :: k in order <==> k in keys
    ensures |order| == |keys|
  {
    if order != [] {
      OrderCounts(order[1..], keys - {order[0]});
    } else {
      assert keys == {};
    }
  }

  ghost predicate IsTreeOf(r: Registry, readers: Readers, tree: PageTree) {
    var kept := KeptKeys(r, readers);
    && Pushed(kept, kept, Attachments(r, kept), tree.roots, tree.children)
    && tree.stats ==
      Stats(|r.nodes.Keys|, |kept|, |Filter(r.order, IsPlainTarget(r))|,
            |Filter(r.order, Collapses(r, readers, Aliased(r)))|)
  }

  /** The four sources fused by the registry object. */
  method FuseSources(input: Input) returns (r: Registry)
    ensures r == BuildRegistry(input)
  {
    var registry := new CanonicalNodeRegistry(input.main);
    if input.domRoot.Some? {
      registry.AddDOMTree(input.domRoot.value);
    }
    registry.AddSnapshotRecords(input.records);
    registry.AddAXTree(input.axNodes);
    registry.AddInteractiveElements(input.elements);
    r := Registry(registry.mainFrameId, registry.order, registry.nodes);
  }

  method BuildSemanticPageTree(input: Input, readers: Readers) returns (tree: PageTree)
    ensures IsTreeOf(BuildRegistry(input), readers, tree)
  {
    var r := FuseSources(input);
    RegistryListsNodesOnce(input);
    var kept, collapsed := KeepNodes(r, readers);
    var roots, children := AttachNodes(r, kept);
    ActionableNodesAreConserved(r, readers);
    OrderCounts(r.order, r.nodes.Keys);
    tree := PageTree(roots, children, Stats(|r.order|, |kept|, |Filter(kept, IsTarget(r))|, collapsed));
  }

  // ---- The tree of a well-formed page ----

  /** On a relation that goes strictly up, so does the nearest kept ancestor. */
  lemma {:induction false} AncestorsRanked(r: Registry, rank: string -> nat, key: string, d: nat)
    requires ParentsRanked(r, rank)
    ensures Ancestor(r, key, d).Some? ==> rank(Ancestor(r, key, d).value) + d <= rank(key)
  {
    if d > 0 {
      AncestorsRanked(r, rank, key, d - 1);
    }
  }

  ghost predicate UpRanked(up: F.Parents, rank: string -> nat) {
    forall k | k in up && up[k].Some? :: rank(up[k].value) < rank(k)
  }

  lemma KeptParentsRanked(r: Registry, rank: string -> nat, kept: seq<string>)
    requires ParentsRanked(r, rank)
    ensures UpRanked(Attachments(r, kept), rank)
    ensures forall k | k in kept :: IsNearest(r, kept, k, Attachments(r, kept)[k])
  {
    forall k | k in kept
      ensures IsNearest(r, kept, k, Attached(r, kept, k))
      ensures Attached(r, kept, k).Some? ==> rank(Attached(r, kept, k).value) < rank(k)
    {
      var p := Walk(r, kept, Next(r, k), {});
      assert Ancestor(r, k, 0) == Some(k);
      assert Trail(r, kept, k, Next(r, k), {}, 1);
      WalkIsNearest(r, kept, k, Next(r, k), {}, 1);
      if p.Some? {
        var d: nat :| d > 0 && FirstAt(r, kept, k, p, d);
        AncestorsRanked(r, rank, k, d);
      }
    }
  }

  lemma {:induction false} ClimbRanked(up: F.Parents, rank: string -> nat, x: string, d: nat)
    requires UpRanked(up, rank)
    ensures F.Climb(up, x, d).Some? ==> rank(F.Climb(up, x, d).value) + d <= rank(x)
  {
    if d > 0 {
      ClimbRanked(up, rank, x, d - 1);
    }
  }

  lemma {:induction false} RankBound(keys: seq<string>, rank: string -> nat) returns (n: nat)
    ensures forall k | k in keys :: rank(k) < n
  {
    n := 0;
    if keys != [] {
      n := RankBound(keys[1..], rank);
      n := if rank(keys[0]) < n then n else rank(keys[0]) + 1;
    }
  }

  lemma KeptKeysDistinct(r: Registry, readers: Readers)
    requires OrderOk(r, r.main)
    ensures Distinct(KeptKeys(r, readers))
  {
    F.FilterKeepsDistinct(r.order, Keeps(r, readers, Aliased(r)));
  }

  /**
   On a page with unique DOM keys, an accessibility forest, a DOM root that is no accessibility child and no frame
   key that begins with "ax:", the roots and what hangs below them are exactly the kept nodes, each once, each under
   its nearest kept ancestor. Which nodes any other page loses is said by `SemanticCycles.LostIffCycleIsShared`.
   */
  lemma TreeHoldsEveryKeptNodeOnce(input: Input, axRank: map<string, nat>, readers: Readers) returns (depth: nat)
    requires WellFormed(input, axRank)
    ensures var r := BuildRegistry(input); var kept := KeptKeys(r, readers); var up := Attachments(r, kept);
      && (forall n: nat | n >= depth :: multiset(F.ListedForest(kept, up, n)) == multiset(kept))
      && (forall k | k in kept :: IsNearest(r, kept, k, up[k]))
      && Distinct(kept)
  {
    var r := BuildRegistry(input);
    var kept := KeptKeys(r, readers);
    var up := Attachments(r, kept);
    var rank := ParentsAreAcyclic(input, axRank);
    RegistryListsNodesOnce(input);
    KeptKeysDistinct(r, readers);
    KeptParentsRanked(r, rank, kept);
    depth := RankBound(kept, rank);
    forall n: nat | n >= depth ensures multiset(F.ListedForest(kept, up, n)) == multiset(kept) {
      HeldWhenRanked(kept, up, rank, n);
    }
  }

  lemma HeldWhenRanked(kept: seq<string>, up: F.Parents, rank: string -> nat, n: nat)
    requires Distinct(kept) && F.Closed(kept, up) && UpRanked(up, rank)
    requires forall k | k in kept :: rank(k) < n
    ensures multiset(F.ListedForest(kept, up, n)) == multiset(kept)
  {
    forall x | x in kept ensures F.Climb(up, x, n).None? {
      ClimbRanked(up, rank, x, n);
    }
    F.HoldsAllOnce(kept, up, n);
  }

  // ---- Without an acyclic parent relation ----

  /** On any page: as far as any depth a kept node is in the tree once if its climb has ended there, else not at all. */
  lemma KeptNodesAreNeverRepeated(r: Registry, readers: Readers, x: string, n: nat)
    requires OrderOk(r, r.main) && x in KeptKeys(r, readers)
    ensures var kept := KeptKeys(r, readers); var up := Attachments(r, kept);
      multiset(F.ListedForest(kept, up, n))[x] == if F.Climb(up, x, n).None? then 1 else 0
  {
    KeptKeysDistinct(r, readers);
    F.HeldOnceIffClimbEnds(KeptKeys(r, readers), Attachments(r, KeptKeys(r, readers)), x, n);
  }

  const FIRST := AxNode("1", None, "region", false, ["2"])
  const SECOND := AxNode("2", None, "region", false, ["1"])
  const LOOP := Input("main", None, [], [FIRST, SECOND], [])

  function LoopNode(key: string, ax: AxNode, parent: Option<string>): Node {
    Fresh(key, "main", None).(ax := Some(ax), axParentKey := parent)
  }

  function LoopRegistry(first: Option<string>, second: Option<string>): Registry {
    Registry("main", ["ax:1", "ax:2"],
             map["ax:1" := LoopNode("ax:1", FIRST, first), "ax:2" := LoopNode("ax:2", SECOND, second)])
  }

  lemma LoopNoted()
    ensures NoteAllAx(Keyed(Empty("main"), map[]), [FIRST, SECOND]) ==
      Keyed(LoopRegistry(None, None), map["1" := "ax:1", "2" := "ax:2"])
  {
    var r0 := Empty("main");
    var r1 := Registry("main", ["ax:1"], map["ax:1" := LoopNode("ax:1", FIRST, None)]);
    assert AxKey(r0, FIRST) == "ax:1" && NoteAx(r0, FIRST) == r1;
    assert AxKey(r1, SECOND) == "ax:2" && "ax:2" !in r1.nodes;
    assert NoteAx(r1, SECOND) == LoopRegistry(None, None);
    var one := Keyed(r1, map["1" := "ax:1"]);
    assert NoteAllAx(one, [SECOND]) ==
      NoteAllAx(Keyed(LoopRegistry(None, None), map["1" := "ax:1", "2" := "ax:2"]), []);
    assert [FIRST, SECOND][1..] == [SECOND];
  }

  lemma LoopLinked()
    ensures LinkAllAx(LoopRegistry(None, None), map["1" := "ax:1", "2" := "ax:2"], [FIRST, SECOND]) ==
      LoopRegistry(Some("ax:2"), Some("ax:1"))
  {
    var keys := map["1" := "ax:1", "2" := "ax:2"];
    var r0, r1, r2 := LoopRegistry(None, None), LoopRegistry(None, Some("ax:1")), LoopRegistry(Some("ax:2"),
                                                                                               Some("ax:1"));
    assert LinkChild(r0, keys, "ax:1", "2") == r1 && LinkChild(r1, keys, "ax:2", "1") == r2;
    assert LinkChildren(r0, keys, "ax:1", ["2"]) == LinkChildren(r1, keys, "ax:1", []) == r1;
    assert LinkChildren(r1, keys, "ax:2", ["1"]) == LinkChildren(r2, keys, "ax:2", []) == r2;
    assert [FIRST, SECOND][1..] == [SECOND];
    assert LinkAllAx(r1, keys, [SECOND]) == LinkAllAx(r2, keys, []);
  }

  const REGIONS := Readers((node: Node, source: Option<Node>) => Description("region", "", "", false),
                           (node: Node) => false)

  lemma LoopKept(r: Registry)
    requires r == LoopRegistry(Some("ax:2"), Some("ax:1"))
    ensures KeptKeys(r, REGIONS) == ["ax:1", "ax:2"]
  {
    assert Aliased(r) == {};
    FilterAll(r.order, Keeps(r, REGIONS, {}));
  }

  lemma LoopAttached(r: Registry, kept: seq<string>)
    requires r == LoopRegistry(Some("ax:2"), Some("ax:1")) && kept == ["ax:1", "ax:2"]
    ensures F.ChildrenOf(kept, Attachments(r, kept), None) == []
  {
    assert kept[0] in kept && kept[1] in kept;
    assert Attached(r, kept, "ax:1") == Some("ax:2") && Attached(r, kept, "ax:2") == Some("ax:1");
    FilterNone(kept, F.HasParent(Attachments(r, kept), None));
  }

  lemma LoopBuilt()
    ensures BuildRegistry(LOOP) == LoopRegistry(Some("ax:2"), Some("ax:1"))
  {
    LoopNoted();
    LoopLinked();
    var r := LoopRegistry(Some("ax:2"), Some("ax:1"));
    assert AddRecords(Empty("main"), []) == Empty("main");
    assert AddAxTree(Empty("main"), [FIRST, SECOND]) == r;
    assert AddElements(r, []) == r;
  }

  /** Two accessibility nodes that list each other as children are kept, and lost from the tree. */
  lemma TwoCycleIsLost()
    ensures var r := BuildRegistry(LOOP); var kept := KeptKeys(r, REGIONS);
      kept == ["ax:1", "ax:2"] && F.ChildrenOf(kept, Attachments(r, kept), None) == []
  {
    LoopBuilt();
    LoopKept(BuildRegistry(LOOP));
    LoopAttached(BuildRegistry(LOOP), ["ax:1", "ax:2"]);
  }
}
