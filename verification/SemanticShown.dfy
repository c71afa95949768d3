/**
 What a page that is not truncated shows, on every tree: ids may repeat, as they do when the trees of several
 frames are merged (packages/browser-core/src/browser-semantic-serializer.ts, browser-snapshot.ts).
 */
module SemanticShown {
  import opened Prelude
  import opened StableSort
  import opened SemanticSerializer

  // ---- What is counted ----

  /** The node is a target of the page's tree, with a ref of its own. */
  predicate HasRef(page: Page, node: Node) {
    && node.targetKey.Some? && node.targetKey.value != "" && node.targetKey.value in page.refs
    && page.refs[node.targetKey.value].ref != ""
  }

  function IsCounted(page: Page): Node -> bool {
    (node: Node) => HasRef(page, node)
  }

  function IsAllowed(page: Page): Node -> bool {
    (node: Node) => HasRef(page, node) && page.refs[node.targetKey.value].ref in page.allowedRefs
  }

  /** How many of the nodes have a ref, and how many one that is allowed. */
  function CountIn(page: Page, nodes: seq<Node>): Count {
    Count(|Filter(nodes, IsCounted(page))|, |Filter(nodes, IsAllowed(page))|)
  }

  /** The counts of a list of subtrees are those of the nodes in them. */
  lemma {:induction false} CountsAreOfNodes(page: Page, nodes: seq<Node>)
    ensures CountAll(page, nodes) == CountIn(page, PostOrder(nodes))
    decreases nodes
  {
    if nodes != [] {
      CountsAreOfNodes(page, nodes[0].children);
      CountsAreOfNodes(page, nodes[1..]);
      CountInParts(page, PostOrder(nodes[0].children), nodes[0], PostOrder(nodes[1..]));
    }
  }

  lemma CountInParts(page: Page, a: seq<Node>, node: Node, b: seq<Node>)
    ensures CountIn(page, (a + [node]) + b) == Plus(Plus(Own(page, node), CountIn(page, a)), CountIn(page, b))
  {
    CountedParts(a, node, b, IsCounted(page));
    CountedParts(a, node, b, IsAllowed(page));
    OwnIs(page, node);
  }

  lemma OwnIs(page: Page, node: Node)
    ensures Own(page, node) == Count(if IsCounted(page)(node) then 1 else 0, if IsAllowed(page)(node) then 1 else 0)
  {
  }

  lemma CountedParts(a: seq<Node>, node: Node, b: seq<Node>, keep: Node -> bool)
    ensures |Filter((a + [node]) + b, keep)| == |Filter(a, keep)| + (if keep(node) then 1 else 0) + |Filter(b, keep)|
  {
    FilterAppend(a + [node], b, keep);
    FilterAppend(a, [node], keep);
    assert [node][1..] == [];
  }

  // ---- The recorded count of an id is that of its last namesake ----

  /** All nodes in the order in which they are counted: a node after those below it. */
  function PostOrder(nodes: seq<Node>): seq<Node>
    decreases nodes
  {
    if nodes == [] then [] else (PostOrder(nodes[0].children) + [nodes[0]]) + PostOrder(nodes[1..])
  }

  function LastNamesake(nodes: seq<Node>, id: string): (r: Option<Node>)
    ensures r.Some? ==> r.value in nodes && r.value.id == id
    ensures r.None? ==> forall n | n in nodes :: n.id != id
    decreases |nodes|
  {
    if nodes == [] then None
    else if nodes[|nodes| - 1].id == id then Some(nodes[|nodes| - 1])
    else LastNamesake(nodes[..|nodes| - 1], id)
  }

  function CountOr(page: Page, node: Option<Node>, other: Count): Count {
    if node.Some? then CountOf(page, node.value) else other
  }

  /** The targets of the node that was counted last under this id. */
  function Recorded(page: Page, roots: seq<Node>, id: string): Count {
    CountOr(page, LastNamesake(PostOrder(roots), id), Count(0, 0))
  }

  lemma {:induction false} LastOfParts(a: seq<Node>, b: seq<Node>, id: string)
    ensures LastNamesake(a + b, id) == if LastNamesake(b, id).Some? then LastNamesake(b, id) else LastNamesake(a, id)
    decreases |b|
  {
    if b == [] {
      assert a + b == a;
    } else {
      var n := |b| - 1;
      assert (a + b)[..|a| + n] == a + b[..n] && (a + b)[|a| + n] == b[n];
      LastOfParts(a, b[..n], id);
    }
  }

  lemma LastOfOne(a: seq<Node>, node: Node, id: string)
    ensures LastNamesake(a + [node], id) == if node.id == id then Some(node) else LastNamesake(a, id)
  {
    assert (a + [node])[..|a|] == a;
  }

  lemma {:induction false} TallyRecordsLast(page: Page, nodes: seq<Node>, counts: Counts, id: string)
    ensures CountFor(TallyAll(page, nodes, counts), id) ==
            CountOr(page, LastNamesake(PostOrder(nodes), id), CountFor(counts, id))
    decreases nodes
  {
    if nodes != [] {
      var first, below, rest := nodes[0], PostOrder(nodes[0].children), PostOrder(nodes[1..]);
      TallyRecordsLast(page, first.children, counts, id);
      TallyRecordsLast(page, nodes[1..], Tally(page, first, counts), id);
      LastOfOne(below, first, id);
      LastOfParts(below + [first], rest, id);
    }
  }

  /** `counts` holds what is recorded for the tree. */
  ghost predicate Records(page: Page, roots: seq<Node>, counts: Counts) {
    forall id :: CountFor(counts, id) == Recorded(page, roots, id)
  }

  /** However often ids repeat, what is recorded under an id is the count of the last node that has it. */
  lemma RecordedIsLast(page: Page, roots: seq<Node>)
    ensures Records(page, roots, TallyAll(page, roots, map[]))
  {
    forall id ensures CountFor(TallyAll(page, roots, map[]), id) == Recorded(page, roots, id) {
      TallyRecordsLast(page, roots, map[], id);
    }
  }

  /** Nodes of one id hold equally many targets. */
  ghost predicate NamesakesAlike(page: Page, roots: seq<Node>) {
    forall m, n | m in PostOrder(roots) && n in PostOrder(roots) && m.id == n.id :: CountOf(page, m) == CountOf(page, n)
  }

  ghost predicate DistinctNodeIds(roots: seq<Node>) {
    Pairwise(PostOrder(roots), (m: Node, n: Node) => m.id != n.id)
  }

  lemma DistinctAreAlike(page: Page, roots: seq<Node>)
    requires DistinctNodeIds(roots)
    ensures NamesakesAlike(page, roots)
  {
    var all := PostOrder(roots);
    forall m, n | m in all && n in all && m.id == n.id ensures CountOf(page, m) == CountOf(page, n) {
      var i :| 0 <= i < |all| && all[i] == m;
      var j :| 0 <= j < |all| && all[j] == n;
      assert i == j;
    }
  }

  /** What is recorded for a node is the count of its own subtree, for all nodes, exactly when namesakes are alike. */
  lemma RecordedIsOwnIff(page: Page, roots: seq<Node>)
    ensures NamesakesAlike(page, roots) <==>
            forall n | n in PostOrder(roots) :: Recorded(page, roots, n.id) == CountOf(page, n)
  {
  }

  lemma {:induction false} MemberInOrder(nodes: seq<Node>, node: Node)
    requires node in nodes
    ensures node in PostOrder(nodes) && forall m | m in PostOrder(node.children) :: m in PostOrder(nodes)
    decreases |nodes|
  {
    if node != nodes[0] {
      MemberInOrder(nodes[1..], node);
    }
  }

  // ---- Which open targets are shown ----

  function Below(counts: Counts, node: Node, contextual: bool): bool {
    CountFor(counts, node.id).allowed > 0 || contextual
  }

  /** Printing reaches a node that it drops although an open target lies at or below it. */
  ghost predicate Misled(page: Page, counts: Counts, node: Node, contextual: bool) {
    if IsDropped(page, counts, node, contextual) then Open(page, node) != []
    else exists c | c in node.children :: Misled(page, counts, c, Below(counts, node, contextual))
  }

  ghost predicate AnyMisled(page: Page, counts: Counts, nodes: seq<Node>, contextual: bool) {
    exists c | c in nodes :: Misled(page, counts, c, contextual)
  }

  /** Nothing but open targets, and all of them unless something is lost. */
  ghost predicate ShowsUnless(lost: bool, shown: seq<TargetRef>, open: seq<TargetRef>) {
    multiset(shown) <= multiset(open) && (multiset(shown) == multiset(open) <==> !lost)
  }

  lemma SumsMeet<T>(a: multiset<T>, b: multiset<T>, c: multiset<T>, d: multiset<T>)
    requires a <= b && c <= d
    ensures a + c <= b + d && (a + c == b + d <==> a == b && c == d)
  {
    if a + c == b + d {
      forall x ensures a[x] == b[x] && c[x] == d[x] {
        assert (a + c)[x] == (b + d)[x];
      }
    }
  }

  lemma ShowsBoth(l: bool, a: seq<TargetRef>, b: seq<TargetRef>, m: bool, c: seq<TargetRef>, d: seq<TargetRef>)
    requires ShowsUnless(l, a, b) && ShowsUnless(m, c, d)
    ensures ShowsUnless(l || m, a + c, b + d)
  {
    SumsMeet(multiset(a), multiset(b), multiset(c), multiset(d));
    assert multiset(a + c) == multiset(a) + multiset(c) && multiset(b + d) == multiset(b) + multiset(d);
  }

  lemma SingleShown(node: AgentNode)
    ensures Shown([node]) == (if node.base.target.Some? then [node.base.target.value] else []) + Shown(node.children)
  {
    assert [node][1..] == [];
  }

  lemma ShownFirst(first: Option<AgentNode>, rest: seq<AgentNode>)
    ensures Shown(Listed(first) + rest) == Shown(Listed(first)) + Shown(rest)
  {
    if first.Some? {
      SingleShown(first.value);
      assert (Listed(first) + rest)[1..] == rest;
    } else {
      assert Listed(first) + rest == rest;
    }
  }

  lemma PrintedShows(page: Page, counts: Counts, node: Node, contextual: bool, below: seq<AgentNode>, lost: bool)
    requires !IsDropped(page, counts, node, contextual)
    requires ShowsUnless(lost, Shown(below), OpenAll(page, node.children))
    ensures ShowsUnless(lost, Shown([AgentNode(BaseOf(page, node), below)]), Open(page, node))
  {
    var own := if TargetOf(page, node).Some? then [TargetOf(page, node).value] else [];
    SingleShown(AgentNode(BaseOf(page, node), below));
    ShowsBoth(false, own, own, lost, Shown(below), OpenAll(page, node.children));
    assert Open(page, node) == own + OpenAll(page, node.children);
  }

  lemma {:induction false} WholeShows(page: Page, counts: Counts, node: Node, contextual: bool)
    ensures ShowsUnless(Misled(page, counts, node, contextual),
                        Shown(Listed(Whole(page, counts, node, contextual))), Open(page, node))
    decreases Height(node), 0, 0
  {
    if !IsDropped(page, counts, node, contextual) {
      var ctx := Below(counts, node, contextual);
      WholeBelowShows(page, counts, node.children, ctx);
      PrintedShows(page, counts, node, contextual, WholeAll(page, counts, ActionableFirst(counts, node.children), ctx),
                   AnyMisled(page, counts, node.children, ctx));
    }
  }

  lemma {:induction false} WholeBelowShows(page: Page, counts: Counts, nodes: seq<Node>, contextual: bool)
    ensures ShowsUnless(AnyMisled(page, counts, nodes, contextual),
                        Shown(WholeAll(page, counts, ActionableFirst(counts, nodes), contextual)), OpenAll(page, nodes))
    decreases HeightAll(nodes), 2, 0
  {
    SortMembers(nodes, ByAllowed(counts));
    WholeAllShows(page, counts, ActionableFirst(counts, nodes), contextual);
    OpenSorted(page, nodes, ByAllowed(counts));
  }

  lemma {:induction false} WholeAllShows(page: Page, counts: Counts, nodes: seq<Node>, contextual: bool)
    ensures ShowsUnless(AnyMisled(page, counts, nodes, contextual),
                        Shown(WholeAll(page, counts, nodes, contextual)), OpenAll(page, nodes))
    decreases HeightAll(nodes), 1, |nodes|
  {
    if nodes != [] {
      var first, rest := Whole(page, counts, nodes[0], contextual), WholeAll(page, counts, nodes[1..], contextual);
      WholeShows(page, counts, nodes[0], contextual);
      WholeAllShows(page, counts, nodes[1..], contextual);
      ShownFirst(first, rest);
      ShowsBoth(Misled(page, counts, nodes[0], contextual), Shown(Listed(first)), Open(page, nodes[0]),
                AnyMisled(page, counts, nodes[1..], contextual), Shown(rest), OpenAll(page, nodes[1..]));
      AnyOfFirst(page, counts, nodes, contextual);
    }
  }

  lemma AnyOfFirst(page: Page, counts: Counts, nodes: seq<Node>, contextual: bool)
    requires nodes != []
    ensures AnyMisled(page, counts, nodes, contextual) <==>
            Misled(page, counts, nodes[0], contextual) || AnyMisled(page, counts, nodes[1..], contextual)
  {
  }

  // ---- The loss, read off the tree ----

  /** From a root down, one child after the other. */
  ghost predicate IsPath(roots: seq<Node>, path: seq<Node>) {
    path != [] && path[0] in roots && forall i | 0 <= i < |path| - 1 :: path[i + 1] in path[i].children
  }

  predicate IsOffPage(page: Page, node: Node) {
    TargetOf(page, node).Some? && TargetOf(page, node).value.ref !in page.allowedRefs
  }

  /**
   The path ends, under no target off the page, at a node that is no target, over a target of the page that nothing
   hides; but the last namesake of the node holds no target of the page, and either it holds one off the page or
   neither the role of the node nor what is recorded above it gives context.
   */
  ghost predicate OvershadowedIn(page: Page, roots: seq<Node>, contextual: bool, path: seq<Node>)
    requires path != []
  {
    var node, above := path[|path| - 1], path[..|path| - 1];
    && (forall a | a in above :: !IsOffPage(page, a))
    && TargetOf(page, node).None? && Open(page, node) != []
    && Recorded(page, roots, node.id).allowed == 0
    && (Recorded(page, roots, node.id).any > 0 || (node.role !in MODEL_CONTEXT_ROLES && !contextual &&
          forall a | a in above :: Recorded(page, roots, a.id).allowed == 0))
  }

  ghost predicate Overshadowed(page: Page, roots: seq<Node>, path: seq<Node>) {
    IsPath(roots, path) && OvershadowedIn(page, roots, false, path)
  }

  lemma DroppedIsOvershadowed(page: Page, roots: seq<Node>, counts: Counts, node: Node, contextual: bool)
    requires Records(page, roots, counts)
    ensures IsDropped(page, counts, node, contextual) && Open(page, node) != [] <==>
            OvershadowedIn(page, roots, contextual, [node])
  {
    assert CountFor(counts, node.id) == Recorded(page, roots, node.id);
    assert [node][..0] == [];
  }

  /** One node more on top of a path changes the context, and may be no target off the page. */
  lemma LongerPath(page: Page, roots: seq<Node>, counts: Counts, node: Node, contextual: bool, path: seq<Node>)
    requires Records(page, roots, counts) && path != []
    ensures OvershadowedIn(page, roots, contextual, [node] + path) <==>
            !IsOffPage(page, node) && OvershadowedIn(page, roots, Below(counts, node, contextual), path)
  {
    var longer := [node] + path;
    var above := path[..|path| - 1];
    assert longer[..|longer| - 1] == [node] + above && longer[|longer| - 1] == path[|path| - 1];
    assert CountFor(counts, node.id) == Recorded(page, roots, node.id);
    assert forall a :: a in [node] + above <==> a == node || a in above;
  }

  lemma LongerIsPath(node: Node, rest: seq<Node>)
    requires rest != [] && IsPath([rest[0]], rest) && rest[0] in node.children
    ensures IsPath([node], [node] + rest)
  {
    var path := [node] + rest;
    forall i | 0 <= i < |path| - 1 ensures path[i + 1] in path[i].children {
      assert path[i + 1] == rest[i] && (i > 0 ==> path[i] == rest[i - 1] && rest[i - 1 + 1] in rest[i - 1].children);
    }
  }

  lemma {:induction false} MisledHasPath(page: Page, roots: seq<Node>, counts: Counts, node: Node, contextual: bool)
    returns (path: seq<Node>)
    requires Records(page, roots, counts) && Misled(page, counts, node, contextual)
    ensures IsPath([node], path) && OvershadowedIn(page, roots, contextual, path)
    decreases node
  {
    if IsDropped(page, counts, node, contextual) {
      DroppedIsOvershadowed(page, roots, counts, node, contextual);
      path := [node];
    } else {
      var c :| c in node.children && Misled(page, counts, c, Below(counts, node, contextual));
      var rest := MisledHasPath(page, roots, counts, c, Below(counts, node, contextual));
      LongerPath(page, roots, counts, node, contextual, rest);
      LongerIsPath(node, rest);
      path := [node] + rest;
    }
  }

  lemma {:induction false} OpenOnPath(page: Page, path: seq<Node>)
    requires path != [] && IsPath([path[0]], path) && Open(page, path[|path| - 1]) != []
    requires forall a | a in path[..|path| - 1] :: !IsOffPage(page, a)
    ensures Open(page, path[0]) != []
    decreases |path|
  {
    if |path| > 1 {
      var above, rest := path[..|path| - 1], path[1..];
      assert rest[..|rest| - 1] == above[1..] && above[0] == path[0];
      OpenOnPath(page, rest);
      OpenAbove(page, path[0], path[1]);
    }
  }

  lemma OpenAbove(page: Page, node: Node, child: Node)
    requires child in node.children && Open(page, child) != [] && !IsOffPage(page, node)
    ensures Open(page, node) != []
  {
    OpenMember(page, node.children, child);
  }

  lemma {:induction false} OpenMember(page: Page, nodes: seq<Node>, node: Node)
    requires node in nodes && Open(page, node) != []
    ensures OpenAll(page, nodes) != []
    decreases |nodes|
  {
    if node != nodes[0] {
      OpenMember(page, nodes[1..], node);
    }
  }

  lemma {:induction false} PathMisleads(page: Page, roots: seq<Node>, counts: Counts, contextual: bool, path: seq<Node>)
    requires Records(page, roots, counts) && path != []
    requires IsPath([path[0]], path) && OvershadowedIn(page, roots, contextual, path)
    ensures Misled(page, counts, path[0], contextual)
    decreases |path|
  {
    var node := path[0];
    if |path| == 1 {
      assert path == [node];
      DroppedIsOvershadowed(page, roots, counts, node, contextual);
    } else if IsDropped(page, counts, node, contextual) {
      OpenOnPath(page, path);
    } else {
      var rest := path[1..];
      assert path == [node] + rest && path[1] in node.children;
      LongerPath(page, roots, counts, node, contextual, rest);
      PathMisleads(page, roots, counts, Below(counts, node, contextual), rest);
    }
  }

  lemma MisledIffOvershadowed(page: Page, roots: seq<Node>)
    ensures AnyMisled(page, TallyAll(page, roots, map[]), roots, false) <==>
            exists path :: Overshadowed(page, roots, path)
  {
    var counts := TallyAll(page, roots, map[]);
    RecordedIsLast(page, roots);
    if node :| node in roots && Misled(page, counts, node, false) {
      var path := MisledHasPath(page, roots, counts, node, false);
      assert Overshadowed(page, roots, path);
    }
    if path :| Overshadowed(page, roots, path) {
      PathMisleads(page, roots, counts, false, path);
    }
  }

  /**
   On every tree, a page that is not truncated shows all the targets of the page that no target off the page hides,
   exactly unless some node on the way to one is overshadowed by a namesake that is counted later.
   */
  lemma OpenTargetsAreShown(page: Page, roots: seq<Node>, truncated: bool)
    requires !PrintPage(page, roots, truncated).state.truncated
    ensures multiset(Shown(PrintPage(page, roots, truncated).out)) == multiset(OpenAll(page, roots)) <==>
            !exists path :: Overshadowed(page, roots, path)
  {
    TruncatedIffTooBig(page, roots, truncated);
    WholeBelowShows(page, TallyAll(page, roots, map[]), roots, false);
    MisledIffOvershadowed(page, roots);
  }

  // ---- Namesakes that are alike overshadow nothing ----

  ghost predicate RefsNonEmpty(page: Page) {
    forall key | key in page.refs :: page.refs[key].ref != ""
  }

  lemma {:induction false} OpenCounted(page: Page, node: Node)
    requires RefsNonEmpty(page)
    ensures |Open(page, node)| <= CountOf(page, node).allowed
    decreases node, 0
  {
    AllOpenCounted(page, node.children);
  }

  lemma {:induction false} AllOpenCounted(page: Page, nodes: seq<Node>)
    requires RefsNonEmpty(page)
    ensures |OpenAll(page, nodes)| <= CountAll(page, nodes).allowed
    decreases nodes, 1
  {
    if nodes != [] {
      OpenCounted(page, nodes[0]);
      AllOpenCounted(page, nodes[1..]);
    }
  }

  lemma {:induction false} PathInOrder(roots: seq<Node>, path: seq<Node>)
    requires IsPath(roots, path)
    ensures path[|path| - 1] in PostOrder(roots)
    decreases |path|
  {
    MemberInOrder(roots, path[0]);
    if |path| > 1 {
      PathInOrder(path[0].children, path[1..]);
    }
  }

  /** When namesakes are alike, as when ids are distinct, no open target is lost. */
  lemma AlikeNamesakesLoseNoTarget(page: Page, roots: seq<Node>, truncated: bool)
    requires NamesakesAlike(page, roots) && RefsNonEmpty(page) && !PrintPage(page, roots, truncated).state.truncated
    ensures multiset(Shown(PrintPage(page, roots, truncated).out)) == multiset(OpenAll(page, roots))
  {
    forall path ensures !Overshadowed(page, roots, path) {
      if IsPath(roots, path) {
        PathInOrder(roots, path);
        RecordedIsOwnIff(page, roots);
        OpenCounted(page, path[|path| - 1]);
      }
    }
    OpenTargetsAreShown(page, roots, truncated);
  }

  /** The node that overshadows another is counted later under its id and holds fewer targets of the page. */
  lemma OvershadowedByAnother(page: Page, roots: seq<Node>, path: seq<Node>)
    requires RefsNonEmpty(page) && Overshadowed(page, roots, path)
    ensures var node, last := path[|path| - 1], LastNamesake(PostOrder(roots), path[|path| - 1].id);
      last.Some? && CountOf(page, last.value).allowed == 0 < CountOf(page, node).allowed
  {
    PathInOrder(roots, path);
    OpenCounted(page, path[|path| - 1]);
  }

  // ---- Merged trees that repeat an id ----

  const FIRST_FORM := Node("main:5", "form", None, "", [Node("main:6", "button", Some("main:6"), "", [])])
  const SECOND_FORM := Node("main:5", "form", None, "", [Node("F:7", "button", Some("F:7"), "", [])])
  const MERGED := [FIRST_FORM, SECOND_FORM]

  function MergedPage(bytes: Base -> nat): Page {
    Page(map["main:6" := TargetRef("r1", "f"), "F:7" := TargetRef("r2", "f")], {"r1"}, 200, 12_000, bytes)
  }

  lemma {:induction false} AllDropped(page: Page, counts: Counts, nodes: seq<Node>, contextual: bool, s: State)
    requires forall n | n in nodes :: IsDropped(page, counts, n, contextual)
    ensures PrintAll(page, counts, nodes, contextual, s) == AllPrinted([], s)
    decreases |nodes|
  {
    if nodes != [] {
      AllDropped(page, counts, nodes[1..], contextual, s);
    }
  }

  lemma OneNode(page: Page, node: Node)
    ensures CountAll(page, [node]) == CountOf(page, node) && OpenAll(page, [node]) == Open(page, node)
    ensures PostOrder([node]) == PostOrder(node.children) + [node]
  {
    var none := [node][1..];
    assert none == [] && CountAll(page, none) == Count(0, 0) && OpenAll(page, none) == [] && PostOrder(none) == [];
    assert OpenAll(page, [node]) == Open(page, node) + OpenAll(page, none);
  }

  lemma Leaf(page: Page, node: Node)
    requires node.children == []
    ensures CountOf(page, node) == Own(page, node)
  {
    assert CountAll(page, node.children) == Count(0, 0);
  }

  /** A node over one leaf that is no target itself. */
  predicate IsForm(page: Page, node: Node) {
    TargetOf(page, node).None? && |node.children| == 1 && node.children[0].children == []
  }

  lemma FormCounts(page: Page, node: Node)
    requires IsForm(page, node)
    ensures CountOf(page, node) == Own(page, node.children[0]) && Open(page, node) == Open(page, node.children[0])
  {
    var leaf := node.children[0];
    assert node.children == [leaf];
    OneNode(page, leaf);
    Leaf(page, leaf);
  }

  lemma LastRootIsLast(roots: seq<Node>, first: Node, second: Node)
    requires roots == [first, second]
    ensures LastNamesake(PostOrder(roots), second.id) == Some(second)
  {
    assert roots[1..] == [second] && [second][1..] == [] && PostOrder([]) == [];
    var above := (PostOrder(first.children) + [first]) + PostOrder(second.children);
    assert PostOrder(roots) == above + [second];
    LastOfOne(above, second, second.id);
  }

  ghost predicate AreForms(page: Page, roots: seq<Node>, first: Node, second: Node) {
    roots == [first, second] && IsForm(page, first) && IsForm(page, second) && first.id == second.id
  }

  lemma LastFormIsRecorded(page: Page, roots: seq<Node>, first: Node, second: Node)
    requires AreForms(page, roots, first, second)
    ensures CountFor(TallyAll(page, roots, map[]), second.id) == Own(page, second.children[0])
  {
    TallyRecordsLast(page, roots, map[], second.id);
    LastRootIsLast(roots, first, second);
    FormCounts(page, second);
  }

  lemma FormIsDropped(page: Page, counts: Counts, node: Node)
    requires IsForm(page, node) && CountFor(counts, node.id) == Count(1, 0)
    ensures IsDropped(page, counts, node, false)
  {
  }

  lemma AllRootsDropped(page: Page, counts: Counts, roots: seq<Node>, s: State)
    requires forall n | n in roots :: IsDropped(page, counts, n, false)
    ensures PrintAll(page, counts, ActionableFirst(counts, roots), false, s) == AllPrinted([], s)
  {
    SortMembers(roots, ByAllowed(counts));
    AllDropped(page, counts, ActionableFirst(counts, roots), false, s);
  }

  lemma LastFormDropsBoth(page: Page, roots: seq<Node>, first: Node, second: Node)
    requires AreForms(page, roots, first, second) && Own(page, second.children[0]) == Count(1, 0)
    ensures PrintPage(page, roots, false) == AllPrinted([], State(0, 0, false))
  {
    var counts := TallyAll(page, roots, map[]);
    LastFormIsRecorded(page, roots, first, second);
    FormIsDropped(page, counts, first);
    FormIsDropped(page, counts, second);
    AllRootsDropped(page, counts, roots, State(0, 0, false));
  }

  lemma TwoOpen(page: Page, roots: seq<Node>, first: Node, second: Node)
    requires roots == [first, second] && IsForm(page, first) && IsForm(page, second)
    ensures OpenAll(page, roots) == Open(page, first.children[0]) + Open(page, second.children[0])
  {
    assert roots[1..] == [second];
    OneNode(page, second);
    FormCounts(page, first);
    FormCounts(page, second);
  }

  /**
   Two frames whose scans both number a form "main:5": the second, whose only target is off the page, takes the count
   of the first, and the page's only target is lost from a page that does not say that it is truncated.
   */
  lemma MergedTreeLosesTarget(bytes: Base -> nat)
    ensures var page := MergedPage(bytes);
      && PrintPage(page, MERGED, false) == AllPrinted([], State(0, 0, false))
      && OpenAll(page, MERGED) == [TargetRef("r1", "f")]
  {
    var page := MergedPage(bytes);
    var first, second := FIRST_FORM.children[0], SECOND_FORM.children[0];
    assert TargetOf(page, first) == Some(TargetRef("r1", "f")) && TargetOf(page, second) == Some(TargetRef("r2", "f"));
    LastFormDropsBoth(page, MERGED, FIRST_FORM, SECOND_FORM);
    TwoOpen(page, MERGED, FIRST_FORM, SECOND_FORM);
    MergedLeaves(page, first, second);
  }

  lemma MergedLeaves(page: Page, first: Node, second: Node)
    requires first.children == [] && TargetOf(page, first) == Some(TargetRef("r1", "f"))
    requires second.children == [] && TargetOf(page, second) == Some(TargetRef("r2", "f")) && page.allowedRefs == {"r1"}
    ensures Open(page, first) == [TargetRef("r1", "f")] && Open(page, second) == []
  {
    assert OpenAll(page, first.children) == [];
  }

  // ---- Which nodes are shown ----

  /** Some node above counts a target of the page. */
  predicate InContext(count: Node -> Count, above: seq<Node>) {
    exists a :: a in above && count(a).allowed > 0
  }

  /** A target of the page; a node over such a target; or, over no targets at all, a node that gives or has context. */
  predicate IsWorth(page: Page, count: Node -> Count, above: seq<Node>, node: Node) {
    var target := TargetOf(page, node);
    if target.Some? then target.value.ref in page.allowedRefs
    else
      || count(node).allowed > 0
      || (count(node).any == 0 && (node.role in MODEL_CONTEXT_ROLES || InContext(count, above)))
  }

  /** What is shown of a list of nodes under the nodes `above`, as they count targets by `count`. */
  function Worth(page: Page, count: Node -> Count, above: seq<Node>, nodes: seq<Node>): seq<Base>
    decreases nodes
  {
    if nodes == [] then []
    else
      WorthOf(page, count, above, nodes[0], Worth(page, count, above + [nodes[0]], nodes[0].children)) +
      Worth(page, count, above, nodes[1..])
  }

  function WorthOf(page: Page, count: Node -> Count, above: seq<Node>, node: Node, below: seq<Base>): seq<Base> {
    if IsWorth(page, count, above, node) then [BaseOf(page, node)] + below else []
  }

  function WorthOne(page: Page, count: Node -> Count, above: seq<Node>, node: Node): seq<Base> {
    WorthOf(page, count, above, node, Worth(page, count, above + [node], node.children))
  }

  function Bases(nodes: seq<AgentNode>): seq<Base> {
    if nodes == [] then [] else [nodes[0].base] + Bases(nodes[0].children) + Bases(nodes[1..])
  }

  function WorthBy(page: Page, count: Node -> Count, above: seq<Node>): Node -> seq<Base> {
    (node: Node) => WorthOne(page, count, above, node)
  }

  lemma WorthStep(page: Page, count: Node -> Count, above: seq<Node>, nodes: seq<Node>)
    requires nodes != []
    ensures Worth(page, count, above, nodes) ==
            WorthBy(page, count, above)(nodes[0]) + Worth(page, count, above, nodes[1..])
  {
  }

  lemma {:induction false} WorthIsCollected(page: Page, count: Node -> Count, above: seq<Node>, nodes: seq<Node>)
    ensures Worth(page, count, above, nodes) == Collect(nodes, WorthBy(page, count, above))
    decreases |nodes|
  {
    if nodes != [] {
      WorthIsCollected(page, count, above, nodes[1..]);
      WorthStep(page, count, above, nodes);
      CollectFirst(nodes, WorthBy(page, count, above));
    }
  }

  lemma WorthSorted(page: Page, count: Node -> Count, above: seq<Node>, nodes: seq<Node>, key: Node -> real)
    ensures multiset(Worth(page, count, above, SortDown(nodes, key))) == multiset(Worth(page, count, above, nodes))
  {
    WorthIsCollected(page, count, above, nodes);
    WorthIsCollected(page, count, above, SortDown(nodes, key));
    CollectSorted(nodes, key, WorthBy(page, count, above));
  }

  ghost predicate CountsBy(counts: Counts, count: Node -> Count) {
    forall n: Node :: CountFor(counts, n.id) == count(n)
  }

  lemma DroppedIffNotWorth(page: Page, counts: Counts, count: Node -> Count, above: seq<Node>, node: Node)
    requires CountsBy(counts, count)
    ensures IsDropped(page, counts, node, InContext(count, above)) <==> !IsWorth(page, count, above, node)
    ensures InContext(count, above + [node]) == Below(counts, node, InContext(count, above))
  {
    assert CountFor(counts, node.id) == count(node);
    if count(node).allowed > 0 {
      assert node in above + [node];
    }
    if InContext(count, above) {
      var a :| a in above && count(a).allowed > 0;
      assert a in above + [node];
    }
  }

  lemma SingleBases(node: AgentNode)
    ensures Bases([node]) == [node.base] + Bases(node.children)
  {
    assert [node][1..] == [];
  }

  lemma ShownIfWorth(page: Page, count: Node -> Count, above: seq<Node>, node: Node, below: seq<AgentNode>)
    requires multiset(Bases(below)) == multiset(Worth(page, count, above + [node], node.children))
    ensures var whole := if IsWorth(page, count, above, node) then Some(AgentNode(BaseOf(page, node), below)) else None;
      multiset(Bases(Listed(whole))) == multiset(WorthOne(page, count, above, node))
  {
    SingleBases(AgentNode(BaseOf(page, node), below));
  }

  function WholeBelow(page: Page, counts: Counts, count: Node -> Count, above: seq<Node>,
                      nodes: seq<Node>): seq<AgentNode> {
    WholeAll(page, counts, ActionableFirst(counts, nodes), InContext(count, above))
  }

  lemma WholeWhenWorth(page: Page, counts: Counts, count: Node -> Count, above: seq<Node>, node: Node)
    requires CountsBy(counts, count)
    ensures Whole(page, counts, node, InContext(count, above)) ==
            if IsWorth(page, count, above, node)
            then Some(AgentNode(BaseOf(page, node),
                                WholeBelow(page, counts, count, above + [node], node.children))) else None
  {
    DroppedIffNotWorth(page, counts, count, above, node);
  }

  lemma {:induction false} WholeShowsWorth(page: Page, counts: Counts, count: Node -> Count, above: seq<Node>,
                                           node: Node)
    requires CountsBy(counts, count)
    ensures multiset(Bases(Listed(Whole(page, counts, node, InContext(count, above))))) ==
            multiset(WorthOne(page, count, above, node))
    decreases Height(node), 0, 0
  {
    WholeBelowShowsWorth(page, counts, count, above + [node], node.children);
    WholeWhenWorth(page, counts, count, above, node);
    ShownIfWorth(page, count, above, node, WholeBelow(page, counts, count, above + [node], node.children));
  }

  lemma {:induction false} WholeBelowShowsWorth(page: Page, counts: Counts, count: Node -> Count, above: seq<Node>,
                                                nodes: seq<Node>)
    requires CountsBy(counts, count)
    ensures multiset(Bases(WholeBelow(page, counts, count, above, nodes))) == multiset(Worth(page, count, above, nodes))
    decreases HeightAll(nodes), 2, 0
  {
    WholeAllShowsWorth(page, counts, count, above, ActionableFirst(counts, nodes));
    WorthSorted(page, count, above, nodes, ByAllowed(counts));
  }

  lemma BasesCons(first: Option<AgentNode>, rest: seq<AgentNode>)
    ensures Bases(Listed(first) + rest) == Bases(Listed(first)) + Bases(rest)
  {
    if first.Some? {
      SingleBases(first.value);
      assert (Listed(first) + rest)[1..] == rest;
    } else {
      assert Listed(first) + rest == rest;
    }
  }

  lemma {:induction false} WholeAllShowsWorth(page: Page, counts: Counts, count: Node -> Count, above: seq<Node>,
                                              nodes: seq<Node>)
    requires CountsBy(counts, count)
    ensures multiset(Bases(WholeAll(page, counts, nodes, InContext(count, above)))) ==
      multiset(Worth(page, count, above, nodes))
    decreases HeightAll(nodes), 1, |nodes|
  {
    if nodes != [] {
      var context := InContext(count, above);
      WholeShowsWorth(page, counts, count, above, nodes[0]);
      WholeAllShowsWorth(page, counts, count, above, nodes[1..]);
      BasesCons(Whole(page, counts, nodes[0], context), WholeAll(page, counts, nodes[1..], context));
    }
  }

  function RecordedBy(page: Page, roots: seq<Node>): Node -> Count {
    (n: Node) => Recorded(page, roots, n.id)
  }

  function OwnBy(page: Page): Node -> Count {
    (n: Node) => CountOf(page, n)
  }

  /**
   On every tree, a page that is not truncated shows exactly the nodes worth showing as their last namesakes count.
   */
  lemma NodesWorthShowingAreShown(page: Page, roots: seq<Node>, truncated: bool)
    requires !PrintPage(page, roots, truncated).state.truncated
    ensures multiset(Bases(PrintPage(page, roots, truncated).out)) ==
            multiset(Worth(page, RecordedBy(page, roots), [], roots))
  {
    var counts, count := TallyAll(page, roots, map[]), RecordedBy(page, roots);
    TruncatedIffTooBig(page, roots, truncated);
    RecordedIsLast(page, roots);
    assert CountsBy(counts, count);
    WholeBelowShowsWorth(page, counts, count, [], roots);
  }

  ghost predicate SameOn(f: Node -> Count, g: Node -> Count, nodes: seq<Node>) {
    forall n | n in nodes :: f(n) == g(n)
  }

  lemma SameWorth(page: Page, f: Node -> Count, g: Node -> Count, above: seq<Node>, node: Node)
    requires SameOn(f, g, above) && f(node) == g(node)
    ensures IsWorth(page, f, above, node) == IsWorth(page, g, above, node) && SameOn(f, g, above + [node])
  {
    assert InContext(f, above) == InContext(g, above);
  }

  lemma {:induction false} WorthSame(page: Page, f: Node -> Count, g: Node -> Count, above: seq<Node>, nodes: seq<Node>)
    requires SameOn(f, g, above) && SameOn(f, g, PostOrder(nodes))
    ensures Worth(page, f, above, nodes) == Worth(page, g, above, nodes)
    decreases nodes
  {
    if nodes != [] {
      SameParts(f, g, nodes);
      SameWorth(page, f, g, above, nodes[0]);
      WorthSame(page, f, g, above + [nodes[0]], nodes[0].children);
      WorthSame(page, f, g, above, nodes[1..]);
    }
  }

  lemma SameParts(f: Node -> Count, g: Node -> Count, nodes: seq<Node>)
    requires nodes != [] && SameOn(f, g, PostOrder(nodes))
    ensures SameOn(f, g, PostOrder(nodes[0].children)) && f(nodes[0]) == g(nodes[0])
    ensures SameOn(f, g, PostOrder(nodes[1..]))
  {
    MemberInOrder(nodes, nodes[0]);
    assert forall n | n in PostOrder(nodes[1..]) :: n in PostOrder(nodes);
  }

  /**
   When namesakes are alike, as when ids are distinct, the nodes shown are those worth showing by their own subtrees.
   */
  lemma AlikeNamesakesShowTheirWorth(page: Page, roots: seq<Node>, truncated: bool)
    requires NamesakesAlike(page, roots) && !PrintPage(page, roots, truncated).state.truncated
    ensures multiset(Bases(PrintPage(page, roots, truncated).out)) == multiset(Worth(page, OwnBy(page), [], roots))
  {
    NodesWorthShowingAreShown(page, roots, truncated);
    RecordedIsOwnIff(page, roots);
    WorthSame(page, RecordedBy(page, roots), OwnBy(page), [], roots);
  }

  // ---- In which order ----

  lemma KeyIsRecorded(page: Page, roots: seq<Node>, node: Node)
    ensures ByAllowed(TallyAll(page, roots, map[]))(node) == Recorded(page, roots, node.id).allowed as real
  {
    RecordedIsLast(page, roots);
  }

  /** Siblings come by how many targets of the page their last namesakes hold: themselves, when namesakes are alike. */
  lemma MostTargetsFirst(page: Page, roots: seq<Node>, nodes: seq<Node>, i: nat, j: nat)
    requires i < j < |nodes|
    ensures var sorted := ActionableFirst(TallyAll(page, roots, map[]), nodes);
      && multiset(sorted) == multiset(nodes) && |sorted| == |nodes|
      && Recorded(page, roots, sorted[i].id).allowed >= Recorded(page, roots, sorted[j].id).allowed
      && (NamesakesAlike(page, roots) && (forall n | n in nodes :: n in PostOrder(roots)) ==>
            CountOf(page, sorted[i]).allowed >= CountOf(page, sorted[j]).allowed)
  {
    var key := ByAllowed(TallyAll(page, roots, map[]));
    var sorted := SortDown(nodes, key);
    SortDescends(nodes, key);
    SortMembers(nodes, key);
    assert key(sorted[i]) >= key(sorted[j]);
    KeyIsRecorded(page, roots, sorted[i]);
    KeyIsRecorded(page, roots, sorted[j]);
    RecordedIsOwnIff(page, roots);
    assert sorted[i] in nodes && sorted[j] in nodes;
  }

  /** The nodes for which so many targets of the page are recorded. */
  function Holding(page: Page, roots: seq<Node>, allowed: nat): Node -> bool {
    (n: Node) => Recorded(page, roots, n.id).allowed == allowed
  }

  /** Siblings for which equally many targets are recorded keep their old order. */
  lemma EqualsKeepOrder(page: Page, roots: seq<Node>, nodes: seq<Node>, allowed: nat)
    ensures var sorted, holding := ActionableFirst(TallyAll(page, roots, map[]), nodes), Holding(page, roots, allowed);
      Filter(sorted, holding) == Filter(nodes, holding)
  {
    var key, holding := ByAllowed(TallyAll(page, roots, map[])), Holding(page, roots, allowed);
    forall n ensures OfKey(key, allowed as real)(n) == holding(n) {
      KeyIsRecorded(page, roots, n);
    }
    SortIsStable(nodes, key, allowed as real);
    FilterSame(SortDown(nodes, key), OfKey(key, allowed as real), holding);
    FilterSame(nodes, OfKey(key, allowed as real), holding);
  }
}
