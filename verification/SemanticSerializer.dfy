/**
 One page of the semantic tree for the model: which nodes are printed, within a node and a byte budget
 (packages/browser-core/src/browser-semantic-serializer.ts).
 */
module SemanticSerializer {
  import opened Prelude
  import opened StableSort

  const MODEL_CONTEXT_ROLES := {
    "document", "main", "navigation", "region", "article", "form", "dialog", "alertdialog", "heading", "list",
    "listitem", "table", "row", "cell", "columnheader", "rowheader", "group", "paragraph", "label", "caption",
    "note", "status", "alert", "description" }

  datatype TargetRef = TargetRef(ref: string, frameRef: string)

  /** `detail` stands for the other fields that are printed. */
  datatype Node = Node(id: string, role: string, targetKey: Option<string>, detail: string, children: seq<Node>)

  datatype Base = Base(role: string, detail: string, target: Option<TargetRef>)

  datatype AgentNode = AgentNode(base: Base, children: seq<AgentNode>)

  /** `bytes` is the length of a printed node without its children. */
  datatype Page = Page(refs: map<string, TargetRef>, allowedRefs: set<string>, maxNodes: nat, maxBytes: nat,
                       bytes: Base -> nat)

  function TargetOf(page: Page, node: Node): Option<TargetRef> {
    if node.targetKey.Some? && node.targetKey.value != "" && node.targetKey.value in page.refs
      then Some(page.refs[node.targetKey.value]) else None
  }

  function BaseOf(page: Page, node: Node): Base {
    Base(node.role, node.detail, TargetOf(page, node))
  }

  // ---- Counting targets ----

  datatype Count = Count(any: nat, allowed: nat)

  function Own(page: Page, node: Node): Count {
    var target := TargetOf(page, node);
    if target.None? || target.value.ref == "" then Count(0, 0)
    else Count(1, if target.value.ref in page.allowedRefs then 1 else 0)
  }

  function Plus(a: Count, b: Count): Count {
    Count(a.any + b.any, a.allowed + b.allowed)
  }

  /** How many targets a subtree holds, and how many of them are on the page. */
  function CountOf(page: Page, node: Node): Count
    decreases node, 0
  {
    Plus(Own(page, node), CountAll(page, node.children))
  }

  function CountAll(page: Page, nodes: seq<Node>): Count
    decreases nodes, 1
  {
    if nodes == [] then Count(0, 0) else Plus(CountOf(page, nodes[0]), CountAll(page, nodes[1..]))
  }

  type Counts = map<string, Count>

  /** The counts by node id once a subtree has been counted. */
  function Tally(page: Page, node: Node, counts: Counts): Counts
    decreases node, 0
  {
    TallyAll(page, node.children, counts)[node.id := CountOf(page, node)]
  }

  function TallyAll(page: Page, nodes: seq<Node>, counts: Counts): Counts
    decreases nodes, 1
  {
    if nodes == [] then counts else TallyAll(page, nodes[1..], Tally(page, nodes[0], counts))
  }

  function CountFor(counts: Counts, id: string): Count {
    if id in counts then counts[id] else Count(0, 0)
  }

  // ---- Depth ----

  function Height(node: Node): nat
    decreases node, 0
  {
    1 + HeightAll(node.children)
  }

  function HeightAll(nodes: seq<Node>): nat
    decreases nodes, 1
  {
    if nodes == [] then 0
    else if Height(nodes[0]) > HeightAll(nodes[1..]) then Height(nodes[0]) else HeightAll(nodes[1..])
  }

  lemma {:induction false} HeightOfMember(nodes: seq<Node>, node: Node)
    requires node in nodes
    ensures Height(node) <= HeightAll(nodes)
  {
    if node != nodes[0] {
      HeightOfMember(nodes[1..], node);
    }
  }

  lemma {:induction false} HeightOfPart(nodes: seq<Node>, part: seq<Node>)
    requires forall n | n in part :: n in nodes
    ensures HeightAll(part) <= HeightAll(nodes)
    decreases |part|
  {
    if part != [] {
      HeightOfMember(nodes, part[0]);
      HeightOfPart(nodes, part[1..]);
    }
  }

  function ByAllowed(counts: Counts): Node -> real {
    (node: Node) => CountFor(counts, node.id).allowed as real
  }

  /** Nodes with more targets of the page below them first. */
  function ActionableFirst(counts: Counts, nodes: seq<Node>): (sorted: seq<Node>)
    ensures HeightAll(sorted) <= HeightAll(nodes)
  {
    SortMembers(nodes, ByAllowed(counts));
    HeightOfPart(nodes, SortDown(nodes, ByAllowed(counts)));
    SortDown(nodes, ByAllowed(counts))
  }

  // ---- Printing within the budget ----

  datatype State = State(nodes: nat, bytes: nat, truncated: bool)
  datatype Printed = Printed(out: Option<AgentNode>, state: State)
  datatype AllPrinted = AllPrinted(out: seq<AgentNode>, state: State)

  /** A target off the page, only targets off the page below, or nothing that gives context. */
  predicate IsDropped(page: Page, counts: Counts, node: Node, contextual: bool) {
    var count, target := CountFor(counts, node.id), TargetOf(page, node);
    if target.Some? then target.value.ref !in page.allowedRefs
    else count.allowed == 0 && (count.any > 0 || (!contextual && node.role !in MODEL_CONTEXT_ROLES))
  }

  predicate IsFull(page: Page, s: State, base: Base) {
    s.nodes >= page.maxNodes || s.bytes + page.bytes(base) > page.maxBytes
  }

  function Retain(page: Page, s: State, base: Base): State {
    State(s.nodes + 1, s.bytes + page.bytes(base), s.truncated)
  }

  function Print(page: Page, counts: Counts, node: Node, contextual: bool, s: State): Printed
    decreases Height(node), 0, 0
  {
    var base := BaseOf(page, node);
    if IsDropped(page, counts, node, contextual) then Printed(None, s)
    else if IsFull(page, s, base) then Printed(None, s.(truncated := true))
    else
      var below := PrintAll(page, counts, ActionableFirst(counts, node.children),
                            CountFor(counts, node.id).allowed > 0 || contextual, Retain(page, s, base));
      Printed(Some(AgentNode(base, below.out)), below.state)
  }

  function PrintAll(page: Page, counts: Counts, nodes: seq<Node>, contextual: bool, s: State): AllPrinted
    decreases HeightAll(nodes), 1, |nodes|
  {
    if nodes == [] then AllPrinted([], s)
    else
      var first := Print(page, counts, nodes[0], contextual, s);
      var rest := PrintAll(page, counts, nodes[1..], contextual, first.state);
      AllPrinted((if first.out.Some? then [first.out.value] else []) + rest.out, rest.state)
  }

  function PrintPage(page: Page, roots: seq<Node>, truncated: bool): AllPrinted {
    var counts := TallyAll(page, roots, map[]);
    PrintAll(page, counts, ActionableFirst(counts, roots), false, State(0, 0, truncated))
  }

  // ---- Sizes ----

  function NodesIn(nodes: seq<AgentNode>): nat {
    if nodes == [] then 0 else 1 + NodesIn(nodes[0].children) + NodesIn(nodes[1..])
  }

  function BytesIn(page: Page, nodes: seq<AgentNode>): nat {
    if nodes == [] then 0 else page.bytes(nodes[0].base) + BytesIn(page, nodes[0].children) + BytesIn(page, nodes[1..])
  }

  function Listed(out: Option<AgentNode>): seq<AgentNode> {
    if out.Some? then [out.value] else []
  }

  lemma PrependSizes(page: Page, first: Option<AgentNode>, rest: seq<AgentNode>)
    ensures NodesIn(Listed(first) + rest) == NodesIn(Listed(first)) + NodesIn(rest)
    ensures BytesIn(page, Listed(first) + rest) == BytesIn(page, Listed(first)) + BytesIn(page, rest)
  {
    if first.None? {
      assert Listed(first) + rest == rest;
    } else {
      assert (Listed(first) + rest)[1..] == rest && Listed(first)[1..] == [];
    }
  }

  ghost predicate Within(page: Page, s: State) {
    s.nodes <= page.maxNodes && s.bytes <= page.maxBytes
  }

  /** The counters say what has been printed since, and stay within the budget. */
  ghost predicate Spent(page: Page, s: State, out: seq<AgentNode>, t: State) {
    && Within(page, t)
    && t.nodes == s.nodes + NodesIn(out) && t.bytes == s.bytes + BytesIn(page, out)
    && (s.truncated ==> t.truncated)
  }

  lemma {:induction false} PrintSpends(page: Page, counts: Counts, node: Node, contextual: bool, s: State)
    requires Within(page, s)
    ensures var r := Print(page, counts, node, contextual, s); Spent(page, s, Listed(r.out), r.state)
    decreases Height(node), 0, 0
  {
    var base := BaseOf(page, node);
    if !IsDropped(page, counts, node, contextual) && !IsFull(page, s, base) {
      var ctx := CountFor(counts, node.id).allowed > 0 || contextual;
      var children := ActionableFirst(counts, node.children);
      PrintAllSpends(page, counts, children, ctx, Retain(page, s, base));
      var below := PrintAll(page, counts, children, ctx, Retain(page, s, base));
      PrependSizes(page, Some(AgentNode(base, below.out)), []);
      assert Listed(Some(AgentNode(base, below.out))) + [] == [AgentNode(base, below.out)];
    }
  }

  lemma {:induction false} PrintAllSpends(page: Page, counts: Counts, nodes: seq<Node>, contextual: bool, s: State)
    requires Within(page, s)
    ensures var r := PrintAll(page, counts, nodes, contextual, s); Spent(page, s, r.out, r.state)
    decreases HeightAll(nodes), 1, |nodes|
  {
    if nodes != [] {
      var first := Print(page, counts, nodes[0], contextual, s);
      PrintSpends(page, counts, nodes[0], contextual, s);
      PrintAllSpends(page, counts, nodes[1..], contextual, first.state);
      PrependSizes(page, first.out, PrintAll(page, counts, nodes[1..], contextual, first.state).out);
    }
  }

  /** A page holds at most `maxNodes` nodes and at most `maxBytes` bytes of nodes. */
  lemma PageWithinBudget(page: Page, roots: seq<Node>, truncated: bool)
    ensures var r := PrintPage(page, roots, truncated);
      NodesIn(r.out) <= page.maxNodes && BytesIn(page, r.out) <= page.maxBytes && (truncated ==> r.state.truncated)
  {
    var counts := TallyAll(page, roots, map[]);
    PrintAllSpends(page, counts, ActionableFirst(counts, roots), false, State(0, 0, truncated));
  }

  // ---- Printing without a budget ----

  function Whole(page: Page, counts: Counts, node: Node, contextual: bool): Option<AgentNode>
    decreases Height(node), 0, 0
  {
    if IsDropped(page, counts, node, contextual) then None
    else
      Some(AgentNode(BaseOf(page, node),
                     WholeAll(page, counts, ActionableFirst(counts, node.children),
                              CountFor(counts, node.id).allowed > 0 || contextual)))
  }

  function WholeAll(page: Page, counts: Counts, nodes: seq<Node>, contextual: bool): seq<AgentNode>
    decreases HeightAll(nodes), 1, |nodes|
  {
    if nodes == [] then []
      else Listed(Whole(page, counts, nodes[0], contextual)) + WholeAll(page, counts, nodes[1..], contextual)
  }

  function WholePage(page: Page, roots: seq<Node>): seq<AgentNode> {
    var counts := TallyAll(page, roots, map[]);
    WholeAll(page, counts, ActionableFirst(counts, roots), false)
  }

  ghost predicate Fits(page: Page, s: State, whole: seq<AgentNode>) {
    s.nodes + NodesIn(whole) <= page.maxNodes && s.bytes + BytesIn(page, whole) <= page.maxBytes
  }

  /** Nothing is cut off exactly when everything fits; then everything is printed. */
  ghost predicate CutIffTooBig(page: Page, s: State, out: seq<AgentNode>, t: State, whole: seq<AgentNode>) {
    (!t.truncated <==> !s.truncated && Fits(page, s, whole)) && (!t.truncated ==> out == whole)
  }

  lemma {:induction false} PrintCutsIffTooBig(page: Page, counts: Counts, node: Node, contextual: bool, s: State)
    requires Within(page, s)
    ensures var r := Print(page, counts, node, contextual, s);
      CutIffTooBig(page, s, Listed(r.out), r.state, Listed(Whole(page, counts, node, contextual)))
    decreases Height(node), 0, 0
  {
    var base := BaseOf(page, node);
    if !IsDropped(page, counts, node, contextual) {
      var ctx := CountFor(counts, node.id).allowed > 0 || contextual;
      var children := ActionableFirst(counts, node.children);
      var whole := WholeAll(page, counts, children, ctx);
      SingleSizes(page, AgentNode(base, whole));
      if !IsFull(page, s, base) {
        PrintAllCutsIffTooBig(page, counts, children, ctx, Retain(page, s, base));
      }
    }
  }

  lemma SingleSizes(page: Page, node: AgentNode)
    ensures NodesIn([node]) == 1 + NodesIn(node.children)
    ensures BytesIn(page, [node]) == page.bytes(node.base) + BytesIn(page, node.children)
  {
    assert [node][1..] == [];
  }

  lemma {:induction false} PrintAllCutsIffTooBig(page: Page, counts: Counts, nodes: seq<Node>, contextual: bool,
                                                 s: State)
    requires Within(page, s)
    ensures var r := PrintAll(page, counts, nodes, contextual, s);
      CutIffTooBig(page, s, r.out, r.state, WholeAll(page, counts, nodes, contextual))
    decreases HeightAll(nodes), 1, |nodes|
  {
    if nodes != [] {
      var first := Print(page, counts, nodes[0], contextual, s);
      PrintSpends(page, counts, nodes[0], contextual, s);
      PrintCutsIffTooBig(page, counts, nodes[0], contextual, s);
      PrintAllCutsIffTooBig(page, counts, nodes[1..], contextual, first.state);
      PrependSizes(page, Whole(page, counts, nodes[0], contextual), WholeAll(page, counts, nodes[1..], contextual));
    }
  }

  /** A page says that it is truncated exactly when the tree was, or when the page without a budget would not fit. */
  lemma TruncatedIffTooBig(page: Page, roots: seq<Node>, truncated: bool)
    ensures var r, whole := PrintPage(page, roots, truncated), WholePage(page, roots);
      && (!r.state.truncated <==>
        !truncated && NodesIn(whole) <= page.maxNodes && BytesIn(page, whole) <= page.maxBytes)
      && (!r.state.truncated ==> r.out == whole)
  {
    var counts := TallyAll(page, roots, map[]);
    PrintAllCutsIffTooBig(page, counts, ActionableFirst(counts, roots), false, State(0, 0, truncated));
  }

  // ---- Only nodes of the tree, in their places ----

  /** A printed node is a tree node that is no target or a target of the page, over printed children of that node. */
  ghost predicate Copies(page: Page, counts: Counts, node: Node, out: AgentNode)
    decreases Height(node), 0, 0
  {
    && out.base == BaseOf(page, node)
    && (out.base.target.Some? ==> out.base.target.value.ref in page.allowedRefs)
    && Embeds(page, counts, ActionableFirst(counts, node.children), out.children)
  }

  /** The printed nodes are copies of some of the nodes, in order. */
  ghost predicate Embeds(page: Page, counts: Counts, nodes: seq<Node>, outs: seq<AgentNode>)
    decreases HeightAll(nodes), 1, |nodes|
  {
    outs == [] || (nodes != [] &&
      ((Copies(page, counts, nodes[0], outs[0]) && Embeds(page, counts, nodes[1..], outs[1..])) ||
        Embeds(page, counts, nodes[1..], outs)))
  }

  lemma {:induction false} PrintCopies(page: Page, counts: Counts, node: Node, contextual: bool, s: State)
    ensures var r := Print(page, counts, node, contextual, s); r.out.Some? ==> Copies(page, counts, node, r.out.value)
    decreases Height(node), 0, 0
  {
    var base := BaseOf(page, node);
    if !IsDropped(page, counts, node, contextual) && !IsFull(page, s, base) {
      PrintAllEmbeds(page, counts, ActionableFirst(counts, node.children),
                     CountFor(counts, node.id).allowed > 0 || contextual, Retain(page, s, base));
    }
  }

  lemma {:induction false} PrintAllEmbeds(page: Page, counts: Counts, nodes: seq<Node>, contextual: bool, s: State)
    ensures Embeds(page, counts, nodes, PrintAll(page, counts, nodes, contextual, s).out)
    decreases HeightAll(nodes), 1, |nodes|
  {
    if nodes != [] {
      var first := Print(page, counts, nodes[0], contextual, s);
      PrintCopies(page, counts, nodes[0], contextual, s);
      PrintAllEmbeds(page, counts, nodes[1..], contextual, first.state);
      var rest := PrintAll(page, counts, nodes[1..], contextual, first.state).out;
      assert (Listed(first.out) + rest)[|Listed(first.out)|..] == rest;
      assert first.out.None? ==> Listed(first.out) + rest == rest;
    }
  }

  // ---- Targets that no target off the page hides ----

  /** The page's targets in a subtree that have no target off the page at or above them. */
  function Open(page: Page, node: Node): seq<TargetRef>
    decreases node, 0
  {
    var target := TargetOf(page, node);
    if target.None? then OpenAll(page, node.children)
    else if target.value.ref in page.allowedRefs then [target.value] + OpenAll(page, node.children)
    else []
  }

  function OpenAll(page: Page, nodes: seq<Node>): seq<TargetRef>
    decreases nodes, 1
  {
    if nodes == [] then [] else Open(page, nodes[0]) + OpenAll(page, nodes[1..])
  }

  function Shown(nodes: seq<AgentNode>): seq<TargetRef> {
    if nodes == [] then []
    else
      var target := nodes[0].base.target;
      (if target.Some? then [target.value] else []) + Shown(nodes[0].children) + Shown(nodes[1..])
  }

  function OpenOf(page: Page): Node -> seq<TargetRef> {
    (node: Node) => Open(page, node)
  }

  lemma {:induction false} OpenIsCollected(page: Page, nodes: seq<Node>)
    ensures OpenAll(page, nodes) == Collect(nodes, OpenOf(page))
    decreases |nodes|
  {
    if nodes != [] {
      OpenIsCollected(page, nodes[1..]);
      CollectFirst(nodes, OpenOf(page));
    }
  }

  lemma OpenSorted(page: Page, nodes: seq<Node>, key: Node -> real)
    ensures multiset(OpenAll(page, SortDown(nodes, key))) == multiset(OpenAll(page, nodes))
  {
    OpenIsCollected(page, nodes);
    OpenIsCollected(page, SortDown(nodes, key));
    CollectSorted(nodes, key, OpenOf(page));
  }

  lemma {:induction false} CopyShowsOnlyOpen(page: Page, counts: Counts, node: Node, out: AgentNode)
    requires Copies(page, counts, node, out)
    ensures multiset(Shown([out])) <= multiset(Open(page, node))
    decreases Height(node), 0, 0
  {
    EmbedsShowOnlyOpen(page, counts, ActionableFirst(counts, node.children), out.children);
    OpenSorted(page, node.children, ByAllowed(counts));
    assert [out][1..] == [];
  }

  lemma {:induction false} EmbedsShowOnlyOpen(page: Page, counts: Counts, nodes: seq<Node>, outs: seq<AgentNode>)
    requires Embeds(page, counts, nodes, outs)
    ensures multiset(Shown(outs)) <= multiset(OpenAll(page, nodes))
    decreases HeightAll(nodes), 1, |nodes|
  {
    if outs != [] {
      if Copies(page, counts, nodes[0], outs[0]) && Embeds(page, counts, nodes[1..], outs[1..]) {
        CopyShowsOnlyOpen(page, counts, nodes[0], outs[0]);
        EmbedsShowOnlyOpen(page, counts, nodes[1..], outs[1..]);
        ShownCons(outs);
      } else {
        EmbedsShowOnlyOpen(page, counts, nodes[1..], outs);
      }
    }
  }

  lemma ShownCons(outs: seq<AgentNode>)
    requires outs != []
    ensures Shown(outs) == Shown([outs[0]]) + Shown(outs[1..])
  {
    assert [outs[0]][1..] == [];
  }

  /**
   Whatever the budget, the page is made of copies of tree nodes in their places, roots and children with more
   targets of the page first, and shows no target but those that no target off the page hides.
   */
  lemma PageShowsOnlyOpenTargets(page: Page, roots: seq<Node>, truncated: bool)
    ensures var out, counts := PrintPage(page, roots, truncated).out, TallyAll(page, roots, map[]);
      && Embeds(page, counts, ActionableFirst(counts, roots), out)
      && multiset(Shown(out)) <= multiset(OpenAll(page, roots))
  {
    var counts := TallyAll(page, roots, map[]);
    PrintAllEmbeds(page, counts, ActionableFirst(counts, roots), false, State(0, 0, truncated));
    EmbedsShowOnlyOpen(page, counts, ActionableFirst(counts, roots), PrintPage(page, roots, truncated).out);
    OpenSorted(page, roots, ByAllowed(counts));
  }

  // ---- The serializer, which shares its counters between the calls ----

  class PageWriter {
    const page: Page
    var counts: Counts
    var retainedNodes: nat
    var retainedBytes: nat
    var truncated: bool

    constructor (page: Page, truncated: bool)
      ensures this.page == page && counts == map[] && AsState() == State(0, 0, truncated)
    {
      this.page := page;
      counts := map[];
      retainedNodes, retainedBytes, this.truncated := 0, 0, truncated;
    }

    function AsState(): State
      reads this`retainedNodes, this`retainedBytes, this`truncated
    {
      State(retainedNodes, retainedBytes, truncated)
    }

    method SubtreeCounts(node: Node) returns (result: Count)
      modifies this`counts
      ensures result == CountOf(page, node) && counts == Tally(page, node, old(counts))
      decreases node, 0
    {
      var below := CountEach(node.children);
      result := Plus(Own(page, node), below);
      SetCount(node.id, result);
    }

    method SetCount(id: string, count: Count)
      modifies this`counts
      ensures counts == old(counts)[id := count]
    {
      counts := counts[id := count];
    }

    method CountEach(nodes: seq<Node>) returns (sum: Count)
      modifies this`counts
      ensures sum == CountAll(page, nodes) && counts == TallyAll(page, nodes, old(counts))
      decreases nodes, 1
    {
      sum := Count(0, 0);
      var i := 0;
      while i < |nodes|
        invariant 0 <= i <= |nodes|
        invariant Plus(sum, CountAll(page, nodes[i..])) == CountAll(page, nodes)
        invariant TallyAll(page, nodes[i..], counts) == TallyAll(page, nodes, old(counts))
      {
        CountStep(page, nodes, i, counts);
        var counted := SubtreeCounts(nodes[i]);
        sum := Plus(sum, counted);
        i := i + 1;
      }
    }

    method Serialize(node: Node, contextual: bool) returns (out: Option<AgentNode>)
      modifies this`retainedNodes, this`retainedBytes, this`truncated
      ensures Printed(out, AsState()) == Print(page, counts, node, contextual, old(AsState()))
      decreases Height(node), 0, 0
    {
      var count, target := CountFor(counts, node.id), TargetOf(page, node);
      if target.Some? && target.value.ref !in page.allowedRefs {
        return None;
      }
      if target.None? && count.any > 0 && count.allowed == 0 {
        return None;
      }
      if target.None? && count.allowed == 0 && !contextual && node.role !in MODEL_CONTEXT_ROLES {
        return None;
      }
      var base := BaseOf(page, node);
      if retainedNodes >= page.maxNodes || retainedBytes + page.bytes(base) > page.maxBytes {
        truncated := true;
        return None;
      }
      retainedNodes := retainedNodes + 1;
      retainedBytes := retainedBytes + page.bytes(base);
      var children := SerializeAll(ActionableFirst(counts, node.children), count.allowed > 0 || contextual);
      out := Some(AgentNode(base, children));
    }

    method SerializeAll(nodes: seq<Node>, contextual: bool) returns (outs: seq<AgentNode>)
      modifies this`retainedNodes, this`retainedBytes, this`truncated
      ensures AllPrinted(outs, AsState()) == PrintAll(page, counts, nodes, contextual, old(AsState()))
      decreases HeightAll(nodes), 1, |nodes|
    {
      outs := [];
      var i := 0;
      while i < |nodes|
        invariant 0 <= i <= |nodes|
        invariant var rest := PrintAll(page, counts, nodes[i..], contextual, AsState());
          AllPrinted(outs + rest.out, rest.state) == PrintAll(page, counts, nodes, contextual, old(AsState()))
      {
        HeightOfMember(nodes, nodes[i]);
        ghost var before := AsState();
        var printed := Serialize(nodes[i], contextual);
        assert nodes[i..][1..] == nodes[i + 1..];
        PrintAllStep(page, counts, nodes[i..], contextual, before, outs);
        outs := outs + Listed(printed);
        i := i + 1;
      }
    }
  }

  lemma CountStep(page: Page, nodes: seq<Node>, i: nat, counts: Counts)
    requires i < |nodes|
    ensures CountAll(page, nodes[i..]) == Plus(CountOf(page, nodes[i]), CountAll(page, nodes[i + 1..]))
    ensures TallyAll(page, nodes[i..], counts) == TallyAll(page, nodes[i + 1..], Tally(page, nodes[i], counts))
  {
    assert nodes[i..][1..] == nodes[i + 1..];
  }

  lemma PrintAllStep(page: Page, counts: Counts, nodes: seq<Node>, contextual: bool, s: State, outs: seq<AgentNode>)
    requires nodes != []
    ensures var first := Print(page, counts, nodes[0], contextual, s);
      var all := PrintAll(page, counts, nodes, contextual, s);
      var rest := PrintAll(page, counts, nodes[1..], contextual, first.state);
      outs + all.out == (outs + Listed(first.out)) + rest.out && all.state == rest.state
  {
  }

  function AtLeast(least: nat, limit: Option<int>, default: nat): (r: nat)
    requires least <= default
    ensures r >= least && (limit.None? ==> r == default)
    ensures limit.Some? ==> r >= limit.value && (r == least || r == limit.value)
  {
    if limit.None? then default else if limit.value < least then least else limit.value
  }

  method SerializeSemanticTreePage(roots: seq<Node>, truncated: bool, refs: map<string, TargetRef>,
                                   allowedRefs: set<string>, maxNodes: Option<int>, maxBytes: Option<int>,
                                   bytes: Base -> nat)
    returns (outs: seq<AgentNode>, cut: bool)
    ensures var page := Page(refs, allowedRefs, AtLeast(1, maxNodes, 200), AtLeast(256, maxBytes, 12_000), bytes);
      PrintPage(page, roots, truncated).out == outs && PrintPage(page, roots, truncated).state.truncated == cut
  {
    var page := Page(refs, allowedRefs, AtLeast(1, maxNodes, 200), AtLeast(256, maxBytes, 12_000), bytes);
    var writer := new PageWriter(page, truncated);
    var _ := writer.CountEach(roots);
    outs := writer.SerializeAll(ActionableFirst(writer.counts, roots), false);
    cut := writer.truncated;
  }
}
