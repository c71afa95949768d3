/**
 What a page of the semantic tree does with its budget: nodes worth showing are printed in order as long as there is
 room, whether the page ends up truncated or not (packages/browser-core/src/browser-semantic-serializer.ts).
 */
module SemanticBudget {
  import opened Prelude
  import opened StableSort
  import opened SemanticSerializer
  import opened SemanticShown

  /** With `n` nodes and `b` bytes printed there is no room for the node. */
  predicate NoRoom(page: Page, node: Node, n: nat, b: nat) {
    n >= page.maxNodes || b + page.bytes(BaseOf(page, node)) > page.maxBytes
  }

  /**
   Of `nodes`, below the nodes `above`, exactly those worth showing for which what was printed before them, `n` nodes
   and `b` bytes, leaves room are printed as `outs`, in order.
   */
  ghost predicate Fills(page: Page, counts: Counts, count: Node -> Count, above: seq<Node>, nodes: seq<Node>,
                        outs: seq<AgentNode>, n: nat, b: nat)
    decreases HeightAll(nodes), 1, |nodes|
  {
    if nodes == [] then outs == []
    else if !IsWorth(page, count, above, nodes[0]) || NoRoom(page, nodes[0], n, b)
      then Fills(page, counts, count, above, nodes[1..], outs, n, b)
    else
      && outs != [] && FillsNode(page, counts, count, above, nodes[0], outs[0], n, b)
      && Fills(page, counts, count, above, nodes[1..], outs[1..], n + NodesIn([outs[0]]), b + BytesIn(page, [outs[0]]))
  }

  /** The node itself, and then its children in the same way. */
  ghost predicate FillsNode(page: Page, counts: Counts, count: Node -> Count, above: seq<Node>, node: Node,
                            out: AgentNode, n: nat, b: nat)
    decreases Height(node), 0, 0
  {
    && out.base == BaseOf(page, node)
    && Fills(page, counts, count, above + [node], ActionableFirst(counts, node.children), out.children, n + 1,
             b + page.bytes(out.base))
  }

  lemma {:induction false} PrintFills(page: Page, counts: Counts, count: Node -> Count, above: seq<Node>, node: Node,
                                      s: State)
    requires Within(page, s) && CountsBy(counts, count)
    ensures var r := Print(page, counts, node, InContext(count, above), s);
      && (r.out.None? <==> !IsWorth(page, count, above, node) || NoRoom(page, node, s.nodes, s.bytes))
      && (r.out.Some? ==> FillsNode(page, counts, count, above, node, r.out.value, s.nodes, s.bytes))
    decreases Height(node), 0, 0
  {
    DroppedIffNotWorth(page, counts, count, above, node);
    if IsWorth(page, count, above, node) && !NoRoom(page, node, s.nodes, s.bytes) {
      PrintAllFills(page, counts, count, above + [node], ActionableFirst(counts, node.children),
                    Retain(page, s, BaseOf(page, node)));
    }
  }

  lemma {:induction false} PrintAllFills(page: Page, counts: Counts, count: Node -> Count, above: seq<Node>,
                                         nodes: seq<Node>, s: State)
    requires Within(page, s) && CountsBy(counts, count)
    ensures Fills(page, counts, count, above, nodes, PrintAll(page, counts, nodes, InContext(count, above), s).out,
                  s.nodes, s.bytes)
    decreases HeightAll(nodes), 1, |nodes|
  {
    if nodes != [] {
      var first := Print(page, counts, nodes[0], InContext(count, above), s);
      var rest := PrintAll(page, counts, nodes[1..], InContext(count, above), first.state);
      PrintSpends(page, counts, nodes[0], InContext(count, above), s);
      PrintFills(page, counts, count, above, nodes[0], s);
      PrintAllFills(page, counts, count, above, nodes[1..], first.state);
      FillsFirst(page, counts, count, above, nodes, first.out, rest.out, s.nodes, s.bytes);
    }
  }

  lemma FillsFirst(page: Page, counts: Counts, count: Node -> Count, above: seq<Node>, nodes: seq<Node>,
                   first: Option<AgentNode>, rest: seq<AgentNode>, n: nat, b: nat)
    requires nodes != [] && (first.None? <==> !IsWorth(page, count, above, nodes[0]) || NoRoom(page, nodes[0], n, b))
    requires first.Some? ==> FillsNode(page, counts, count, above, nodes[0], first.value, n, b)
    requires Fills(page, counts, count, above, nodes[1..], rest, n + NodesIn(Listed(first)),
                   b + BytesIn(page, Listed(first)))
    ensures Fills(page, counts, count, above, nodes, Listed(first) + rest, n, b)
  {
    if first.Some? {
      assert (Listed(first) + rest)[1..] == rest;
    } else {
      assert Listed(first) + rest == rest;
    }
  }

  /**
   Each of `nodes` is printed in its place among `outs`, or is not worth it, or the page, of `n` nodes and `b` bytes in
   all, has no room for it.
   */
  ghost predicate Covers(page: Page, counts: Counts, count: Node -> Count, above: seq<Node>, nodes: seq<Node>,
                         outs: seq<AgentNode>, n: nat, b: nat)
    decreases HeightAll(nodes), 1, |nodes|
  {
    if nodes == [] then outs == []
    else
      || (&& (IsWorth(page, count, above, nodes[0]) ==> NoRoom(page, nodes[0], n, b))
          && Covers(page, counts, count, above, nodes[1..], outs, n, b))
      || (&& outs != [] && CoversNode(page, counts, count, above, nodes[0], outs[0], n, b)
          && Covers(page, counts, count, above, nodes[1..], outs[1..], n, b))
  }

  ghost predicate CoversNode(page: Page, counts: Counts, count: Node -> Count, above: seq<Node>, node: Node,
                             out: AgentNode, n: nat, b: nat)
    decreases Height(node), 0, 0
  {
    && IsWorth(page, count, above, node) && out.base == BaseOf(page, node)
    && Covers(page, counts, count, above + [node], ActionableFirst(counts, node.children), out.children, n, b)
  }

  lemma {:induction false} FillsCovers(page: Page, counts: Counts, count: Node -> Count, above: seq<Node>,
                                       nodes: seq<Node>, outs: seq<AgentNode>, n: nat, b: nat, n': nat, b': nat)
    requires Fills(page, counts, count, above, nodes, outs, n, b)
    requires n + NodesIn(outs) <= n' && b + BytesIn(page, outs) <= b'
    ensures Covers(page, counts, count, above, nodes, outs, n', b')
    decreases HeightAll(nodes), 1, |nodes|
  {
    if nodes != [] {
      if !IsWorth(page, count, above, nodes[0]) || NoRoom(page, nodes[0], n, b) {
        FillsCovers(page, counts, count, above, nodes[1..], outs, n, b, n', b');
      } else {
        SingleSizes(page, outs[0]);
        FillsCoversNode(page, counts, count, above, nodes[0], outs[0], n, b, n', b');
        FillsCovers(page, counts, count, above, nodes[1..], outs[1..], n + NodesIn([outs[0]]),
                    b + BytesIn(page, [outs[0]]), n', b');
      }
    }
  }

  lemma {:induction false} FillsCoversNode(page: Page, counts: Counts, count: Node -> Count, above: seq<Node>,
                                           node: Node, out: AgentNode, n: nat, b: nat, n': nat, b': nat)
    requires FillsNode(page, counts, count, above, node, out, n, b) && IsWorth(page, count, above, node)
    requires n + 1 + NodesIn(out.children) <= n' && b + page.bytes(out.base) + BytesIn(page, out.children) <= b'
    ensures CoversNode(page, counts, count, above, node, out, n', b')
    decreases Height(node), 0, 0
  {
    FillsCovers(page, counts, count, above + [node], ActionableFirst(counts, node.children), out.children, n + 1,
                b + page.bytes(out.base), n', b');
  }

  /**
   Whether truncated or not, a page prints every root and every child of a printed node that is worth showing, in order,
   as long as there is room; so each of them is printed, or the finished page has no room for it.
   */
  lemma BudgetIsUsed(page: Page, roots: seq<Node>, truncated: bool)
    ensures var out, counts := PrintPage(page, roots, truncated).out, TallyAll(page, roots, map[]);
      var count, first := RecordedBy(page, roots), ActionableFirst(counts, roots);
      && Fills(page, counts, count, [], first, out, 0, 0)
      && Covers(page, counts, count, [], first, out, NodesIn(out), BytesIn(page, out))
  {
    var counts, count := TallyAll(page, roots, map[]), RecordedBy(page, roots);
    RecordedIsLast(page, roots);
    assert CountsBy(counts, count);
    PrintAllFills(page, counts, count, [], ActionableFirst(counts, roots), State(0, 0, truncated));
    var out := PrintPage(page, roots, truncated).out;
    FillsCovers(page, counts, count, [], ActionableFirst(counts, roots), out, 0, 0, NodesIn(out), BytesIn(page, out));
  }
}
