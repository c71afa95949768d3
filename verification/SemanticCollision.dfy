/**
 Why frame keys must not begin with "ax:": a main frame named "ax" gives DOM nodes the keys of accessibility
 nodes without a DOM node (packages/browser-core/src/browser-semantic-registry.ts).
 */
module SemanticCollision {
  import opened Prelude
  import opened JsonSize
  import opened SemanticRegistry
  import opened SemanticParents

  const INNER := DomNode(2, 1, "P", None, [], [], None)
  const OUTER := DomNode(1, 1, "SECTION", None, [INNER], [], None)
  const PARENT := AxNode("2", None, "region", false, ["1"])
  const CHILD := AxNode("1", None, "region", false, [])
  const COLLIDING := Input("ax", Some(OUTER), [], [PARENT, CHILD], [])

  function Colliding(outerAx: Option<AxNode>, innerAx: Option<AxNode>, outerParent: Option<string>): Registry {
    Registry("ax", ["ax:1", "ax:2"], map[
      "ax:1" := Fresh("ax:1", "ax", Some(1)).(dom := Some(OUTER), ax := outerAx, axParentKey := outerParent),
      "ax:2" := Fresh("ax:2", "ax", Some(2)).(dom := Some(INNER), ax := innerAx, domParentKey := Some("ax:1"))])
  }

  lemma LeafKeys(node: DomNode, inherited: string)
    requires node.children == [] && node.shadowRoots == [] && node.contentDocument.None?
    ensures DomKeys(node, inherited) == [DomKey(node, inherited)]
  {
    assert AllDomKeys([], OrElse(node.frameId, inherited)) == [];
  }

  lemma OneKeys(node: DomNode, inherited: string)
    ensures AllDomKeys([node], inherited) == DomKeys(node, inherited)
  {
    assert [node][1..] == [] && AllDomKeys([], inherited) == [];
  }

  lemma CollidingKeys()
    ensures DomKey(OUTER, "ax") == "ax:1" && DomKey(INNER, "ax") == "ax:2"
    ensures AxOnlyKey("1") == "ax:1" && AxOnlyKey("2") == "ax:2"
    ensures DomKeys(OUTER, "ax") == ["ax:1", "ax:2"]
  {
    assert Decimal(1) == "1" && Decimal(2) == "2";
    LeafKeys(INNER, "ax");
    OneKeys(INNER, "ax");
    assert AllDomKeys([], "ax") == [];
  }

  lemma CollidingDom()
    ensures AddDomTree(Empty("ax"), OUTER) == Colliding(None, None, None)
  {
    CollidingKeys();
    var r0 := Empty("ax");
    var r1 := Registry("ax", ["ax:1"], map["ax:1" := Fresh("ax:1", "ax", Some(1)).(dom := Some(OUTER))]);
    assert NoteDom(r0, OUTER, "ax", None) == r1;
    assert NoteDom(r1, INNER, "ax", Some("ax:1")) == Colliding(None, None, None);
    assert VisitDom(r1, INNER, "ax", Some("ax:1")) == Colliding(None, None, None);
    assert [INNER][1..] == [];
    assert VisitAll(r1, [INNER], "ax", Some("ax:1")) == VisitAll(Colliding(None, None, None), [], "ax", Some("ax:1"));
  }

  lemma CollidingAx()
    ensures AddAxTree(Colliding(None, None, None), [PARENT, CHILD]) ==
      Colliding(Some(CHILD), Some(PARENT), Some("ax:2"))
  {
    CollidingKeys();
    var r0, r1 := Colliding(None, None, None), Colliding(None, Some(PARENT), None);
    var r2 := Colliding(Some(CHILD), Some(PARENT), None);
    assert AxKey(r0, PARENT) == "ax:2" && NoteAx(r0, PARENT) == r1;
    assert AxKey(r1, CHILD) == "ax:1" && NoteAx(r1, CHILD) == r2;
    var one, keys := map["2" := "ax:2"], map["2" := "ax:2", "1" := "ax:1"];
    assert NoteAllAx(Keyed(r1, one), [CHILD]) == NoteAllAx(Keyed(r2, keys), []);
    assert [PARENT, CHILD][1..] == [CHILD];
    assert NoteAllAx(Keyed(r0, map[]), [PARENT, CHILD]) == Keyed(r2, keys);
    CollidingLinks(r2, keys);
  }

  lemma CollidingLinks(r: Registry, keys: map<string, string>)
    requires r == Colliding(Some(CHILD), Some(PARENT), None) && keys == map["2" := "ax:2", "1" := "ax:1"]
    ensures LinkAllAx(r, keys, [PARENT, CHILD]) == Colliding(Some(CHILD), Some(PARENT), Some("ax:2"))
  {
    var linked := Colliding(Some(CHILD), Some(PARENT), Some("ax:2"));
    assert LinkChild(r, keys, "ax:2", "1") == linked;
    assert LinkChildren(r, keys, "ax:2", ["1"]) == LinkChildren(linked, keys, "ax:2", []);
    assert [PARENT, CHILD][1..] == [CHILD];
    assert LinkAllAx(linked, keys, [CHILD]) == LinkAllAx(linked, keys, []);
  }

  lemma CollidingBuilt()
    ensures BuildRegistry(COLLIDING) == Colliding(Some(CHILD), Some(PARENT), Some("ax:2"))
  {
    CollidingDom();
    CollidingAx();
    var r := Colliding(Some(CHILD), Some(PARENT), Some("ax:2"));
    assert AddRecords(Colliding(None, None, None), []) == Colliding(None, None, None) && AddElements(r, []) == r;
  }

  /**
   On a page whose main frame is named "ax", the keys of DOM nodes and of accessibility nodes without a DOM node
   are the same strings: two trees then make a cycle of parents, so no rank exists.
   */
  lemma FrameNamedAxMakesCycle(rank: string -> nat)
    ensures SourcesAreTrees(COLLIDING, map["1" := 1, "2" := 0]) && !PlainKeys(COLLIDING)
    ensures !ParentsRanked(BuildRegistry(COLLIDING), rank)
  {
    CollidingKeys();
    CollidingBuilt();
    var r := BuildRegistry(COLLIDING);
    assert ParentOf(r.nodes["ax:1"]) == Some("ax:2") && ParentOf(r.nodes["ax:2"]) == Some("ax:1");
    assert !Plain(CanonicalKey("ax", 1));
  }
}
