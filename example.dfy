/** A worked example: a small layout document and the answer each query gives
    on it, proved by evaluating the model. */
module ExampleLayout {
  import opened Dom
  import opened Layout

  // The example document: a `layout` element without an ID holding the root
  // folder, whose children are channel n1, a text node and folder f2, which
  // holds channel n2.

  function N1(): Node { Element("channel", map["ID" := "n1", "fname" := "weather"], []) }
  function N2(): Node { Element("channel", map["ID" := "n2", "fname" := "news"], []) }
  function F2(): Node { Element("folder", map["ID" := "f2"], [N2()]) }
  function Root(): Node { Element("folder", map["ID" := "root"], [N1(), Other, F2()]) }
  function LayoutElement(): Node { Element("layout", map[], [Root()]) }
  function Example(): Document { Document([LayoutElement()]) }

  lemma F2PreOrder()
    ensures Subtree(F2(), [0, 0, 2]) == [[0, 0, 2], [0, 0, 2, 0]]
  {
    assert [0, 0, 2] + [0] == [0, 0, 2, 0];
    assert Subtree(N2(), [0, 0, 2, 0]) == [[0, 0, 2, 0]];
    assert ElementsFrom(F2().children, [0, 0, 2], 1) == [];
  }

  lemma RootPreOrder()
    ensures Subtree(Root(), [0, 0]) == [[0, 0], [0, 0, 0], [0, 0, 2], [0, 0, 2, 0]]
  {
    var ch := Root().children;
    F2PreOrder();
    assert [0, 0] + [2] == [0, 0, 2] && [0, 0] + [0] == [0, 0, 0];
    assert ElementsFrom(ch, [0, 0], 3) == [];
    assert ElementsFrom(ch, [0, 0], 2) == [[0, 0, 2], [0, 0, 2, 0]];
    assert ElementsFrom(ch, [0, 0], 1) == [[0, 0, 2], [0, 0, 2, 0]];
    assert Subtree(N1(), [0, 0, 0]) == [[0, 0, 0]];
  }

  /** The document's elements in document order. */
  lemma ExamplePreOrder()
    ensures PreOrder(Example()) == [[0], [0, 0], [0, 0, 0], [0, 0, 2], [0, 0, 2, 0]]
  {
    RootPreOrder();
    assert [0] + [0] == [0, 0] && [] + [0] == [0];
    assert ElementsFrom(LayoutElement().children, [0], 1) == [];
    assert ElementsFrom(Example().children, [], 1) == [];
  }

  /** The node each path of the example addresses. */
  lemma ExampleNodes()
    ensures NodeAt(Example().children, [0]) == LayoutElement()
    ensures NodeAt(Example().children, [0, 0]) == Root()
    ensures NodeAt(Example().children, [0, 0, 0]) == N1()
    ensures NodeAt(Example().children, [0, 0, 2]) == F2()
    ensures NodeAt(Example().children, [0, 0, 2, 0]) == N2()
  {
    assert [0][1..] == [] && [0, 0][1..] == [0] && [0, 0, 0][1..] == [0, 0];
    assert [0, 0, 2][1..] == [0, 2] && [0, 2][1..] == [2] && [2][1..] == [];
    assert [0, 0, 2, 0][1..] == [0, 2, 0] && [0, 2, 0][1..] == [2, 0] && [2, 0][1..] == [0];
  }

  /** getElementById on the example: each of the four ids names its element,
      and any other string names nothing. */
  lemma ExampleLookup(x: string)
    ensures GetElementById(Example(), x) ==
      if x == "root" then Some([0, 0])
      else if x == "n1" then Some([0, 0, 0])
      else if x == "f2" then Some([0, 0, 2])
      else if x == "n2" then Some([0, 0, 2, 0])
      else None
  {
    ExamplePreOrder();
    ExampleNodes();
    var d := Example();
    var ps := PreOrder(d);
    var r := FirstWhere(ps, p => HasId(NodeAt(d.children, p), x));
    if x in {"root", "n1", "f2", "n2"} {
      var k := if x == "root" then 1 else if x == "n1" then 2 else if x == "f2" then 3 else 4;
      assert HasId(NodeAt(d.children, ps[k]), x);
    }
  }

  /** The ID at each path of the example: only the four named elements carry
      one. */
  lemma ExampleIds(p: Path)
    ensures IdAt(Example(), p) ==
      if p == [0, 0] then Some("root")
      else if p == [0, 0, 0] then Some("n1")
      else if p == [0, 0, 2] then Some("f2")
      else if p == [0, 0, 2, 0] then Some("n2")
      else None
  {
    ExamplePreOrder();
    ExampleNodes();
    PreOrderElements(Example(), p);
  }

  /** The example is a well-formed layout, so the agreement and symmetry
      lemmas of module Layout apply to it. */
  lemma ExampleIsValid()
    ensures ValidLayout(Example())
  {
    var d := Example();
    forall p | |p| >= 2 && NodeAt(d.children, p).Element?
      ensures IdAt(d, p).Some?
    {
      ExamplePreOrder();
      PreOrderElements(d, p);
      ExampleIds(p);
    }
    forall p, q | IdAt(d, p).Some? && IdAt(d, p) == IdAt(d, q)
      ensures p == q
    {
      ExampleIds(p);
      ExampleIds(q);
    }
  }

  /** getNodeDescription of a channel: a leaf carrying its id and its
      functional name. */
  lemma ExampleNodeDescription()
    ensures GetNodeDescription(Example(), "n1") == Some(NodeDescription(Leaf, "n1", N1().attrs))
    ensures GetNodeDescription(Example(), "f2") == Some(NodeDescription(Folder, "f2", F2().attrs))
  {
    ExampleLookup("n1");
    ExampleLookup("f2");
    ExampleNodes();
  }

  /** getRootId finds the folder directly under the layout element. */
  lemma ExampleRootId()
    ensures RootId(Example()) == Some("root")
  {
    ExamplePreOrder();
  }

  /** getChildIds lists the element children of a folder, skipping the text
      node, and nothing for a channel. */
  lemma ExampleChildIds()
    ensures ChildIds(Example(), "root") == ["n1", "f2"]
    ensures ChildIds(Example(), "n1") == []
  {
    var ch := Root().children;
    ExampleLookup("root");
    ExampleLookup("n1");
    ExampleNodes();
    assert ElementIds(ch[..1]) == ["n1"];
    assert ch[..2][..1] == ch[..1];
    assert ElementIds(ch[..2]) == ["n1"];
    assert ch[..3][..2] == ch[..2];
    assert ch[..3] == ch;
  }

  /** getNodeId finds the channel by its functional name. */
  lemma ExampleNodeId()
    ensures NodeIdByFname(Example(), "news") == Some("n2")
  {
    ExamplePreOrder();
    ExampleNodes();
    var f := Example().children;
    var ps: seq<Path> := [[0], [0, 0], [0, 0, 0], [0, 0, 2], [0, 0, 2, 0]];
    assert TagFilter(f, ps[5..], "channel") == [];
    assert TagFilter(f, ps[4..], "channel") == [[0, 0, 2, 0]];
    assert TagFilter(f, ps[3..], "channel") == [[0, 0, 2, 0]];
    assert TagFilter(f, ps[2..], "channel") == [[0, 0, 0], [0, 0, 2, 0]];
    assert TagFilter(f, ps[1..], "channel") == [[0, 0, 0], [0, 0, 2, 0]];
    var nl := GetElementsByTagName(Example(), "channel");
    assert nl == [[0, 0, 0], [0, 0, 2, 0]];
    assert !ChannelNamed(Example(), "news", nl[0]) && ChannelNamed(Example(), "news", nl[1]);
  }

  /** getParentId of a channel is its folder; for the root folder it is the
      layout element, whose missing `ID` reads as the empty string. */
  lemma ExampleParent()
    ensures ParentId(Example(), "n2") == Some("f2")
    ensures ParentId(Example(), "root") == Some("")
  {
    ExampleLookup("n2");
    ExampleLookup("root");
    ExampleNodes();
    assert [0, 0, 2, 0][..3] == [0, 0, 2] && [0, 0][..1] == [0];
  }

  /** n1 and f2 share the root folder's child list. */
  lemma ExampleSiblings()
    ensures SiblingsOf(Example(), [0, 0, 0]) == Root().children
    ensures SiblingsOf(Example(), [0, 0, 2]) == Root().children
  {
    ExampleNodes();
    assert [0, 0, 0][..2] == [0, 0] && [0, 0, 2][..2] == [0, 0];
  }

  /** The sibling queries of a node found by id read its sibling list. */
  lemma SiblingQueries(d: Document, x: string, p: Path, s: seq<Node>, k: nat)
    requires GetElementById(d, x) == Some(p) && SiblingsOf(d, p) == s
    requires |p| >= 1 && p[|p| - 1] == k < |s|
    ensures NextSiblingId(d, x) == NextIdIn(s, k)
    ensures PreviousSiblingId(d, x) == PrevIdIn(s, k)
  {
  }

  /** getNextSiblingId steps over the text node between n1 and f2. */
  lemma ExampleNextSibling()
    ensures NextSiblingId(Example(), "n1") == Some("f2")
  {
    ExampleLookup("n1");
    ExampleSiblings();
    SiblingQueries(Example(), "n1", [0, 0, 0], Root().children, 0);
    NeighbourElements(Root().children, 0, 2);
  }

  /** getPreviousSiblingId steps back over the same text node. */
  lemma ExamplePreviousSibling()
    ensures PreviousSiblingId(Example(), "f2") == Some("n1")
  {
    ExampleLookup("f2");
    ExampleSiblings();
    SiblingQueries(Example(), "f2", [0, 0, 2], Root().children, 2);
    NeighbourElements(Root().children, 0, 2);
  }
}
