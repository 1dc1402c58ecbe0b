/** The structural queries of the simple user layout, as functions of the
    layout document, and the properties that relate them: parent/child
    agreement, sibling symmetry, first match in document order, and where
    the root folder sits. */
module Layout {
  import opened Dom

  // ---------------------------------------------------------------------
  // Well-formed layouts

  /** The shape the layout document is stored in: one document element, every
      folder and channel below it carries an `ID`, and no `ID` value is used
      twice. The document element itself (`layout`) need not carry an `ID`. */
  /** No element follows the first element child of the document node. */
  predicate AtMostOneTopLevelElement(d: Document)
  {
    forall i, j :: 0 <= i < j < |d.children| && d.children[i].Element? ==> d.children[j].Other?
  }

  ghost predicate ValidLayout(d: Document)
  {
    && DocumentElement(d).Some?
    && AtMostOneTopLevelElement(d)
    && (forall p {:trigger IdAt(d, p)} :: |p| >= 2 && NodeAt(d.children, p).Element? ==> IdAt(d, p).Some?)
    && UniqueIds(d)
  }

  // ---------------------------------------------------------------------
  // Node descriptions

  /** The two node kinds a layout description distinguishes. The factory that
      builds descriptions is not part of this model; it is taken to classify
      an element as a folder exactly when its tag is `folder`. */
  datatype NodeKind = Folder | Leaf

  datatype NodeDescription = NodeDescription(kind: NodeKind, id: string, attrs: map<string, string>)

  function Describe(n: Node): NodeDescription
    requires n.Element?
  {
    NodeDescription(if n.tag == "folder" then Folder else Leaf, Attr(n, "ID"), n.attrs)
  }

  /** getNodeDescription: the description of the element with the id; None
      when no element has it. */
  function GetNodeDescription(d: Document, nodeId: string): (r: Option<NodeDescription>)
    ensures r.Some? <==> GetElementById(d, nodeId).Some?
    ensures r.Some? ==> r.value.id == nodeId
    ensures r.Some? ==>
      (r.value.kind == Folder <==> IsTag(NodeAt(d.children, GetElementById(d, nodeId).value), "folder"))
  {
    match GetElementById(d, nodeId)
    case None => None
    case Some(p) => Some(Describe(NodeAt(d.children, p)))
  }

  predicate IsFolder(d: Document, nodeId: string)
  {
    var desc := GetNodeDescription(d, nodeId);
    desc.Some? && desc.value.kind == Folder
  }

  // ---------------------------------------------------------------------
  // Parent

  /** getParentId: the `ID` attribute of the parent node of the element with
      the id, when that parent is an element; "" when the parent element has
      no `ID`. None for an unknown id and for the document element, whose
      parent is the document node. */
  function ParentId(d: Document, nodeId: string): Option<string>
  {
    match GetElementById(d, nodeId)
    case None => None
    case Some(p) =>
      var parent := NodeAt(d.children, p[..|p| - 1]);
      if parent.Element? then Some(Attr(parent, "ID")) else None
  }

  /** getParentId looks exactly one level up: the result is absent only for an
      unknown id or a top-level element, and otherwise it is the id of the
      element whose child list holds the node. */
  lemma ParentIdOneLevelUp(d: Document, nodeId: string)
    ensures ParentId(d, nodeId).None? <==>
      GetElementById(d, nodeId).None? || |GetElementById(d, nodeId).value| == 1
    ensures ParentId(d, nodeId).Some? ==>
      var p := GetElementById(d, nodeId).value;
      var parent := NodeAt(d.children, p[..|p| - 1]);
      && |p| >= 2
      && parent.Element?
      && p[|p| - 1] < |parent.children|
      && parent.children[p[|p| - 1]] == NodeAt(d.children, p)
      && ParentId(d, nodeId).value == Attr(parent, "ID")
  {
    var e := GetElementById(d, nodeId);
    if e.Some? {
      var p := e.value;
      if |p| >= 2 {
        var up := p[..|p| - 1];
        assert up + [p[|p| - 1]] == p;
        NodeAtChild(d.children, up, p[|p| - 1]);
      }
    }
  }

  // ---------------------------------------------------------------------
  // Children

  /** The `ID` attribute of every element in s, in order; non-element nodes
      are skipped. */
  function ElementIds(s: seq<Node>): seq<string>
  {
    if s == [] then []
    else ElementIds(s[..|s| - 1]) + (if s[|s| - 1].Element? then [Attr(s[|s| - 1], "ID")] else [])
  }

  /** ElementIds keeps the order of the nodes: it distributes over concatenation. */
  lemma {:induction false} ElementIdsAppend(s: seq<Node>, t: seq<Node>)
    ensures ElementIds(s + t) == ElementIds(s) + ElementIds(t)
    decreases |t|
  {
    if t != [] {
      var u := s + t;
      assert u[..|u| - 1] == s + t[..|t| - 1];
      ElementIdsAppend(s, t[..|t| - 1]);
    } else {
      assert s + t == s;
    }
  }

  /** ElementIds lists the id of every element of s, and nothing else. */
  lemma {:induction false} ElementIdsMembers(s: seq<Node>, v: string)
    ensures v in ElementIds(s) <==> exists j :: 0 <= j < |s| && s[j].Element? && Attr(s[j], "ID") == v
    decreases |s|
  {
    if s != [] {
      var init := s[..|s| - 1];
      ElementIdsMembers(init, v);
      if exists j :: 0 <= j < |init| && init[j].Element? && Attr(init[j], "ID") == v {
        var j :| 0 <= j < |init| && init[j].Element? && Attr(init[j], "ID") == v;
        assert s[j] == init[j];
      }
      if j :| 0 <= j < |s| && s[j].Element? && Attr(s[j], "ID") == v {
        if j < |init| {
          assert init[j] == s[j];
        }
      }
    }
  }

  /** getChildIds: for a folder, the id of each element child in document
      order; for any other node or an unknown id, nothing. */
  function ChildIds(d: Document, nodeId: string): seq<string>
  {
    if IsFolder(d, nodeId) then
      ElementIds(NodeAt(d.children, GetElementById(d, nodeId).value).children)
    else []
  }

  /** In a well-formed layout, every id getChildIds lists has the folder as
      its parent, as getParentId reports it. */
  lemma ChildIdsHaveParent(d: Document, nodeId: string, v: string)
    requires ValidLayout(d) && v in ChildIds(d, nodeId)
    ensures ParentId(d, v) == Some(nodeId)
  {
    var p := GetElementById(d, nodeId).value;
    var ch := NodeAt(d.children, p).children;
    ElementIdsMembers(ch, v);
    var j :| 0 <= j < |ch| && ch[j].Element? && Attr(ch[j], "ID") == v;
    NodeAtChild(d.children, p, j);
    var c := p + [j];
    assert IdAt(d, c).Some?;
    GetElementByIdUnique(d, v, c);
    assert c[..|c| - 1] == p;
  }

  /** In a well-formed layout, getChildIds of a folder lists every id whose
      parent, as getParentId reports it, is that folder. The folder's id must
      be non-empty: getParentId reports "" also for a parent without an `ID`. */
  lemma ParentedIdsAreChildIds(d: Document, nodeId: string, v: string)
    requires ValidLayout(d) && nodeId != "" && IsFolder(d, nodeId)
    requires ParentId(d, v) == Some(nodeId)
    ensures v in ChildIds(d, nodeId)
  {
    ParentIdOneLevelUp(d, v);
    var q := GetElementById(d, v).value;
    var up := q[..|q| - 1];
    assert HasId(NodeAt(d.children, up), nodeId);
    GetElementByIdUnique(d, nodeId, up);
    ElementIdsMembers(NodeAt(d.children, up).children, v);
  }

  /** For a folder with a non-empty id in a well-formed layout: v is listed by
      getChildIds exactly when getParentId(v) is the folder's id. */
  lemma ChildParentAgreement(d: Document, nodeId: string, v: string)
    requires ValidLayout(d) && nodeId != "" && IsFolder(d, nodeId)
    ensures v in ChildIds(d, nodeId) <==> ParentId(d, v) == Some(nodeId)
  {
    if v in ChildIds(d, nodeId) {
      ChildIdsHaveParent(d, nodeId, v);
    }
    if ParentId(d, v) == Some(nodeId) {
      ParentedIdsAreChildIds(d, nodeId, v);
    }
  }

  // ---------------------------------------------------------------------
  // Siblings

  /** The child list that holds the node at p: the document's children for a
      top-level node, else the children of the parent element. */
  function SiblingsOf(d: Document, p: Path): seq<Node>
  {
    if |p| <= 1 then d.children
    else match NodeAt(d.children, p[..|p| - 1])
      case Element(_, _, ch) => ch
      case Other => []
  }

  /** The node at p sits at index p[|p| - 1] of its sibling list, and every
      entry of that list is addressed by the same parent path. */
  lemma SiblingsAt(d: Document, p: Path)
    requires NodeAt(d.children, p).Element?
    ensures |p| >= 1 && p[|p| - 1] < |SiblingsOf(d, p)|
    ensures SiblingsOf(d, p)[p[|p| - 1]] == NodeAt(d.children, p)
    ensures forall j :: 0 <= j < |SiblingsOf(d, p)| ==>
      NodeAt(d.children, p[..|p| - 1] + [j]) == SiblingsOf(d, p)[j]
  {
    var s := SiblingsOf(d, p);
    if |p| == 1 {
      assert p == [p[0]] && p[..0] == [];
      forall j | 0 <= j < |s| ensures NodeAt(d.children, p[..|p| - 1] + [j]) == s[j] {
        assert p[..|p| - 1] + [j] == [j] && [j][1..] == [];
      }
    } else {
      var up := p[..|p| - 1];
      assert up + [p[|p| - 1]] == p;
      NodeAtChild(d.children, up, p[|p| - 1]);
      forall j | 0 <= j < |s| ensures NodeAt(d.children, up + [j]) == s[j] {
        NodeAtChild(d.children, up, j);
      }
    }
  }

  /** Index of the nearest element at or after `from`; |s| when there is none. */
  function NextElementIndex(s: seq<Node>, from: nat): (j: nat)
    requires from <= |s|
    ensures from <= j <= |s|
    ensures j < |s| ==> s[j].Element?
    ensures forall m :: from <= m < j ==> s[m].Other?
    decreases |s| - from
  {
    if from == |s| then |s|
    else if s[from].Element? then from
    else NextElementIndex(s, from + 1)
  }

  /** Index of the nearest element at or before `from`; -1 when there is none. */
  function PrevElementIndex(s: seq<Node>, from: int): (j: int)
    requires -1 <= from < |s|
    ensures -1 <= j <= from
    ensures j >= 0 ==> s[j].Element?
    ensures forall m :: j < m <= from ==> s[m].Other?
    decreases from + 1
  {
    if from == -1 then -1
    else if s[from].Element? then from
    else PrevElementIndex(s, from - 1)
  }

  /** The id of the nearest element after index k of s, if any. */
  function NextIdIn(s: seq<Node>, k: nat): Option<string>
    requires k < |s|
  {
    var j := NextElementIndex(s, k + 1);
    if j < |s| then Some(Attr(s[j], "ID")) else None
  }

  /** The id of the nearest element before index k of s, if any. */
  function PrevIdIn(s: seq<Node>, k: nat): Option<string>
    requires k < |s|
  {
    var j := PrevElementIndex(s, k as int - 1);
    if j >= 0 then Some(Attr(s[j], "ID")) else None
  }

  /** Two elements with only non-elements between them are each other's
      nearest element neighbours. */
  lemma NeighbourElements(s: seq<Node>, k: nat, j: nat)
    requires k < j < |s| && s[k].Element? && s[j].Element?
    requires forall m :: k < m < j ==> s[m].Other?
    ensures NextIdIn(s, k) == Some(Attr(s[j], "ID"))
    ensures PrevIdIn(s, j) == Some(Attr(s[k], "ID"))
  {
  }

  /** getNextSiblingId: the id of the nearest element after the node in its
      parent's child list, skipping non-element siblings. */
  function NextSiblingId(d: Document, nodeId: string): Option<string>
  {
    match GetElementById(d, nodeId)
    case None => None
    case Some(p) =>
      SiblingsAt(d, p);
      NextIdIn(SiblingsOf(d, p), p[|p| - 1])
  }

  /** getPreviousSiblingId: the id of the nearest element before the node in
      its parent's child list, skipping non-element siblings. */
  function PreviousSiblingId(d: Document, nodeId: string): Option<string>
  {
    match GetElementById(d, nodeId)
    case None => None
    case Some(p) =>
      SiblingsAt(d, p);
      PrevIdIn(SiblingsOf(d, p), p[|p| - 1])
  }

  /** In a well-formed layout, an element sibling of a node is found by its
      own id, and shares the node's sibling list. A top-level element has no
      element siblings. */
  lemma SiblingById(d: Document, p: Path, j: nat)
    requires ValidLayout(d) && NodeAt(d.children, p).Element?
    requires j < |SiblingsOf(d, p)| && SiblingsOf(d, p)[j].Element? && j != p[|p| - 1]
    ensures |p| >= 2
    ensures var q := p[..|p| - 1] + [j];
      && GetElementById(d, Attr(SiblingsOf(d, p)[j], "ID")) == Some(q)
      && SiblingsOf(d, q) == SiblingsOf(d, p)
  {
    SiblingsAt(d, p);
    var s := SiblingsOf(d, p);
    var k := p[|p| - 1];
    if |p| == 1 {
      assert false;
    }
    var q := p[..|p| - 1] + [j];
    assert NodeAt(d.children, q) == s[j];
    assert |q| >= 2;
    assert IdAt(d, q).Some?;
    GetElementByIdUnique(d, Attr(s[j], "ID"), q);
    assert q[..|q| - 1] == p[..|p| - 1];
  }

  /** In a well-formed layout, next(a) = b implies previous(b) = a. */
  lemma NextThenPrevious(d: Document, a: string, b: string)
    requires ValidLayout(d) && NextSiblingId(d, a) == Some(b)
    ensures PreviousSiblingId(d, b) == Some(a)
  {
    var p := GetElementById(d, a).value;
    SiblingsAt(d, p);
    var s := SiblingsOf(d, p);
    var k := p[|p| - 1];
    var j := NextElementIndex(s, k + 1);
    assert j < |s| && b == Attr(s[j], "ID");
    SiblingById(d, p, j);
    NeighbourElements(s, k, j);
    var q := p[..|p| - 1] + [j];
    assert q[|q| - 1] == j;
  }

  /** In a well-formed layout, previous(b) = a implies next(a) = b. */
  lemma PreviousThenNext(d: Document, a: string, b: string)
    requires ValidLayout(d) && PreviousSiblingId(d, b) == Some(a)
    ensures NextSiblingId(d, a) == Some(b)
  {
    var q := GetElementById(d, b).value;
    SiblingsAt(d, q);
    var s := SiblingsOf(d, q);
    var k := q[|q| - 1];
    var i := PrevElementIndex(s, k as int - 1);
    assert i >= 0 && a == Attr(s[i], "ID");
    SiblingById(d, q, i);
    NeighbourElements(s, i, k);
    var p := q[..|q| - 1] + [i];
    assert p[|p| - 1] == i;
  }

  /** In a well-formed layout the two sibling queries are inverse:
      next(a) = b exactly when previous(b) = a. */
  lemma SiblingSymmetry(d: Document, a: string, b: string)
    requires ValidLayout(d)
    ensures NextSiblingId(d, a) == Some(b) <==> PreviousSiblingId(d, b) == Some(a)
  {
    if NextSiblingId(d, a) == Some(b) {
      NextThenPrevious(d, a, b);
    }
    if PreviousSiblingId(d, b) == Some(a) {
      PreviousThenNext(d, a, b);
    }
  }

  // ---------------------------------------------------------------------
  // Lookup by functional name

  predicate ChannelNamed(d: Document, fname: string, p: Path)
  {
    NodeAt(d.children, p).Element? && Attr(NodeAt(d.children, p), "fname") == fname
  }

  /** The first `channel` element, in the order getElementsByTagName lists
      them, whose `fname` attribute equals fname. */
  function FirstChannelNamed(d: Document, fname: string): Option<Path>
  {
    var nl := GetElementsByTagName(d, "channel");
    match FirstWhere(nl, p => ChannelNamed(d, fname, p))
    case None => None
    case Some(k) => Some(nl[k])
  }

  /** getNodeId: the id of that channel; None when no channel matches. */
  function NodeIdByFname(d: Document, fname: string): Option<string>
  {
    match FirstChannelNamed(d, fname)
    case None => None
    case Some(p) => Some(Attr(NodeAt(d.children, p), "ID"))
  }

  /** getNodeId answers with the channel that comes first in document order
      among all channels with the functional name, and is absent only when no
      channel has it. */
  lemma NodeIdFirstInDocumentOrder(d: Document, fname: string, q: Path)
    ensures FirstChannelNamed(d, fname).Some? ==>
      var p := FirstChannelNamed(d, fname).value;
      && IsTag(NodeAt(d.children, p), "channel")
      && Attr(NodeAt(d.children, p), "fname") == fname
      && NodeIdByFname(d, fname) == Some(Attr(NodeAt(d.children, p), "ID"))
    ensures IsTag(NodeAt(d.children, q), "channel") && Attr(NodeAt(d.children, q), "fname") == fname ==>
      && FirstChannelNamed(d, fname).Some?
      && (q != FirstChannelNamed(d, fname).value ==> DocBefore(FirstChannelNamed(d, fname).value, q))
  {
    var nl := GetElementsByTagName(d, "channel");
    var r := FirstChannelNamed(d, fname);
    if r.Some? {
      ElementsByTagName(d, "channel", r.value);
    }
    if IsTag(NodeAt(d.children, q), "channel") && Attr(NodeAt(d.children, q), "fname") == fname {
      ElementsByTagName(d, "channel", q);
      FirstWhereEarliest(nl, p => ChannelNamed(d, fname, p), q);
    }
  }

  // ---------------------------------------------------------------------
  // Root folder and top-level ids

  /** p matches the location path /layout/folder: a `folder` child of a
      top-level `layout` element. */
  predicate AtLayoutFolder(d: Document, p: Path)
  {
    |p| == 2 && IsTag(NodeAt(d.children, p[..1]), "layout") && IsTag(NodeAt(d.children, p), "folder")
  }

  /** The node /layout/folder selects: the first match in document order. */
  function RootPath(d: Document): Option<Path>
  {
    var ps := PreOrder(d);
    match FirstWhere(ps, p => AtLayoutFolder(d, p))
    case None => None
    case Some(k) => Some(ps[k])
  }

  /** getRootId: the `ID` of that folder; None when the path selects nothing. */
  function RootId(d: Document): Option<string>
  {
    match RootPath(d)
    case None => None
    case Some(p) => Some(Attr(NodeAt(d.children, p), "ID"))
  }

  /** getRootId answers with the first `folder` child of a top-level `layout`
      element in document order, and is absent exactly when there is none. */
  lemma RootIdFirstLayoutFolder(d: Document, q: Path)
    ensures RootPath(d).Some? ==>
      && AtLayoutFolder(d, RootPath(d).value)
      && RootId(d) == Some(Attr(NodeAt(d.children, RootPath(d).value), "ID"))
    ensures RootId(d).None? ==> !AtLayoutFolder(d, q)
    ensures AtLayoutFolder(d, q) && q != RootPath(d).value ==> DocBefore(RootPath(d).value, q)
  {
    PreOrderInOrder(d);
    if AtLayoutFolder(d, q) {
      PreOrderElements(d, q);
      FirstWhereEarliest(PreOrder(d), p => AtLayoutFolder(d, p), q);
    }
  }

  /** In a well-formed layout the root folder's parent is the `layout`
      document element, so getParentId of the root id reports that element's
      `ID` attribute ("" when it has none) rather than nothing. */
  lemma RootParentIsLayoutElement(d: Document)
    requires ValidLayout(d) && RootId(d).Some?
    ensures ParentId(d, RootId(d).value) == Some(Attr(d.children[DocumentElement(d).value], "ID"))
  {
    var p := RootPath(d).value;
    RootIdFirstLayoutFolder(d, p);
    var r := RootId(d).value;
    assert IdAt(d, p).Some?;
    GetElementByIdUnique(d, r, p);
    var top := p[0];
    assert p[..1] == [top] && [top][1..] == [];
    assert NodeAt(d.children, [top]) == d.children[top];
    var e := DocumentElement(d).value;
    assert d.children[top].Element?;
    assert top == e;
  }

  /** getNodeIds: the `ID` of each element child of the document node, the
      node the expression `*` is evaluated against. */
  function TopLevelIds(d: Document): seq<string>
  {
    ElementIds(d.children)
  }

  lemma {:induction false} ElementIdsOfOthers(s: seq<Node>)
    requires forall i :: 0 <= i < |s| ==> s[i].Other?
    ensures ElementIds(s) == []
    decreases |s|
  {
    if s != [] {
      ElementIdsOfOthers(s[..|s| - 1]);
    }
  }

  /** getNodeIds is shallow: when the document node has at most one element
      child, it lists that element's id alone (nothing when there is none),
      never the folders and channels below it. */
  lemma TopLevelIdsShallow(d: Document)
    requires AtMostOneTopLevelElement(d)
    ensures DocumentElement(d).None? ==> TopLevelIds(d) == []
    ensures DocumentElement(d).Some? ==>
      TopLevelIds(d) == [Attr(d.children[DocumentElement(d).value], "ID")]
    ensures |TopLevelIds(d)| <= 1
  {
    var c := d.children;
    match DocumentElement(d)
    case None =>
      ElementIdsOfOthers(c);
    case Some(e) =>
      var before, after := c[..e], c[e + 1..];
      assert c == before + [c[e]] + after;
      ElementIdsOfOthers(before);
      ElementIdsOfOthers(after);
      ElementIdsAppend(before + [c[e]], after);
      ElementIdsAppend(before, [c[e]]);
      assert [c[e]][..0] == [];
  }

  // ---------------------------------------------------------------------
  // Export

  /** The node writeTo(document) copies into the target document: the
      document element; None when there is none. */
  function ExportedDocumentElement(d: Document): (r: Option<Node>)
    ensures r.Some? ==> r.value.Element? && r.value in d.children
    ensures r.None? ==> forall i :: 0 <= i < |d.children| ==> d.children[i].Other?
  {
    match DocumentElement(d)
    case None => None
    case Some(i) => Some(d.children[i])
  }

  /** The subtree writeTo(nodeId, document) copies into the target document:
      the element with the id, with everything below it; None when the id is
      unknown. */
  function ExportedSubtree(d: Document, nodeId: string): (r: Option<Node>)
    ensures r.Some? ==> HasId(r.value, nodeId)
    ensures r.Some? ==> exists p :: p in PreOrder(d) && r.value == NodeAt(d.children, p)
    ensures r.None? <==> GetElementById(d, nodeId).None?
  {
    match GetElementById(d, nodeId)
    case None => None
    case Some(p) => Some(NodeAt(d.children, p))
  }

  /** With unique ids, writeTo(nodeId, document) exports exactly the subtree
      rooted at the element carrying the id. */
  lemma ExportedSubtreeOfId(d: Document, nodeId: string, q: Path)
    requires UniqueIds(d) && HasId(NodeAt(d.children, q), nodeId)
    ensures ExportedSubtree(d, nodeId) == Some(NodeAt(d.children, q))
  {
    GetElementByIdUnique(d, nodeId, q);
  }
}
