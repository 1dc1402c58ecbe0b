/** The simple user layout: a layout id and the layout document, both fixed
    at construction. The queries that scan the tree are methods with loops,
    each proved to compute the query of the same name in module Layout; the
    straight-line queries (parent, root id, node description) are those
    functions applied to the held document. */
module SimpleLayouts {
  import opened Dom
  import opened Layout

  /** A listener handle; the layout never keeps one. */
  datatype LayoutEventListener = LayoutEventListener(name: string)

  class SimpleLayout {
    const layout: Document
    const layoutId: string
    /** Declared by the layout but never assigned, so always absent. */
    const cacheKey: Option<string> := None

    constructor (layoutId: string, layout: Document)
      ensures this.layoutId == layoutId && this.layout == layout
    {
      this.layoutId := layoutId;
      this.layout := layout;
    }

    /** getId: the layout id given at construction. */
    function GetId(): (id: string)
      ensures id == layoutId
    {
      layoutId
    }

    /** getCacheKey: always absent, since nothing computes a cache key. */
    function GetCacheKey(): (key: Option<string>)
      ensures key.None?
    {
      cacheKey
    }

    /** addLayoutEventListener: not implemented; always reports failure. */
    function AddLayoutEventListener(l: LayoutEventListener): (added: bool)
      ensures !added
    {
      false
    }

    /** removeLayoutEventListener: not implemented; always reports failure. */
    function RemoveLayoutEventListener(l: LayoutEventListener): (removed: bool)
      ensures !removed
    {
      false
    }

    /** getChildIds: walks the folder's child list and collects the `ID` of
        each element child. The Java method also tests the attribute against null,
        which getAttribute never returns, so every element child is taken. */
    method GetChildIds(nodeId: string) returns (ids: seq<string>)
      ensures ids == ChildIds(layout, nodeId)
    {
      ids := [];
      var node := GetNodeDescription(layout, nodeId);
      if node.Some? && node.value.kind == Folder {
        var element := NodeAt(layout.children, GetElementById(layout, nodeId).value);
        var children := element.children;
        var i := 0;
        while i < |children|
          invariant 0 <= i <= |children|
          invariant ids == ElementIds(children[..i])
        {
          if children[i].Element? {
            ids := ids + [Attr(children[i], "ID")];
          }
          i := i + 1;
          assert children[..i][..i - 1] == children[..i - 1];
        }
        assert children[..|children|] == children;
      }
    }

    /** getNextSiblingId: steps forward from the node past non-element
        siblings and answers with the `ID` of the first element reached. */
    method GetNextSiblingId(nodeId: string) returns (nextSiblingId: Option<string>)
      ensures nextSiblingId == NextSiblingId(layout, nodeId)
    {
      nextSiblingId := None;
      var element := GetElementById(layout, nodeId);
      if element.Some? {
        var p := element.value;
        SiblingsAt(layout, p);
        var siblings := SiblingsOf(layout, p);
        var sibling := p[|p| - 1] + 1;
        while sibling < |siblings| && siblings[sibling].Other?
          invariant p[|p| - 1] < sibling <= |siblings|
          invariant forall m :: p[|p| - 1] < m < sibling ==> siblings[m].Other?
          decreases |siblings| - sibling
        {
          sibling := sibling + 1;
        }
        if sibling < |siblings| {
          nextSiblingId := Some(Attr(siblings[sibling], "ID"));
        }
      }
    }

    /** getPreviousSiblingId: steps backward from the node past non-element
        siblings and answers with the `ID` of the first element reached. */
    method GetPreviousSiblingId(nodeId: string) returns (prevSiblingId: Option<string>)
      ensures prevSiblingId == PreviousSiblingId(layout, nodeId)
    {
      prevSiblingId := None;
      var element := GetElementById(layout, nodeId);
      if element.Some? {
        var p := element.value;
        SiblingsAt(layout, p);
        var siblings := SiblingsOf(layout, p);
        var sibling: int := p[|p| - 1] as int - 1;
        while sibling >= 0 && siblings[sibling].Other?
          invariant -1 <= sibling < p[|p| - 1]
          invariant forall m :: sibling < m < p[|p| - 1] ==> siblings[m].Other?
          decreases sibling
        {
          sibling := sibling - 1;
        }
        if sibling >= 0 {
          prevSiblingId := Some(Attr(siblings[sibling], "ID"));
        }
      }
    }

    /** getNodeId: scans the `channel` elements in the order
        getElementsByTagName lists them and stops at the first whose `fname`
        attribute equals fname. */
    method GetNodeId(fname: string) returns (nodeId: Option<string>)
      ensures nodeId == NodeIdByFname(layout, fname)
    {
      nodeId := None;
      var nl := GetElementsByTagName(layout, "channel");
      var i := 0;
      while i < |nl|
        invariant 0 <= i <= |nl|
        invariant forall k :: 0 <= k < i ==> !ChannelNamed(layout, fname, nl[k])
      {
        var node := NodeAt(layout.children, nl[i]);
        if node.Element? && Attr(node, "fname") == fname {
          nodeId := Some(Attr(node, "ID"));
          break;
        }
        i := i + 1;
      }
    }

    /** getNodeIds: evaluates `*` against the document node and collects the
        `ID` of each element it selects. */
    method GetNodeIds() returns (ids: seq<string>)
      ensures ids == TopLevelIds(layout)
    {
      ids := [];
      var nl := layout.children;
      var i := 0;
      while i < |nl|
        invariant 0 <= i <= |nl|
        invariant ids == ElementIds(nl[..i])
      {
        if nl[i].Element? {
          ids := ids + [Attr(nl[i], "ID")];
        }
        i := i + 1;
        assert nl[..i][..i - 1] == nl[..i - 1];
      }
      assert nl[..|nl|] == nl;
    }
  }
}
