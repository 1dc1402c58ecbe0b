/** The document a user layout is stored in, and the two DOM lookups the
    layout relies on: getElementById and getElementsByTagName.

    A node is addressed by its path: the child indices from the document node
    down to it. Both lookups are defined over the pre-order walk of the tree,
    which is proved to list every element exactly once, in document order. */
module Dom {

  datatype Option<+T> = None | Some(value: T)

  /** A node of the layout document. Text, comments and every other
      non-element node carry nothing the layout reads, so they are all `Other`. */
  datatype Node = Element(tag: string, attrs: map<string, string>, children: seq<Node>) | Other

  /** The document node. Its children are the document element and any
      top-level non-element nodes (comments, processing instructions). */
  datatype Document = Document(children: seq<Node>)

  /** Child indices from the document node down to a node. */
  type Path = seq<nat>

  /** Element.getAttribute: the value, or the empty string when the
      attribute is absent. */
  function Attr(n: Node, name: string): string
  {
    if n.Element? && name in n.attrs then n.attrs[name] else ""
  }

  predicate HasIdAttr(n: Node)
  {
    n.Element? && "ID" in n.attrs
  }

  /** n is an element whose `ID` attribute is present and equals x. */
  predicate HasId(n: Node, x: string)
  {
    HasIdAttr(n) && n.attrs["ID"] == x
  }

  predicate IsTag(n: Node, tag: string)
  {
    n.Element? && n.tag == tag
  }

  /** The node at path p below the forest f; `Other` when p addresses
      nothing (the empty path, an index out of range, or a step below a
      non-element). So p addresses an element exactly when the result is one. */
  function NodeAt(f: seq<Node>, p: Path): Node
    decreases |p|, 0
  {
    if |p| == 0 || p[0] >= |f| then Other else NodeIn(f[p[0]], p[1..])
  }

  /** The node at relative path r below n (n itself for the empty path). */
  function NodeIn(n: Node, r: Path): Node
    decreases |r|, 1
  {
    if |r| == 0 then n
    else match n
      case Other => Other
      case Element(_, _, ch) => NodeAt(ch, r)
  }

  /** Extending a path by one index steps to that child of the node the
      path addresses: the DOM parent/child relation on paths. */
  lemma {:induction false} NodeAtChild(f: seq<Node>, p: Path, j: nat)
    requires |p| > 0
    ensures NodeAt(f, p + [j]) ==
      match NodeAt(f, p)
      case Element(_, _, ch) => if j < |ch| then ch[j] else Other
      case Other => Other
    decreases |p|
  {
    var q := p + [j];
    assert q[0] == p[0];
    if p[0] < |f| {
      assert q[1..] == p[1..] + [j];
      if |p| == 1 {
        assert p[1..] == [] && q[1..] == [j] && [j][1..] == [];
        assert NodeAt(f, q) == NodeIn(f[p[0]], [j]);
        assert NodeAt(f, p) == f[p[0]];
        match f[p[0]]
        case Other =>
        case Element(_, _, ch) =>
          assert NodeIn(f[p[0]], [j]) == NodeAt(ch, [j]);
          if j < |ch| {
            assert NodeAt(ch, [j]) == NodeIn(ch[j], []);
          }
      } else if f[p[0]].Element? {
        NodeAtChild(f[p[0]].children, p[1..], j);
      }
    }
  }

  // ---------------------------------------------------------------------
  // The pre-order walk

  /** Paths of the elements of the subtree rooted at n, which sits at path
      `here`, in pre-order. */
  function Subtree(n: Node, here: Path): seq<Path>
    decreases n, 1
  {
    match n
    case Other => []
    case Element(_, _, ch) => [here] + ElementsFrom(ch, here, 0)
  }

  /** Paths of the elements below f[i..], where f is the child list of the
      node at `base`, in pre-order. */
  function ElementsFrom(f: seq<Node>, base: Path, i: nat): seq<Path>
    requires i <= |f|
    decreases f, 0, |f| - i
  {
    if i == |f| then [] else Subtree(f[i], base + [i]) + ElementsFrom(f, base, i + 1)
  }

  /** Every element of the document, in document order. */
  function PreOrder(d: Document): seq<Path>
  {
    ElementsFrom(d.children, [], 0)
  }

  lemma {:induction false} SubtreeSound(n: Node, here: Path, q: Path)
    requires q in Subtree(n, here)
    ensures |here| <= |q| && q[..|here|] == here && NodeIn(n, q[|here|..]).Element?
    decreases n, 1
  {
    if q != here {
      ElementsFromSound(n.children, here, 0, q);
    }
  }

  lemma {:induction false} ElementsFromSound(f: seq<Node>, base: Path, i: nat, q: Path)
    requires i <= |f| && q in ElementsFrom(f, base, i)
    ensures |base| < |q| && q[..|base|] == base && i <= q[|base|]
    ensures NodeAt(f, q[|base|..]).Element?
    decreases f, 0, |f| - i
  {
    if q in Subtree(f[i], base + [i]) {
      SubtreeSound(f[i], base + [i], q);
      assert q[..|base|] == q[..|base| + 1][..|base|];
      assert q[|base|..][1..] == q[|base| + 1..];
    } else {
      ElementsFromSound(f, base, i + 1, q);
    }
  }

  lemma {:induction false} SubtreeComplete(n: Node, here: Path, r: Path)
    requires NodeIn(n, r).Element?
    ensures here + r in Subtree(n, here)
    decreases |r|, 1
  {
    if r == [] {
      assert here + r == here;
    } else {
      ElementsFromComplete(n.children, here, 0, r);
    }
  }

  lemma {:induction false} ElementsFromComplete(f: seq<Node>, base: Path, i: nat, r: Path)
    requires i <= |f| && |r| > 0 && i <= r[0] && NodeAt(f, r).Element?
    ensures base + r in ElementsFrom(f, base, i)
    decreases |r|, 0, |f| - i
  {
    if r[0] == i {
      SubtreeComplete(f[i], base + [i], r[1..]);
      assert (base + [i]) + r[1..] == base + r;
    } else {
      ElementsFromComplete(f, base, i + 1, r);
    }
  }

  /** The pre-order walk lists exactly the paths that address elements. */
  lemma PreOrderElements(d: Document, q: Path)
    ensures q in PreOrder(d) <==> NodeAt(d.children, q).Element?
  {
    if q in PreOrder(d) {
      ElementsFromSound(d.children, [], 0, q);
      assert q[0..] == q;
    }
    if NodeAt(d.children, q).Element? {
      ElementsFromComplete(d.children, [], 0, q);
      assert [] + q == q;
    }
  }

  // ---------------------------------------------------------------------
  // Document order

  /** p comes strictly before q in document order: p is a proper ancestor of
      q, or p lies in an earlier branch at the first index where they differ. */
  predicate DocBefore(p: Path, q: Path)
    decreases |p|
  {
    |q| > 0 && (|p| == 0 || p[0] < q[0] || (p[0] == q[0] && DocBefore(p[1..], q[1..])))
  }

  predicate InDocumentOrder(ps: seq<Path>)
  {
    forall a, b :: 0 <= a < b < |ps| ==> DocBefore(ps[a], ps[b])
  }

  /** Document order is unchanged by a common ancestor path. */
  lemma {:induction false} CommonPrefixBefore(base: Path, p: Path, q: Path)
    requires |base| <= |p| && |base| <= |q| && p[..|base|] == base && q[..|base|] == base
    requires DocBefore(p[|base|..], q[|base|..])
    ensures DocBefore(p, q)
    decreases |base|
  {
    if |base| > 0 {
      assert p[1..][..|base| - 1] == base[1..] && q[1..][..|base| - 1] == base[1..];
      assert p[1..][|base| - 1..] == p[|base|..] && q[1..][|base| - 1..] == q[|base|..];
      CommonPrefixBefore(base[1..], p[1..], q[1..]);
      assert p[0] == base[0] == q[0];
    } else {
      assert p[0..] == p && q[0..] == q;
    }
  }

  lemma ConcatInOrder(s: seq<Path>, t: seq<Path>)
    requires InDocumentOrder(s) && InDocumentOrder(t)
    requires forall x, y :: x in s && y in t ==> DocBefore(x, y)
    ensures InDocumentOrder(s + t)
  {
  }

  lemma {:induction false} SubtreeInOrder(n: Node, here: Path)
    ensures InDocumentOrder(Subtree(n, here))
    decreases n, 1
  {
    if n.Element? {
      var below := ElementsFrom(n.children, here, 0);
      ElementsFromInOrder(n.children, here, 0);
      forall y | y in below ensures DocBefore(here, y) {
        ElementsFromSound(n.children, here, 0, y);
        assert here[..|here|] == here && here[|here|..] == [];
        CommonPrefixBefore(here, here, y);
      }
      ConcatInOrder([here], below);
    }
  }

  lemma {:induction false} ElementsFromInOrder(f: seq<Node>, base: Path, i: nat)
    requires i <= |f|
    ensures InDocumentOrder(ElementsFrom(f, base, i))
    decreases f, 0, |f| - i
  {
    if i < |f| {
      var s := Subtree(f[i], base + [i]);
      var t := ElementsFrom(f, base, i + 1);
      SubtreeInOrder(f[i], base + [i]);
      ElementsFromInOrder(f, base, i + 1);
      forall x, y | x in s && y in t ensures DocBefore(x, y) {
        SubtreeSound(f[i], base + [i], x);
        ElementsFromSound(f, base, i + 1, y);
        assert x[..|base|] == x[..|base| + 1][..|base|];
        CommonPrefixBefore(base, x, y);
      }
      ConcatInOrder(s, t);
    }
  }

  /** The pre-order walk lists the elements in strict document order (so
      none twice). */
  lemma PreOrderInOrder(d: Document)
    ensures InDocumentOrder(PreOrder(d))
  {
    ElementsFromInOrder(d.children, [], 0);
  }

  // ---------------------------------------------------------------------
  // First match

  /** Index of the first path in ps that satisfies ok. */
  function FirstWhere(ps: seq<Path>, ok: Path -> bool): (r: Option<nat>)
    ensures r.Some? ==> r.value < |ps| && ok(ps[r.value])
    ensures r.Some? ==> forall k :: 0 <= k < r.value ==> !ok(ps[k])
    ensures r.None? ==> forall k :: 0 <= k < |ps| ==> !ok(ps[k])
  {
    if ps == [] then None
    else if ok(ps[0]) then Some(0)
    else match FirstWhere(ps[1..], ok)
      case None => None
      case Some(k) => Some(k + 1)
  }

  /** In a list in document order, the first match precedes every other match. */
  lemma FirstWhereEarliest(ps: seq<Path>, ok: Path -> bool, q: Path)
    requires InDocumentOrder(ps) && q in ps && ok(q)
    ensures FirstWhere(ps, ok).Some?
    ensures q != ps[FirstWhere(ps, ok).value] ==> DocBefore(ps[FirstWhere(ps, ok).value], q)
  {
  }

  // ---------------------------------------------------------------------
  // getElementById and getElementsByTagName

  /** The `ID` attribute of the element at p, when it has one. */
  function IdAt(d: Document, p: Path): Option<string>
  {
    var n := NodeAt(d.children, p);
    if HasIdAttr(n) then Some(n.attrs["ID"]) else None
  }

  /** No two elements carry the same `ID` value. */
  ghost predicate UniqueIds(d: Document)
  {
    forall p, q :: IdAt(d, p).Some? && IdAt(d, p) == IdAt(d, q) ==> p == q
  }

  /** Document.getElementById: the path of the first element, in document
      order, whose `ID` attribute is x; None when there is none. */
  function GetElementById(d: Document, x: string): (r: Option<Path>)
    ensures r.Some? ==> r.value in PreOrder(d) && HasId(NodeAt(d.children, r.value), x)
  {
    var ps := PreOrder(d);
    match FirstWhere(ps, p => HasId(NodeAt(d.children, p), x))
    case None => None
    case Some(k) => Some(ps[k])
  }

  /** getElementById finds an element carrying the id whenever there is one,
      and the one it finds comes first in document order. */
  lemma GetElementByIdFirst(d: Document, x: string, q: Path)
    requires HasId(NodeAt(d.children, q), x)
    ensures GetElementById(d, x).Some?
    ensures q != GetElementById(d, x).value ==> DocBefore(GetElementById(d, x).value, q)
  {
    PreOrderElements(d, q);
    PreOrderInOrder(d);
    FirstWhereEarliest(PreOrder(d), p => HasId(NodeAt(d.children, p), x), q);
  }

  /** With unique ids, getElementById finds exactly the element carrying the id. */
  lemma GetElementByIdUnique(d: Document, x: string, q: Path)
    requires UniqueIds(d) && HasId(NodeAt(d.children, q), x)
    ensures GetElementById(d, x) == Some(q)
  {
    GetElementByIdFirst(d, x, q);
    assert IdAt(d, GetElementById(d, x).value) == IdAt(d, q);
  }

  /** The paths in ps whose node below f is an element with the given tag. */
  function TagFilter(f: seq<Node>, ps: seq<Path>, tag: string): seq<Path>
  {
    if ps == [] then []
    else (if IsTag(NodeAt(f, ps[0]), tag) then [ps[0]] else []) + TagFilter(f, ps[1..], tag)
  }

  lemma {:induction false} TagFilterMembers(f: seq<Node>, ps: seq<Path>, tag: string, q: Path)
    ensures q in TagFilter(f, ps, tag) <==> q in ps && IsTag(NodeAt(f, q), tag)
  {
    if ps != [] {
      TagFilterMembers(f, ps[1..], tag, q);
      assert ps == [ps[0]] + ps[1..];
    }
  }

  lemma {:induction false} TagFilterInOrder(f: seq<Node>, ps: seq<Path>, tag: string)
    requires InDocumentOrder(ps)
    ensures InDocumentOrder(TagFilter(f, ps, tag))
  {
    if ps != [] {
      var rest := TagFilter(f, ps[1..], tag);
      TagFilterInOrder(f, ps[1..], tag);
      if IsTag(NodeAt(f, ps[0]), tag) {
        forall x, y | x in [ps[0]] && y in rest ensures DocBefore(x, y) {
          TagFilterMembers(f, ps[1..], tag, y);
          var b :| 0 <= b < |ps[1..]| && ps[1..][b] == y;
          assert ps[b + 1] == y;
        }
        ConcatInOrder([ps[0]], rest);
      }
    }
  }

  /** Document.getElementsByTagName: every element with the tag, in document order. */
  function GetElementsByTagName(d: Document, tag: string): seq<Path>
  {
    TagFilter(d.children, PreOrder(d), tag)
  }

  /** getElementsByTagName lists exactly the elements with the tag, in
      strict document order. */
  lemma ElementsByTagName(d: Document, tag: string, q: Path)
    ensures q in GetElementsByTagName(d, tag) <==> IsTag(NodeAt(d.children, q), tag)
    ensures InDocumentOrder(GetElementsByTagName(d, tag))
  {
    TagFilterMembers(d.children, PreOrder(d), tag, q);
    PreOrderElements(d, q);
    PreOrderInOrder(d);
    TagFilterInOrder(d.children, PreOrder(d), tag);
  }

  /** Document.getDocumentElement: the first element among the document's
      children. */
  function DocumentElement(d: Document): (r: Option<nat>)
    ensures r.Some? ==> r.value < |d.children| && d.children[r.value].Element?
    ensures r.Some? ==> forall i :: 0 <= i < r.value ==> d.children[i].Other?
    ensures r.None? ==> forall i :: 0 <= i < |d.children| ==> d.children[i].Other?
    decreases |d.children|
  {
    if d.children == [] then None
    else if d.children[0].Element? then Some(0)
    else match DocumentElement(Document(d.children[1..]))
      case None => None
      case Some(i) => Some(i + 1)
  }
}
