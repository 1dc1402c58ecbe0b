# Simple user layout: a verified model

uPortal stores a user's page layout as an XML document: a `layout` document
element holding one root `folder`, with nested `folder` elements and `channel`
leaves, and text or comment nodes between them. Every folder and channel is
addressed by its `ID` attribute. `SimpleLayout` wraps such a document. It
answers structural questions by id:
- the parent;
- the child ids;
- the next and previous sibling;
- the root folder;
- the top-level ids;
- the channel with a given functional name (`fname`).

It also has trivial getters and listener stubs that are not implemented.

This project models that class in Dafny:

- `dom.dfy` (module `Dom`): the document as a datatype. It has
  `Element(tag, attrs, children)` and `Other` nodes, and addresses a node by
  its path of child indices. It defines the two DOM lookups the class uses.
  - `GetElementById` finds the first element in pre-order whose `ID`
    attribute matches.
  - `GetElementsByTagName` lists every element with a tag in pre-order.

  The pre-order walk is proved to list exactly the elements, in strict
  document order.
- `layout.dfy` (module `Layout`): each query as a function of the document,
  with the lemmas that relate the queries:
  - parent and child agreement;
  - next and previous sibling symmetry;
  - first match in document order;
  - where the root folder's parent lies;
  - the shallowness of the top-level listing.

  `ValidLayout` is the shape the layout is stored in:
  - one document element;
  - an `ID` on every element below it;
  - no `ID` used twice.
- `simple_layout.dfy` (module `SimpleLayouts`): the class `SimpleLayout`. Its
  fields are fixed at construction. The scanning queries are methods with the
  loops of the Java class, each proved to compute a function of `Layout`:
  - `GetChildIds` computes `ChildIds`;
  - `GetNextSiblingId` computes `NextSiblingId`;
  - `GetPreviousSiblingId` computes `PreviousSiblingId`;
  - `GetNodeId` computes `NodeIdByFname`;
  - `GetNodeIds` computes `TopLevelIds`.

  The Java methods `getParentId`, `getRootId` and `getNodeDescription` have no
  loops. They are the `Layout` functions `ParentId`, `RootId` and
  `GetNodeDescription`, applied to the held document.
- `example.dfy` (module `ExampleLayout`): a small layout that exercises every
  query. The `layout` element has no `ID` and holds folder `root`. The root
  folder holds channel `n1`, a text node and folder `f2`, and `f2` holds
  channel `n2`. Each lemma states the answer a query gives on this layout.

Three behaviours of the Java class are easy to misread:
- **Root folder's parent.** The root folder is not parentless: its parent
  node is the `layout` element. So `getParentId` of the root id reports that
  element's `ID` attribute, or `""` when the attribute is absent. See
  `RootParentIsLayoutElement`.
- **Missing attributes.** `getAttribute` yields `""` for a missing attribute,
  never null. So `getChildIds` lists every element child, including one
  without an `ID`. The Java method's null test never fails.
- **`getNodeIds`.** It evaluates `*` against the document node, so it lists
  only the document element's id.

## Model

| member | source | states |
|---|---|---|
| `Dom.NodeAtChild` | uportal-war/src/main/java/org/jasig/portal/layout/simple/SimpleLayout.java:86 | The node one index below a path is the corresponding child of the element at that path. This is the parent/child relation that `getParentNode` and the child walk use. |
| `Dom.PreOrderElements` | uportal-war/src/main/java/org/jasig/portal/layout/simple/SimpleLayout.java:166 | The document-order walk behind the DOM lookups lists a path exactly when that path addresses an element. |
| `Dom.PreOrderInOrder` | uportal-war/src/main/java/org/jasig/portal/layout/simple/SimpleLayout.java:166 | The walk lists elements in strict document order: ancestors before descendants, earlier branches first, none twice. |
| `Dom.FirstWhere` | uportal-war/src/main/java/org/jasig/portal/layout/simple/SimpleLayout.java:167-176 | First-match scan: the index found satisfies the test and no earlier entry does. No index means no entry satisfies it. |
| `Dom.FirstWhereEarliest` | uportal-war/src/main/java/org/jasig/portal/layout/simple/SimpleLayout.java:167-176 | Over a list in document order, the first match exists whenever any entry matches, and it precedes every other match. |
| `Dom.GetElementById` | uportal-war/src/main/java/org/jasig/portal/layout/simple/SimpleLayout.java:84 | The path found is an element whose `ID` attribute equals the id asked for. |
| `Dom.GetElementByIdFirst` | uportal-war/src/main/java/org/jasig/portal/layout/simple/SimpleLayout.java:84 | `getElementById` finds an element whenever one carries the id. The one it finds comes first in document order. |
| `Dom.GetElementByIdUnique` | uportal-war/src/main/java/org/jasig/portal/layout/simple/SimpleLayout.java:84 | With unique ids, `getElementById` finds exactly the element that carries the id. |
| `Dom.ElementsByTagName` | uportal-war/src/main/java/org/jasig/portal/layout/simple/SimpleLayout.java:166 | `getElementsByTagName` lists exactly the elements with the tag, in strict document order. |
| `Dom.DocumentElement` | uportal-war/src/main/java/org/jasig/portal/layout/simple/SimpleLayout.java:70 | The document element is the first element child of the document node. Absent only when the document node has no element child. |
| `Layout.GetNodeDescription` | uportal-war/src/main/java/org/jasig/portal/layout/simple/SimpleLayout.java:77-80 | A description exists exactly when an element has the id. It carries that id. Its kind is Folder exactly when the element is a `folder`. |
| `Layout.ParentIdOneLevelUp` | uportal-war/src/main/java/org/jasig/portal/layout/simple/SimpleLayout.java:82-93 | `getParentId` is absent exactly for an unknown id or a top-level element. Otherwise it is the `ID` of the element whose child list holds the node, one level up and no further. |
| `Layout.ElementIdsAppend` | uportal-war/src/main/java/org/jasig/portal/layout/simple/SimpleLayout.java:100-107 | Collecting child ids keeps the children's order: the collection distributes over concatenation. |
| `Layout.ElementIdsMembers` | uportal-war/src/main/java/org/jasig/portal/layout/simple/SimpleLayout.java:100-107 | An id is collected exactly when some element child carries it. Non-element children are skipped. |
| `Layout.ChildIdsHaveParent` | uportal-war/src/main/java/org/jasig/portal/layout/simple/SimpleLayout.java:95-110 | In a well-formed layout, `getParentId` of every id listed by `getChildIds` is the folder's id. |
| `Layout.ParentedIdsAreChildIds` | uportal-war/src/main/java/org/jasig/portal/layout/simple/SimpleLayout.java:95-110 | In a well-formed layout, `getChildIds` of a folder lists every id whose `getParentId` is that folder's id. |
| `Layout.ChildParentAgreement` | uportal-war/src/main/java/org/jasig/portal/layout/simple/SimpleLayout.java:82-110 | Take a folder with a non-empty id in a well-formed layout. An id is listed by `getChildIds` of the folder exactly when `getParentId` of that id is the folder's id. |
| `Layout.SiblingsAt` | uportal-war/src/main/java/org/jasig/portal/layout/simple/SimpleLayout.java:116 | A node sits at its last path index in its parent's child list. Every entry of that list is addressed through the same parent path. |
| `Layout.NextElementIndex` | uportal-war/src/main/java/org/jasig/portal/layout/simple/SimpleLayout.java:116-120 | The forward sibling scan stops at the nearest element. Every node it passes is a non-element. |
| `Layout.PrevElementIndex` | uportal-war/src/main/java/org/jasig/portal/layout/simple/SimpleLayout.java:133-137 | The backward sibling scan stops at the nearest element. Every node it passes is a non-element. |
| `Layout.NeighbourElements` | uportal-war/src/main/java/org/jasig/portal/layout/simple/SimpleLayout.java:112-144 | Take two elements with only non-elements between them. The later one's id is the next-sibling answer for the earlier, and the earlier one's id is the previous-sibling answer for the later. |
| `Layout.SiblingById` | uportal-war/src/main/java/org/jasig/portal/layout/simple/SimpleLayout.java:112-144 | In a well-formed layout, an element sibling is found by its own id and has the same sibling list. A top-level element has no element sibling. |
| `Layout.NextThenPrevious` | uportal-war/src/main/java/org/jasig/portal/layout/simple/SimpleLayout.java:112-127 | In a well-formed layout, `getNextSiblingId(a) = b` implies `getPreviousSiblingId(b) = a`. |
| `Layout.PreviousThenNext` | uportal-war/src/main/java/org/jasig/portal/layout/simple/SimpleLayout.java:129-144 | In a well-formed layout, `getPreviousSiblingId(b) = a` implies `getNextSiblingId(a) = b`. |
| `Layout.SiblingSymmetry` | uportal-war/src/main/java/org/jasig/portal/layout/simple/SimpleLayout.java:112-144 | In a well-formed layout, `getNextSiblingId(a) = b` exactly when `getPreviousSiblingId(b) = a`. |
| `Layout.NodeIdFirstInDocumentOrder` | uportal-war/src/main/java/org/jasig/portal/layout/simple/SimpleLayout.java:164-178 | `getNodeId(f)` is the `ID` of a `channel` whose `fname` is f, and that channel precedes in document order every other such channel. It is absent only when no channel has that `fname`. |
| `Layout.RootIdFirstLayoutFolder` | uportal-war/src/main/java/org/jasig/portal/layout/simple/SimpleLayout.java:213-228 | `getRootId` is the `ID` of the first `folder` child of a top-level `layout` element. It is absent, never a failure, exactly when no such folder exists. |
| `Layout.RootParentIsLayoutElement` | uportal-war/src/main/java/org/jasig/portal/layout/simple/SimpleLayout.java:86-89 | In a well-formed layout with a root folder, `getParentId` of the root id reports the `layout` document element's `ID` attribute, not absence. |
| `Layout.ElementIdsOfOthers` | uportal-war/src/main/java/org/jasig/portal/layout/simple/SimpleLayout.java:200-206 | A node list with no elements contributes no ids. |
| `Layout.TopLevelIdsShallow` | uportal-war/src/main/java/org/jasig/portal/layout/simple/SimpleLayout.java:192-211 | When the document node has at most one element child, `getNodeIds` lists at most one id: that element's id, or nothing when there is no element. It never lists the folders and channels below. No id uniqueness is needed. |
| `Layout.ExportedDocumentElement` | uportal-war/src/main/java/org/jasig/portal/layout/simple/SimpleLayout.java:69-71 | `writeTo(document)` exports an element child of the document node. It exports nothing only when there is no element child. |
| `Layout.ExportedSubtree` | uportal-war/src/main/java/org/jasig/portal/layout/simple/SimpleLayout.java:73-75 | `writeTo(nodeId, document)` exports an element of the document, with its subtree, that carries the id. It exports nothing exactly when the id is unknown. |
| `Layout.ExportedSubtreeOfId` | uportal-war/src/main/java/org/jasig/portal/layout/simple/SimpleLayout.java:73-75 | With unique ids, `writeTo(nodeId, document)` exports exactly the subtree rooted at the element carrying the id. |
| `SimpleLayouts.SimpleLayout.constructor` | uportal-war/src/main/java/org/jasig/portal/layout/simple/SimpleLayout.java:64-67 | The layout keeps the layout id and the document it was given. |
| `SimpleLayouts.SimpleLayout.GetId` | uportal-war/src/main/java/org/jasig/portal/layout/simple/SimpleLayout.java:160-162 | `getId` is the layout id given at construction. |
| `SimpleLayouts.SimpleLayout.GetCacheKey` | uportal-war/src/main/java/org/jasig/portal/layout/simple/SimpleLayout.java:146-148 | `getCacheKey` is always absent, because nothing assigns the cache key. |
| `SimpleLayouts.SimpleLayout.AddLayoutEventListener` | uportal-war/src/main/java/org/jasig/portal/layout/simple/SimpleLayout.java:150-153 | Adding a listener always reports failure. |
| `SimpleLayouts.SimpleLayout.RemoveLayoutEventListener` | uportal-war/src/main/java/org/jasig/portal/layout/simple/SimpleLayout.java:155-158 | Removing a listener always reports failure. |
| `SimpleLayouts.SimpleLayout.GetChildIds` | uportal-war/src/main/java/org/jasig/portal/layout/simple/SimpleLayout.java:95-110 | The child-list loop computes `Layout.ChildIds`: the element children's ids in order for a folder, nothing otherwise. |
| `SimpleLayouts.SimpleLayout.GetNextSiblingId` | uportal-war/src/main/java/org/jasig/portal/layout/simple/SimpleLayout.java:112-127 | The forward loop over siblings computes `Layout.NextSiblingId`. |
| `SimpleLayouts.SimpleLayout.GetPreviousSiblingId` | uportal-war/src/main/java/org/jasig/portal/layout/simple/SimpleLayout.java:129-144 | The backward loop over siblings computes `Layout.PreviousSiblingId`. |
| `SimpleLayouts.SimpleLayout.GetNodeId` | uportal-war/src/main/java/org/jasig/portal/layout/simple/SimpleLayout.java:164-178 | The scan over the channels, with its early exit, computes `Layout.NodeIdByFname`, the first channel with the `fname`. |
| `SimpleLayouts.SimpleLayout.GetNodeIds` | uportal-war/src/main/java/org/jasig/portal/layout/simple/SimpleLayout.java:192-211 | The loop over the nodes `*` selects computes `Layout.TopLevelIds`. |
| `ExampleLayout.ExamplePreOrder` | uportal-war/src/main/java/org/jasig/portal/layout/simple/SimpleLayout.java:166 | On the example, the document-order walk lists the layout element, `root`, `n1`, `f2` and `n2`, in that order. The text node is not listed. |
| `ExampleLayout.ExampleLookup` | uportal-war/src/main/java/org/jasig/portal/layout/simple/SimpleLayout.java:84 | On the example, `getElementById` finds each of the four ids at its element and finds nothing for any other string. |
| `ExampleLayout.ExampleIds` | uportal-war/src/main/java/org/jasig/portal/layout/simple/SimpleLayout.java:84 | On the example, only the four named elements carry an `ID`, each at its own path. |
| `ExampleLayout.ExampleIsValid` | uportal-war/src/main/java/org/jasig/portal/layout/simple/SimpleLayout.java:84-144 | The example is a well-formed layout: one document element, an `ID` on every element below it, and no `ID` used twice. The agreement and symmetry lemmas therefore apply to it. |
| `ExampleLayout.ExampleNodeDescription` | uportal-war/src/main/java/org/jasig/portal/layout/simple/SimpleLayout.java:77-80 | On the example, `getNodeDescription(n1)` describes a leaf with id `n1` and the channel's attributes. `getNodeDescription(f2)` describes a folder. |
| `ExampleLayout.ExampleRootId` | uportal-war/src/main/java/org/jasig/portal/layout/simple/SimpleLayout.java:213-228 | On the example, `getRootId` is `root`. |
| `ExampleLayout.ExampleChildIds` | uportal-war/src/main/java/org/jasig/portal/layout/simple/SimpleLayout.java:95-110 | On the example, `getChildIds(root)` is `n1`, `f2`, skipping the text node. `getChildIds` of the channel `n1` is empty. |
| `ExampleLayout.ExampleNodeId` | uportal-war/src/main/java/org/jasig/portal/layout/simple/SimpleLayout.java:164-178 | On the example, `getNodeId(news)` is `n2`. |
| `ExampleLayout.ExampleParent` | uportal-war/src/main/java/org/jasig/portal/layout/simple/SimpleLayout.java:82-93 | On the example, `getParentId(n2)` is `f2`. `getParentId(root)` is `""`, the missing `ID` of the `layout` element, not absence. |
| `ExampleLayout.ExampleNextSibling` | uportal-war/src/main/java/org/jasig/portal/layout/simple/SimpleLayout.java:112-127 | On the example, `getNextSiblingId(n1)` is `f2`: the step skips the text node. |
| `ExampleLayout.ExamplePreviousSibling` | uportal-war/src/main/java/org/jasig/portal/layout/simple/SimpleLayout.java:129-144 | On the example, `getPreviousSiblingId(f2)` is `n1`: the step skips the text node. |

## Left out

- `writeTo(document)` and `writeTo(nodeId, document)` copy nodes into another DOM document with `importNode` and `appendChild`. That is library behaviour. Only the node chosen for export is modelled (`ExportedDocumentElement`, `ExportedSubtree`). An absent result stands for the null that makes the import fail.
- `findNodeId` evaluates an arbitrary XPath expression supplied by the caller. That would need a whole XPath engine, so it is not modelled.
- `getNodeIds` and `getRootId` obtain an XPath evaluator, log errors and catch exceptions. Only their outcome is modelled:
  - `/layout/folder` that selects nothing gives an absent root id.
  - The evaluation of `*` cannot fail in the model.
- `UserLayoutNodeDescription.createUserLayoutNodeDescription` is not part of this model. `Describe` classifies an element as a folder exactly when its tag is `folder`. An unknown id is taken to have no description, so `getChildIds` of an unknown id is empty.
- Document.getElementById matches attributes declared of type ID. The model matches the attribute named `ID`.
- Java nulls for the `nodeId` and `fname` arguments are not modelled: arguments are strings. The `NullPointerException` that a null `fname` would raise in `getNodeId` is therefore absent.
- ChildParentAgreement, ParentedIdsAreChildIds: the converse direction requires a non-empty folder id. `getParentId` also reports `""` for a parent element without an `ID`, and such a parent cannot be looked up by `""`.
- SiblingSymmetry, ChildIdsHaveParent, NextThenPrevious, PreviousThenNext: stated for well-formed layouts only (unique ids, an `ID` on every element below the document element). With duplicate ids, `getElementById` picks the first match, and the properties fail.
- ExportedSubtreeOfId: stated for unique ids only. With duplicate ids, `writeTo(nodeId, document)` exports the first element carrying the id in document order (`GetElementByIdFirst`).
- Logging, concurrency and the message-source helper bean (`XalanMessageHelperBean`, a one-line delegation to a message service) are not modelled.
