/**
 Reading a document, writing the nodes and edges that were read, and reading the result gives the same nodes and
 edges again.
 */
module DiagramRoundTrip {
  import opened Options
  import opened Diagram
  import opened DiagramParser
  import opened DiagramGenerator
  import opened DiagramBoxes
  import opened DiagramFiling

  // ---- Documents that are read alike ----

  /** Two lists that the parser cannot tell apart, shapes aside. */
  ghost predicate SimilarLists(a: seq<Element>, b: seq<Element>)
    decreases Depth(b), 0, |b|
  {
    |a| == |b| && (b != [] ==> Similar(a[0], b[0]) && SimilarLists(a[1..], b[1..]))
  }

  ghost predicate Similar(a: Element, b: Element)
    decreases Depth(b.kids), 1, 0
  {
    ReadIsNoDeeper(b.kids);
    && a.id == b.id && a.tag == b.tag
    && (HasContent(b.tag) ==> SimilarLists(Read(a.kids), Read(b.kids)) && EdgesOf(a.flows) == EdgesOf(b.flows))
  }

  lemma {:induction false} SimilarListsHaveSameTags(a: seq<Element>, b: seq<Element>)
    requires SimilarLists(a, b)
    ensures SameTags(a, b)
  {
    if b == [] {
    } else {
      SimilarListsHaveSameTags(a[1..], b[1..]);
    }
  }

  /** A node as the comparison sees it: without copies, and with the size that is written. */
  function Seen(n: Node): Node {
    n.(width := Width(n), height := Height(n), copies := [], flowCopies := [])
  }

  function Bare(n: Node): Node {
    n.(copies := [], flowCopies := [])
  }

  function SeenAll(nodes: seq<Node>): (seen: seq<Node>)
    ensures |seen| == |nodes| && forall i :: 0 <= i < |nodes| ==> seen[i] == Seen(nodes[i])
  {
    seq(|nodes|, i requires 0 <= i < |nodes| => Seen(nodes[i]))
  }

  function BareAll(nodes: seq<Node>): (bare: seq<Node>)
    ensures |bare| == |nodes| && forall i :: 0 <= i < |nodes| ==> bare[i] == Bare(nodes[i])
  {
    seq(|nodes|, i requires 0 <= i < |nodes| => Bare(nodes[i]))
  }

  /** The written shape of a node is where its original shape was. */
  ghost predicate ShapeKept(written: seq<Shape>, shapes: seq<Shape>, n: Node) {
    ShapeBounds(written, n.id) == Some(Bounds(Corner(shapes, n.id).x, Corner(shapes, n.id).y, Width(n), Height(n)))
  }

  lemma SimilarElementsGiveSimilarNodes(written: seq<Shape>, shapes: seq<Shape>, a: Element, b: Element, parent: string)
    requires a.id == b.id && a.tag == b.tag && ShapeKept(written, shapes, NodeOf(shapes, b, parent))
    requires parent == "" || Corner(written, parent) == Corner(shapes, parent)
    ensures Bare(NodeOf(written, a, parent)) == Seen(NodeOf(shapes, b, parent))
    ensures Corner(written, a.id) == Corner(shapes, b.id)
  {
    CornerIgnoresTag(shapes, b.id, b.tag);
  }

  lemma BareSeenParts(a: seq<Node>, b: seq<Node>, c: seq<Node>, x: seq<Node>, y: seq<Node>, z: seq<Node>)
    requires BareAll(a) == SeenAll(x) && BareAll(b) == SeenAll(y) && BareAll(c) == SeenAll(z)
    ensures BareAll(a + b + c) == SeenAll(x + y + z)
  {
    assert BareAll(a + b + c) == BareAll(a) + BareAll(b) + BareAll(c);
    assert SeenAll(x + y + z) == SeenAll(x) + SeenAll(y) + SeenAll(z);
  }

  lemma {:induction false} SimilarListsAreReadAlike(written: seq<Shape>, shapes: seq<Shape>,
                                                    a: seq<Element>, b: seq<Element>, parent: string)
    requires SimilarLists(a, b) && (parent == "" || Corner(written, parent) == Corner(shapes, parent))
    requires forall n :: n in NodesOf(shapes, b, parent) ==> ShapeKept(written, shapes, n)
    ensures BareAll(NodesOf(written, a, parent)) == SeenAll(NodesOf(shapes, b, parent))
    ensures EdgesBelow(a) == EdgesBelow(b)
    decreases Depth(b), 0, |b|
  {
    if b == [] {
    } else {
      var head, nested, rest := [NodeOf(shapes, b[0], parent)], Nested(shapes, b[0]), NodesOf(shapes, b[1..], parent);
      assert NodesOf(shapes, b, parent) == head + nested + rest;
      assert head[0] in head + nested + rest;
      SimilarElementsGiveSimilarNodes(written, shapes, a[0], b[0], parent);
      SimilarListsAreReadAlike(written, shapes, a[1..], b[1..], parent);
      NestedIs(written, a[0]);
      NestedIs(shapes, b[0]);
      if HasContent(b[0].tag) {
        SimilarListsAreReadAlike(written, shapes, Read(a[0].kids), Read(b[0].kids), b[0].id);
      }
      BareSeenParts([NodeOf(written, a[0], parent)], Nested(written, a[0]), NodesOf(written, a[1..], parent),
                    head, nested, rest);
    }
  }

  // ---- The written tree is similar to the one that was read ----

  /** How deep the elements that are read are nested. */
  function ReadDepth(list: seq<Element>): nat
    decreases Depth(list), 0, |list|
  {
    if list == [] then 0
    else
      ReadIsNoDeeper(list[0].kids);
      Max(1 + if HasContent(list[0].tag) then ReadDepth(Read(list[0].kids)) else 0, ReadDepth(list[1..]))
  }

  lemma {:induction false} ReadDepthIsSmall(shapes: seq<Shape>, list: seq<Element>, parent: string)
    ensures ReadDepth(list) <= |NodesOf(shapes, list, parent)|
    decreases Depth(list), 0, |list|
  {
    if list == [] {
    } else {
      ReadDepthIsSmall(shapes, list[1..], parent);
      NestedIs(shapes, list[0]);
      if HasContent(list[0].tag) {
        ReadDepthIsSmall(shapes, Read(list[0].kids), list[0].id);
      }
    }
  }

  /** What was read from the document, and the containers it is filed in. */
  datatype Filing = Filing(shapes: seq<Shape>, processId: string, nodes: seq<Node>, edges: seq<Edge>,
                           containers: map<string, Content>) {
    ghost predicate Valid() {
      && containers.Keys == ContainerKeys(nodes, processId)
      && (forall c :: c in containers ==>
            containers[c] == Content(InSlot(nodes, processId, c), FlowsAt(nodes, processId, edges, c)))
      && (forall n :: n in nodes ==> OutTag(n) == n.tag)
    }

    /** The containers of these elements hold what was read from them, and nothing else. */
    ghost predicate Owns(list: seq<Element>, parent: string) {
      && AllRead(nodes, processId, NodesOf(shapes, list, parent))
      && Tidy(shapes, list, parent, processId) && FlowsStayBelow(list)
      && forall q :: q in IdSet(NodesOf(shapes, list, parent)) ==> OwnsAt(list, parent, q)
    }

    ghost predicate OwnsAt(list: seq<Element>, parent: string, q: string) {
      && InSlot(nodes, processId, q) == InSlot(NodesOf(shapes, list, parent), processId, q)
      && FlowsAt(nodes, processId, edges, q) == FlowsAt(nodes, processId, EdgesBelow(list), q)
    }
  }

  /** What the containers below one element of an owned list hold. */
  lemma OwnsBelow(f: Filing, list: seq<Element>, parent: string, i: nat, q: string)
    requires f.Valid() && f.Owns(list, parent) && i < |list| && HasContent(list[i].tag)
    requires q == list[i].id || q in IdSet(Nested(f.shapes, list[i]))
    ensures InSlot(f.nodes, f.processId, q) == InSlot(Nested(f.shapes, list[i]), f.processId, q)
    ensures FlowsAt(f.nodes, f.processId, f.edges, q) ==
      FlowsAt(f.nodes, f.processId, EdgesBelow(Read(list[i].kids)), q)
      + if q == list[i].id then EdgesOf(list[i].flows) else []
    ensures FlowsStay(list[i].kids, list[i].flows)
  {
    var e := list[i];
    NestedSlotIsWhole(f.shapes, list, parent, f.processId, i, q);
    assert f.OwnsAt(list, parent, q);
    NestedFlowsAreWhole(f.shapes, f.nodes, f.processId, list, parent, i, q);
    NestedIs(f.shapes, e);
    NestedIsTidy(f.shapes, list, parent, f.processId, i);
    FlowsOfContainer(f.nodes, f.processId, e.kids, e.flows, q);
    OwnFlowsStay(f.shapes, f.nodes, f.processId, Read(e.kids), e.id, e.flows, q);
  }

  lemma NestedIsWithin(f: Filing, list: seq<Element>, parent: string, i: nat)
    requires f.Owns(list, parent) && i < |list| && HasContent(list[i].tag)
    ensures AllRead(f.nodes, f.processId, NodesOf(f.shapes, Read(list[i].kids), list[i].id))
    ensures Tidy(f.shapes, Read(list[i].kids), list[i].id, f.processId)
  {
    NestedIs(f.shapes, list[i]);
    NestedIsTidy(f.shapes, list, parent, f.processId, i);
  }

  lemma OwnsNested(f: Filing, list: seq<Element>, parent: string, i: nat)
    requires f.Valid() && f.Owns(list, parent) && i < |list| && HasContent(list[i].tag)
    ensures f.Owns(Read(list[i].kids), list[i].id)
  {
    var e, inner := list[i], Read(list[i].kids);
    NestedIs(f.shapes, e);
    NestedIsWithin(f, list, parent, i);
    OwnsBelow(f, list, parent, i, e.id);
    forall q | q in IdSet(NodesOf(f.shapes, inner, e.id)) ensures f.OwnsAt(inner, e.id, q) {
      OwnsBelow(f, list, parent, i, q);
    }
  }

  lemma NestedContent(f: Filing, list: seq<Element>, parent: string, i: nat)
    requires f.Valid() && f.Owns(list, parent) && i < |list| && HasContent(list[i].tag)
    ensures list[i].id in f.containers && list[i].id != f.processId
    ensures f.containers[list[i].id] ==
      Content(Heads(f.shapes, Read(list[i].kids), list[i].id), EdgesOf(list[i].flows))
  {
    var e, inner := list[i], Read(list[i].kids);
    NestedIs(f.shapes, e);
    NestedIsTidy(f.shapes, list, parent, f.processId, i);
    OwnsBelow(f, list, parent, i, e.id);
    OwnSlotHoldsHeads(f.shapes, inner, e.id, f.processId);
    ForeignFlowsAreNone(f.shapes, f.nodes, f.processId, inner, e.id, e.id);
    ContainerIsKnown(f, list, parent, i);
  }

  lemma ContainerIsKnown(f: Filing, list: seq<Element>, parent: string, i: nat)
    requires f.Valid() && f.Owns(list, parent) && i < |list| && HasContent(list[i].tag)
    ensures list[i].id in f.containers
  {
    var n := NodeOf(f.shapes, list[i], parent);
    NestedIsTidy(f.shapes, list, parent, f.processId, i);
    assert n in f.nodes && IsSubProcess(n);
  }

  lemma FlowsAreReadBack(flows: seq<Flow>)
    ensures EdgesOf(OverlayFlows(flows, EdgesOf(flows))) == EdgesOf(flows)
  {
    forall i | 0 <= i < |flows| ensures EdgeOf(FlowOf(EdgeOf(flows[i]))) == EdgeOf(flows[i]) {
    }
    if flows != [] {
      assert EdgesOf(FlowsOf(EdgesOf(flows))) == EdgesOf(flows);
    }
  }

  lemma {:induction false} RebuiltElementsAreSimilar(f: Filing, list: seq<Element>, parent: string, levels: nat)
    requires f.Valid() && f.Owns(list, parent) && levels >= ReadDepth(list) && levels > 0
    ensures SimilarLists(ElementsFor(f.containers, f.processId, Heads(f.shapes, list, parent), levels), list)
    decreases Depth(list), 1, |list|
  {
    RebuiltFrom(f, list, parent, levels, 0);
    assert Heads(f.shapes, list, parent)[0..] == Heads(f.shapes, list, parent) && list[0..] == list;
  }

  lemma SimilarCons(x: Element, xs: seq<Element>, y: Element, ys: seq<Element>)
    requires Similar(x, y) && SimilarLists(xs, ys)
    ensures SimilarLists([x] + xs, [y] + ys)
  {
    assert ([x] + xs)[1..] == xs && ([y] + ys)[1..] == ys;
  }

  lemma ReadDepthOfFirst(list: seq<Element>)
    requires list != []
    ensures HasContent(list[0].tag) ==> ReadDepth(Read(list[0].kids)) < ReadDepth(list)
    ensures ReadDepth(list[1..]) <= ReadDepth(list)
  {
  }

  lemma {:induction false} RebuiltFrom(f: Filing, list: seq<Element>, parent: string, levels: nat, i: nat)
    requires f.Valid() && f.Owns(list, parent) && i <= |list| && levels > 0 && levels >= ReadDepth(list[i..])
    ensures SimilarLists(ElementsFor(f.containers, f.processId, Heads(f.shapes, list, parent)[i..], levels), list[i..])
    decreases Depth(list), 0, |list| - i
  {
    if i == |list| {
    } else {
      var heads, rest := Heads(f.shapes, list, parent), list[i..];
      assert rest[0] == list[i] && rest[1..] == list[i + 1..];
      ReadDepthOfFirst(rest);
      KidIsShallower(list, list[i]);
      RebuiltElementIsSimilar(f, list, parent, levels, i);
      RebuiltFrom(f, list, parent, levels, i + 1);
      assert heads[i..][0] == heads[i] && heads[i..][1..] == heads[i + 1..];
      SimilarCons(ElementFor(f.containers, f.processId, heads[i], levels),
                  ElementsFor(f.containers, f.processId, heads[i + 1..], levels), list[i], list[i + 1..]);
      assert rest == [list[i]] + list[i + 1..];
    }
  }

  lemma {:induction false} RebuiltElementIsSimilar(f: Filing, list: seq<Element>, parent: string, levels: nat, i: nat)
    requires f.Valid() && f.Owns(list, parent) && i < |list| && levels > 0
    requires HasContent(list[i].tag) ==> levels > ReadDepth(Read(list[i].kids))
    ensures Similar(ElementFor(f.containers, f.processId, NodeOf(f.shapes, list[i], parent), levels), list[i])
    decreases Depth(list[i].kids), 2, 0
  {
    var e := list[i];
    var n := NodeOf(f.shapes, e, parent);
    HeadIsRead(f.shapes, list, parent, e);
    if HasContent(e.tag) {
      OwnsNested(f, list, parent, i);
      NestedContent(f, list, parent, i);
      ReadIsNoDeeper(e.kids);
      var content := Forest(f.containers, f.processId, e.id, levels - 1);
      if levels > 1 {
        RebuiltElementsAreSimilar(f, Read(e.kids), e.id, levels - 1);
      } else {
        assert Read(e.kids) == [];
      }
      SimilarListsHaveSameTags(content, Read(e.kids));
      OverlayIsReadAsContent(e.kids, content);
      FlowsAreReadBack(e.flows);
    }
  }

  // ---- Main result ----

  function NodesRead(doc: Document): seq<Node> {
    NodesIn(doc.shapes, doc.kids, "")
  }

  function EdgesRead(doc: Document): seq<Edge> {
    EdgesIn(doc.kids, doc.flows)
  }

  /** The document written from what was read. */
  function Rewritten(doc: Document): Document {
    DocumentOf(NodesRead(doc), EdgesRead(doc), doc.processId)
  }

  /**
   Elements have distinct ids that are neither empty nor the process id, there are no lanes and pools, every flow
   starts in the container it is listed in, and no top-level node has its centre in the box of a sub-process.
   */
  ghost predicate Plain(doc: Document) {
    && DistinctIds(NodesRead(doc)) && "" !in IdSet(NodesRead(doc)) && doc.processId !in IdSet(NodesRead(doc))
    && (forall n :: n in NodesRead(doc) ==> Emitted(n))
    && FlowsStay(doc.kids, doc.flows)
    && NothingCaptured(NodesRead(doc))
  }

  predicate IsPlaced(n: Node) {
    n.x != 0.0 || n.y != 0.0
  }

  /** Reading ends with the fallback layout, which moves all nodes if none has coordinates or it is forced. */
  ghost predicate NeedsLayout(doc: Document, forced: bool) {
    NodesRead(doc) != [] && (forced || !exists n :: n in NodesRead(doc) && IsPlaced(n))
  }

  lemma {:induction false} ShapeOfNode(nodes: seq<Node>, among: seq<Node>, i: nat)
    requires DistinctIds(among) && i < |among|
    ensures ShapeBounds(seq(|among|, k requires 0 <= k < |among| => ShapeOf(nodes, among[k])), among[i].id) ==
      ShapeOf(nodes, among[i]).bounds
  {
    var shapes := seq(|among|, k requires 0 <= k < |among| => ShapeOf(nodes, among[k]));
    assert shapes[0].element == among[0].id;
    if i > 0 {
      var rest := among[1..];
      ShapeOfNode(nodes, rest, i - 1);
      assert shapes[1..] == seq(|rest|, k requires 0 <= k < |rest| => ShapeOf(nodes, rest[k]));
      assert among[i] == rest[i - 1] && among[0].id != among[i].id;
    }
  }

  lemma WrittenShapeIsKept(shapes: seq<Shape>, nodes: seq<Node>, i: nat)
    requires DistinctIds(nodes) && ParentsFirst(nodes, "") && i < |nodes|
    requires forall n :: n in nodes ==> AtCorner(shapes, n)
    ensures ShapeKept(ShapesOf(nodes), shapes, nodes[i])
  {
    PositionIsCorner(shapes, nodes, i, |nodes|);
    ShapeOfNode(nodes, nodes, i);
    assert ShapesOf(nodes) == seq(|nodes|, k requires 0 <= k < |nodes| => ShapeOf(nodes, nodes[k]));
  }

  lemma WrittenShapesAreKept(doc: Document)
    requires Plain(doc)
    ensures forall n :: n in NodesRead(doc) ==> ShapeKept(Rewritten(doc).shapes, doc.shapes, n)
  {
    var nodes := NodesRead(doc);
    ReadKeepsTags(doc);
    ReadParentsFirst(doc.shapes, Read(doc.kids), "");
    forall n | n in nodes ensures AtCorner(doc.shapes, n) {
      ReadAtCorner(doc.shapes, n, "", nodes);
    }
    forall n | n in nodes ensures ShapeKept(Rewritten(doc).shapes, doc.shapes, n) {
      var i :| 0 <= i < |nodes| && nodes[i] == n;
      WrittenShapeIsKept(doc.shapes, nodes, i);
    }
  }

  function FilingOf(doc: Document): Filing {
    Filing(doc.shapes, doc.processId, NodesRead(doc), EdgesRead(doc),
           ContainersOf(NodesRead(doc), EdgesRead(doc), doc.processId))
  }

  lemma ReadKeepsTags(doc: Document)
    ensures forall n :: n in NodesRead(doc) ==> OutTag(n) == n.tag && IsRead(doc.shapes, n, "", NodesRead(doc))
  {
    var nodes := NodesRead(doc);
    NodesAreRead(doc.shapes, Read(doc.kids), "");
    assert nodes == NodesOf(doc.shapes, Read(doc.kids), "");
    forall n | n in nodes ensures OutTag(n) == n.tag && IsRead(doc.shapes, n, "", nodes) {
      assert IsRead(doc.shapes, n, "", nodes);
      var e :| n == NodeOf(doc.shapes, e, n.parent) && e.id == n.id;
    }
  }

  lemma FilingIsValid(doc: Document)
    requires Plain(doc)
    ensures FilingOf(doc).Valid()
  {
    var f := FilingOf(doc);
    ReadKeepsTags(doc);
    forall c | c in f.containers
      ensures f.containers[c] == Content(InSlot(f.nodes, f.processId, c), FlowsAt(f.nodes, f.processId, f.edges, c))
    {
      MembersAreInSlot(doc.shapes, f.nodes, f.processId, |f.nodes|, c);
      assert f.nodes[..|f.nodes|] == f.nodes;
    }
  }

  lemma EverythingIsWithin(doc: Document)
    requires Plain(doc)
    ensures AllRead(NodesRead(doc), doc.processId, NodesRead(doc))
  {
    var nodes := NodesRead(doc);
    ReadKeepsTags(doc);
    forall n | n in nodes ensures Home(nodes, doc.processId, n) == Slot(doc.processId, n) {
      HomeIsSlot(doc.shapes, nodes, doc.processId, n);
    }
  }

  lemma FilingOwnsAll(doc: Document)
    requires Plain(doc)
    ensures FilingOf(doc).Owns(Read(doc.kids), "")
    ensures FilingOf(doc).containers[doc.processId] ==
      Content(Heads(doc.shapes, Read(doc.kids), ""), EdgesOf(doc.flows))
  {
    var f, list := FilingOf(doc), Read(doc.kids);
    FilingIsValid(doc);
    EverythingIsWithin(doc);
    forall q | q in IdSet(NodesRead(doc)) ensures f.OwnsAt(list, "", q) {
      FlowsOfContainer(f.nodes, f.processId, doc.kids, doc.flows, q);
      OwnFlowsStay(f.shapes, f.nodes, f.processId, list, "", doc.flows, q);
    }
    OwnSlotHoldsHeads(f.shapes, list, "", f.processId);
    FlowsOfContainer(f.nodes, f.processId, doc.kids, doc.flows, f.processId);
    ForeignFlowsAreNone(f.shapes, f.nodes, f.processId, list, "", f.processId);
    OwnFlowsStay(f.shapes, f.nodes, f.processId, list, "", doc.flows, f.processId);
  }

  /** The elements at the top of the written document stand in reading order. */
  lemma RewrittenIsSimilar(doc: Document)
    requires Plain(doc)
    ensures SimilarLists(Read(Rewritten(doc).kids), Read(doc.kids))
    ensures EdgesOf(Rewritten(doc).flows) == EdgesOf(doc.flows)
  {
    var f, list := FilingOf(doc), Read(doc.kids);
    FilingIsValid(doc);
    FilingOwnsAll(doc);
    ReadDepthIsSmall(doc.shapes, list, "");
    RebuiltElementsAreSimilar(f, list, "", |f.nodes| + 1);
    var kids := Rewritten(doc).kids;
    assert kids == ElementsFor(f.containers, f.processId, Heads(f.shapes, list, ""), |f.nodes| + 1);
    SimilarListsHaveSameTags(kids, list);
    SortedIsReadAsIs(kids, doc.kids, TYPE_COUNT);
    FlowsAreReadBack(doc.flows);
    if doc.flows == [] { assert EdgesOf(doc.flows) == []; }
  }

  lemma SameAreAsPlaced(bare: seq<Node>, seen: seq<Node>)
    requires BareAll(bare) == SeenAll(seen)
    ensures |bare| == |seen| && ((exists n :: n in seen && IsPlaced(n)) ==> exists n :: n in bare && IsPlaced(n))
  {
    assert |bare| == |BareAll(bare)| == |seen|;
    if n :| n in seen && IsPlaced(n) {
      var i :| 0 <= i < |seen| && seen[i] == n;
      assert BareAll(bare)[i] == SeenAll(seen)[i];
      assert bare[i] in bare && IsPlaced(bare[i]);
    }
  }

  /**
   Parse, generate, parse: the same nodes in the same order, with the same ids, kinds, tags, parents and relative
   positions, and the same edges with the same handles. A zero width or height comes back as the default. Like the
   first document, the written one is not laid out when it is read.
   */
  lemma ParseGenerateParse(doc: Document, forced: bool)
    requires Plain(doc) && !NeedsLayout(doc, forced)
    ensures !NeedsLayout(Rewritten(doc), forced)
    ensures BareAll(NodesRead(Rewritten(doc))) == SeenAll(NodesRead(doc))
    ensures EdgesRead(Rewritten(doc)) == EdgesRead(doc)
  {
    WrittenShapesAreKept(doc);
    RewrittenIsSimilar(doc);
    SimilarListsAreReadAlike(Rewritten(doc).shapes, doc.shapes, Read(Rewritten(doc).kids), Read(doc.kids), "");
    SameAreAsPlaced(NodesRead(Rewritten(doc)), NodesRead(doc));
  }

  lemma SizesDecide(nodes: seq<Node>)
    ensures SeenAll(nodes) == BareAll(nodes) <==> forall n :: n in nodes ==> n.width != 0.0 && n.height != 0.0
  {
    if SeenAll(nodes) == BareAll(nodes) {
      forall n | n in nodes ensures n.width != 0.0 && n.height != 0.0 {
        var i :| 0 <= i < |nodes| && nodes[i] == n;
        assert SeenAll(nodes)[i] == BareAll(nodes)[i];
        assert Seen(n).width == Bare(n).width && Seen(n).height == Bare(n).height;
      }
    }
    if forall n :: n in nodes ==> n.width != 0.0 && n.height != 0.0 {
      forall i | 0 <= i < |nodes| ensures SeenAll(nodes)[i] == BareAll(nodes)[i] {
        assert nodes[i] in nodes;
      }
    }
  }

  /** So the round trip changes nothing if and only if no element that is read has a zero width or height. */
  lemma RoundTripIsIdentityIffSizesAreNonZero(doc: Document, forced: bool)
    requires Plain(doc) && !NeedsLayout(doc, forced)
    ensures BareAll(NodesRead(Rewritten(doc))) == BareAll(NodesRead(doc)) <==>
      forall n :: n in NodesRead(doc) ==> n.width != 0.0 && n.height != 0.0
  {
    ParseGenerateParse(doc, forced);
    SizesDecide(NodesRead(doc));
  }

  // ---- A shape without width ----

  lemma {:induction false} OneIsRead(e: Element, t: nat)
    requires t <= TYPE_COUNT
    ensures OfTags([e], t) == if TypeIndex(e.tag) < t then [e] else []
  {
    if t > 0 {
      OneIsRead(e, t - 1);
      TableIsIndexed(t - 1);
      if TypeIndex(e.tag) == t - 1 {
        TagAtIndex(e.tag);
        OfTagOfAll([e], TypeAt(t - 1));
      } else {
        OfTagOfNone([e], TypeAt(t - 1));
      }
    }
  }

  /** A document of one task with this shape. */
  function OneTask(shape: Bounds): Document {
    Document("p", [Element("t", UserTask, [], [])], [], [Shape("t", Some(shape))])
  }

  lemma OneTaskIsRead(shape: Bounds)
    ensures
      var n := Node("t", FlowNode(UserTask), UserTask, false, "", shape.x, shape.y, shape.width, shape.height, [], []);
      NodesRead(OneTask(shape)) == [n]
    ensures Read(OneTask(shape).kids) == OneTask(shape).kids
  {
    var e := Element("t", UserTask, [], []);
    OneIsRead(e, TYPE_COUNT);
    OneElement([Shape("t", Some(shape))], e, "");
  }

  lemma OneTaskIsPlain(shape: Bounds)
    ensures Plain(OneTask(shape))
  {
    var doc := OneTask(shape);
    OneTaskIsRead(shape);
    NoFlowsStay(Element("t", UserTask, [], []));
    OneNodeIsPlain(doc, NodesRead(doc));
  }

  lemma OneNodeIsPlain(doc: Document, nodes: seq<Node>)
    requires nodes == NodesRead(doc) && |nodes| == 1 && nodes[0].id == "t" && nodes[0].tag == UserTask
    requires doc.processId == "p" && FlowsStay(doc.kids, doc.flows)
    ensures Plain(doc)
  {
    OneNodeIsAlone(nodes);
  }

  lemma NoFlowsStay(e: Element)
    requires !HasContent(e.tag) && Read([e]) == [e]
    ensures FlowsStay([e], [])
  {
    assert FlowsStayBelow([e][1..]);
    assert FlowsStayBelow([e]);
  }

  lemma OneNodeIsAlone(nodes: seq<Node>)
    requires |nodes| == 1 && nodes[0].id == "t" && nodes[0].tag == UserTask
    ensures DistinctIds(nodes) && IdSet(nodes) == {"t"} && NothingCaptured(nodes)
    ensures forall n :: n in nodes ==> Emitted(n)
  {
    assert forall n :: n in nodes ==> n == nodes[0];
  }

  /** A task that is drawn with zero width is read back with the default width. */
  lemma ZeroWidthIsNotKept()
    ensures
      var doc := OneTask(Bounds(10.0, 10.0, 0.0, 80.0));
      && Plain(doc) && !NeedsLayout(doc, false)
      && BareAll(NodesRead(Rewritten(doc))) != BareAll(NodesRead(doc))
  {
    var shape := Bounds(10.0, 10.0, 0.0, 80.0);
    OneTaskIsPlain(shape);
    OneTaskIsRead(shape);
    assert IsPlaced(NodesRead(OneTask(shape))[0]);
    RoundTripIsIdentityIffSizesAreNonZero(OneTask(shape), false);
    assert NodesRead(OneTask(shape))[0].width == 0.0;
  }
}
