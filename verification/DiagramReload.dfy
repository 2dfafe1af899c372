/**
 Reading a file, and reading what was written from any diagram, edited or not: each element that can be got to through
 containers becomes a node, and each flow listed in such a container an edge with its stored handles.
 */
module DiagramReload {
  import opened Options
  import opened Diagram
  import opened DiagramParser
  import opened DiagramGenerator
  import opened DiagramLinks
  import opened DiagramNesting
  import opened DiagramFiling
  import opened DiagramRoundTrip

  // ---- Ways into a document ----

  /** Each element but the last is a container in which the next one is read. */
  predicate LeadsDown(path: seq<Element>)
    requires path != []
  {
    |path| == 1 || (HasContent(path[0].tag) && path[1] in Read(path[0].kids) && LeadsDown(path[1..]))
  }

  /** A way from the top of a document to the last element. */
  predicate IsPath(kids: seq<Element>, path: seq<Element>) {
    path != [] && path[0] in Read(kids) && LeadsDown(path)
  }

  function LastOf(path: seq<Element>): Element
    requires path != []
  {
    path[|path| - 1]
  }

  /** The id of the element that the last one is read in. */
  function ParentOf(path: seq<Element>, top: string): string
    requires path != []
  {
    if |path| == 1 then top else path[|path| - 2].id
  }

  lemma {:induction false} HeadIsReadWith(shapes: seq<Shape>, list: seq<Element>, parent: string, e: Element)
    requires e in list
    ensures NodeOf(shapes, e, parent) in NodesOf(shapes, list, parent)
    ensures forall n :: n in Nested(shapes, e) ==> n in NodesOf(shapes, list, parent)
    ensures HasContent(e.tag) ==> forall x :: x in EdgesIn(e.kids, e.flows) ==> x in EdgesBelow(list)
  {
    if e != list[0] {
      assert e in list[1..];
      HeadIsReadWith(shapes, list[1..], parent, e);
    }
  }

  lemma FirstIsRead(shapes: seq<Shape>, kids: seq<Element>, e: Element, top: string)
    requires e in Read(kids)
    ensures NodeOf(shapes, e, top) in NodesIn(shapes, kids, top)
  {
    HeadIsReadWith(shapes, Read(kids), top, e);
  }

  lemma NestedIsRead(shapes: seq<Shape>, kids: seq<Element>, e: Element, top: string, n: Node)
    requires e in Read(kids) && HasContent(e.tag) && n in NodesIn(shapes, e.kids, e.id)
    ensures n in NodesIn(shapes, kids, top)
  {
    HeadIsReadWith(shapes, Read(kids), top, e);
  }

  lemma NestedFlowIsRead(kids: seq<Element>, flows: seq<Flow>, e: Element, x: Edge)
    requires e in Read(kids) && HasContent(e.tag) && x in EdgesIn(e.kids, e.flows)
    ensures x in EdgesIn(kids, flows)
  {
    HeadIsReadWith([], Read(kids), "", e);
  }

  lemma RestOfPath(kids: seq<Element>, path: seq<Element>, top: string)
    requires IsPath(kids, path) && |path| > 1
    ensures path[0] in Read(kids) && HasContent(path[0].tag) && IsPath(path[0].kids, path[1..])
    ensures LastOf(path[1..]) == LastOf(path) && ParentOf(path[1..], path[0].id) == ParentOf(path, top)
  {
  }

  /** The last element becomes a node, with the one before it as its parent. */
  lemma {:induction false} LastIsRead(shapes: seq<Shape>, kids: seq<Element>, path: seq<Element>, top: string)
    requires IsPath(kids, path)
    ensures NodeOf(shapes, LastOf(path), ParentOf(path, top)) in NodesIn(shapes, kids, top)
    decreases |path|
  {
    if |path| == 1 {
      FirstIsRead(shapes, kids, path[0], top);
    } else {
      RestOfPath(kids, path, top);
      LastIsRead(shapes, path[0].kids, path[1..], path[0].id);
      NestedIsRead(shapes, kids, path[0], top, NodeOf(shapes, LastOf(path), ParentOf(path, top)));
    }
  }

  /** If it is a container, its flows become edges. */
  lemma {:induction false} LastFlowsAreRead(kids: seq<Element>, flows: seq<Flow>, path: seq<Element>, f: Flow)
    requires IsPath(kids, path) && HasContent(LastOf(path).tag) && f in LastOf(path).flows
    ensures EdgeOf(f) in EdgesIn(kids, flows)
    decreases |path|
  {
    if |path| == 1 {
      OwnFlowIsRead(path[0].kids, path[0].flows, f);
    } else {
      RestOfPath(kids, path, "");
      LastFlowsAreRead(path[0].kids, path[0].flows, path[1..], f);
    }
    NestedFlowIsRead(kids, flows, path[0], EdgeOf(f));
  }

  lemma OwnFlowIsRead(kids: seq<Element>, flows: seq<Flow>, f: Flow)
    requires f in flows
    ensures EdgeOf(f) in EdgesIn(kids, flows)
  {
    var i :| 0 <= i < |flows| && flows[i] == f;
    assert EdgesOf(flows)[i] == EdgeOf(f);
  }

  // ---- Files ----

  /** The handle that counts: the connector's, else the attribute's, else the one on the usual side. */
  predicate IsHandle(handle: string, connector: string, attribute: string, usual: string) {
    && (connector != "" ==> handle == connector)
    && (connector == "" && attribute != "" ==> handle == attribute)
    && (connector == "" && attribute == "" ==> handle == usual)
  }

  /** The flow is listed at the top of the document, or in a container that is read. */
  ghost predicate IsListed(doc: Document, f: Flow) {
    f in doc.flows || exists path :: IsPath(doc.kids, path) && HasContent(LastOf(path).tag) && f in LastOf(path).flows
  }

  ghost predicate JoinsLike(e: Edge, f: Flow) {
    && e.id == f.id && e.source == f.source && e.target == f.target && !e.message
    && IsHandle(e.sourceHandle, f.connectorSource, f.attributeSource, "right")
    && IsHandle(e.targetHandle, f.connectorTarget, f.attributeTarget, "left")
  }

  /** Each flow of a file becomes an edge between the same ends, with the handles that are stored with it. */
  lemma ListedFlowIsRead(doc: Document, f: Flow)
    requires IsListed(doc, f)
    ensures exists e :: e in EdgesRead(doc) && JoinsLike(e, f)
  {
    assert JoinsLike(EdgeOf(f), f);
    if f in doc.flows {
      OwnFlowIsRead(doc.kids, doc.flows, f);
    } else {
      var path :| IsPath(doc.kids, path) && HasContent(LastOf(path).tag) && f in LastOf(path).flows;
      LastFlowsAreRead(doc.kids, doc.flows, path, f);
    }
  }

  /** The kind of node by the row of the table that the tag stands in. */
  predicate IsOfRow(kind: Kind, row: nat) {
    && (row < 17 ==> kind == FlowNode(TypeAt(row)))
    && (row == 17 || row == 18 ==> kind == SubProcessNode)
    && (row >= 19 ==> kind == VisualArtifact)
  }

  /** Where the corner of an element's shape is; that of one without a shape counts as the origin. */
  predicate IsCorner(shapes: seq<Shape>, id: string, x: real, y: real) {
    match ShapeBounds(shapes, id)
    case Some(b) => x == b.x && y == b.y
    case None => x == 0.0 && y == 0.0
  }

  /** The size is that of the shape, the place that of its corner seen from the corner of the parent's shape. */
  ghost predicate StandsAt(shapes: seq<Shape>, n: Node) {
    && (n.parent == "" ==> IsCorner(shapes, n.id, n.x, n.y))
    && (n.parent != "" ==>
          exists x, y :: IsCorner(shapes, n.parent, x, y) && IsCorner(shapes, n.id, n.x + x, n.y + y))
    && (ShapeBounds(shapes, n.id).Some? ==>
          n.width == ShapeBounds(shapes, n.id).value.width && n.height == ShapeBounds(shapes, n.id).value.height)
  }

  lemma NodeStandsAt(shapes: seq<Shape>, e: Element, parent: string)
    requires TypeIndex(e.tag) < TYPE_COUNT
    ensures IsNodeOf(NodeOf(shapes, e, parent), e, parent) && StandsAt(shapes, NodeOf(shapes, e, parent))
  {
    var n, origin := NodeOf(shapes, e, parent), GetBounds(shapes, parent, SubProcess);
    TagIsOfRow(e.tag);
    if parent != "" {
      assert IsCorner(shapes, parent, origin.x, origin.y) && IsCorner(shapes, e.id, n.x + origin.x, n.y + origin.y);
    }
  }

  /** Each element of a file that is read becomes a node of the kind in the table, in its parent, with its shape. */
  lemma ElementIsRead(doc: Document, path: seq<Element>)
    requires IsPath(doc.kids, path)
    ensures exists n :: n in NodesRead(doc) && IsNodeOf(n, LastOf(path), ParentOf(path, "")) && StandsAt(doc.shapes, n)
  {
    LastIsRead(doc.shapes, doc.kids, path, "");
    LastIsInTable(doc.kids, path);
    NodeStandsAt(doc.shapes, LastOf(path), ParentOf(path, ""));
  }

  ghost predicate IsNodeOf(n: Node, e: Element, parent: string) {
    && n.id == e.id && n.tag == e.tag && n.parent == parent
    && IsOfRow(n.kind, TypeIndex(e.tag)) && (n.transaction <==> e.tag == Transaction)
  }

  lemma TagIsOfRow(tag: Tag)
    requires TypeIndex(tag) < TYPE_COUNT
    ensures IsOfRow(KindOf(tag), TypeIndex(tag))
  {
    TagAtIndex(tag);
  }

  lemma {:induction false} LastIsInTable(kids: seq<Element>, path: seq<Element>)
    requires IsPath(kids, path)
    ensures TypeIndex(LastOf(path).tag) < TYPE_COUNT
    decreases |path|
  {
    OfTagsTags(kids, TYPE_COUNT);
    if |path| > 1 {
      RestOfPath(kids, path, "");
      LastIsInTable(path[0].kids, path[1..]);
    }
  }

  // ---- What is written is found again ----

  /** The node is filed under the process, or under a container that is read and found again itself. */
  predicate IsFound(t: Nest, n: Node, k: nat)
    decreases k
  {
    && k > 0 && Emitted(n) && TypeIndex(OutTag(n)) < TYPE_COUNT
    && (t.Home(n) == t.processId
        || (Find(t.nodes, t.Home(n)).Some? && HasContent(OutTag(Find(t.nodes, t.Home(n)).value))
            && IsFound(t, Find(t.nodes, t.Home(n)).value, k - 1)))
  }

  /** Effective parents lead from the node to the process, through sub-processes and transactions only. */
  ghost predicate IsFoundAgain(t: Nest, n: Node) {
    exists k: nat :: IsFound(t, n, k)
  }

  lemma {:induction false} CountedIsMember(members: seq<Node>, id: string)
    requires CountId(members, id) > 0
    ensures exists m :: m in members && m.id == id
  {
    if members[0].id != id {
      CountedIsMember(members[1..], id);
      var m :| m in members[1..] && m.id == id;
      assert m in members;
    }
  }

  lemma FiledAtHome(t: Nest, containers: map<string, Content>, n: Node)
    requires Holds(t, containers) && n in t.nodes && Emitted(n)
    ensures t.Home(n) in containers && n in containers[t.Home(n)].members
  {
    var members := containers[t.Home(n)].members;
    assert HoldsMembers(t, members, t.Home(n));
    CountedIsMember(members, n.id);
    var m :| m in members && m.id == n.id;
    FindItself(t.nodes, n);
    FindItself(t.nodes, m);
  }

  lemma {:induction false} MemberIsElement(containers: map<string, Content>, processId: string, members: seq<Node>,
                                           levels: nat, n: Node)
    requires levels > 0 && n in members
    ensures ElementFor(containers, processId, n, levels) in ElementsFor(containers, processId, members, levels)
  {
    var all := ElementsFor(containers, processId, members, levels);
    assert all[0] == ElementFor(containers, processId, members[0], levels);
    if n != members[0] {
      assert n in members[1..];
      MemberIsElement(containers, processId, members[1..], levels, n);
    }
  }

  /** The element for a node stands among the elements of its home. */
  lemma ElementIsFiled(t: Nest, containers: map<string, Content>, n: Node, levels: nat)
    requires Holds(t, containers) && n in t.nodes && Emitted(n) && levels > 0
    ensures ElementFor(containers, t.processId, n, levels) in Forest(containers, t.processId, t.Home(n), levels)
  {
    FiledAtHome(t, containers, n);
    MemberIsElement(containers, t.processId, containers[t.Home(n)].members, levels, n);
  }

  lemma InForestIsRead(copies: seq<Element>, content: seq<Element>, e: Element)
    requires e in content && TypeIndex(e.tag) < TYPE_COUNT
    ensures e in Read(Overlay(copies, content))
  {
    assert e in Overlay(copies, content);
    OfTagsFinds(Overlay(copies, content), e, TYPE_COUNT);
  }

  /** A way down from the element for a node, made longer by the containers above it up to the process. */
  lemma {:induction false} WayFromTop(t: Nest, containers: map<string, Content>, n: Node, k: nat, levels: nat,
                                      below: seq<Element>)
    returns (top: nat, path: seq<Element>)
    requires Holds(t, containers) && n in t.nodes && IsFound(t, n, k) && levels > 0
    requires below != [] && below[0] == ElementFor(containers, t.processId, n, levels) && LeadsDown(below)
    ensures top >= levels && IsPath(Forest(containers, t.processId, t.processId, top), path)
    ensures LastOf(path) == LastOf(below)
    ensures ParentOf(path, "") == if |below| > 1 then ParentOf(below, "") else ParentIn(t, n)
    decreases k
  {
    ElementIsFiled(t, containers, n, levels);
    if t.Home(n) == t.processId {
      top, path := levels, below;
      WayEnds(Forest(containers, t.processId, t.processId, levels), below);
    } else {
      var host := Find(t.nodes, t.Home(n)).value;
      var above := ElementFor(containers, t.processId, host, levels + 1);
      FiledAtHome(t, containers, n);
      HostHolds(t, containers, host, levels, below[0]);
      WayGrows(above, below);
      top, path := WayFromTop(t, containers, host, k - 1, levels + 1, [above] + below);
    }
  }

  lemma WayEnds(content: seq<Element>, below: seq<Element>)
    requires below != [] && LeadsDown(below) && below[0] in content && TypeIndex(below[0].tag) < TYPE_COUNT
    ensures IsPath(content, below)
  {
    OfTagsFinds(content, below[0], TYPE_COUNT);
  }

  lemma WayGrows(above: Element, below: seq<Element>)
    requires below != [] && LeadsDown(below) && HasContent(above.tag) && below[0] in Read(above.kids)
    ensures LeadsDown([above] + below) && LastOf([above] + below) == LastOf(below)
    ensures ParentOf([above] + below, "") == if |below| > 1 then ParentOf(below, "") else above.id
  {
    assert ([above] + below)[1..] == below;
  }

  lemma HostHolds(t: Nest, containers: map<string, Content>, host: Node, levels: nat, e: Element)
    requires Holds(t, containers) && host in t.nodes && host.id in containers && TypeIndex(e.tag) < TYPE_COUNT
    requires e in Forest(containers, t.processId, host.id, levels)
    ensures
      var above := ElementFor(containers, t.processId, host, levels + 1);
      above.id == host.id && above.tag == OutTag(host) && e in Read(above.kids)
  {
    assert host.id in IdSet(t.nodes);
    InForestIsRead(host.copies, Forest(containers, t.processId, host.id, levels), e);
  }

  lemma WayFound(t: Nest, containers: map<string, Content>, n: Node, levels: nat)
    returns (top: nat, path: seq<Element>)
    requires Holds(t, containers) && n in t.nodes && IsFoundAgain(t, n) && levels > 0
    ensures top >= levels && IsPath(Forest(containers, t.processId, t.processId, top), path)
    ensures LastOf(path) == ElementFor(containers, t.processId, n, levels)
    ensures ParentOf(path, "") == ParentIn(t, n)
  {
    var k: nat :| IsFound(t, n, k);
    top, path := WayFromTop(t, containers, n, k, levels, [ElementFor(containers, t.processId, n, levels)]);
  }

  lemma WayWritten(nodes: seq<Node>, edges: seq<Edge>, processId: string, n: Node)
    returns (top: nat, path: seq<Element>)
    requires HasOwnIds(nodes, processId) && n in nodes && IsFoundAgain(NestOf(nodes, processId), n)
    ensures top >= |nodes| + 1
    ensures IsPath(Forest(ContainersOf(nodes, edges, processId), processId, processId, top), path)
    ensures LastOf(path) == ElementFor(ContainersOf(nodes, edges, processId), processId, n, |nodes| + 1)
    ensures ParentOf(path, "") == ParentIn(NestOf(nodes, processId), n)
  {
    ContainersHold(nodes, edges, processId);
    top, path := WayFound(NestOf(nodes, processId), ContainersOf(nodes, edges, processId), n, |nodes| + 1);
  }

  lemma WayToNode(nodes: seq<Node>, edges: seq<Edge>, processId: string, n: Node) returns (path: seq<Element>)
    requires Drawn(nodes, processId) && n in nodes && IsFoundAgain(NestOf(nodes, processId), n)
    ensures IsPath(DocumentOf(nodes, edges, processId).kids, path)
    ensures LastOf(path) == ElementFor(ContainersOf(nodes, edges, processId), processId, n, |nodes| + 1)
    ensures ParentOf(path, "") == ParentWritten(nodes, processId, n)
  {
    var top;
    top, path := WayWritten(nodes, edges, processId, n);
    NestingIsFinite(nodes, edges, processId, top);
    ParentInNest(nodes, processId, n);
  }

  /** The parent that is read: the container the node was filed under. */
  function ParentIn(t: Nest, n: Node): string {
    if t.Home(n) == t.processId then "" else t.Home(n)
  }

  lemma ParentInNest(nodes: seq<Node>, processId: string, n: Node)
    requires n in nodes
    ensures ParentIn(NestOf(nodes, processId), n) == ParentWritten(nodes, processId, n)
  {
  }

  /** The node that is read: what was drawn, in its effective parent. */
  function ParentWritten(nodes: seq<Node>, processId: string, n: Node): string {
    var home := DiagramGenerator.Home(nodes, processId, n);
    if home == processId then "" else home
  }

  /** The same node, seen from the container it was filed under and with the size it was written with. */
  ghost predicate IsReadFrom(nodes: seq<Node>, processId: string, n: Node, m: Node) {
    && m.id == n.id && m.tag == (if n.tag == SubProcess && n.transaction then Transaction else n.tag)
    && IsOfRow(m.kind, TypeIndex(m.tag))
    && (m.transaction <==> m.tag == Transaction) && m.parent == ParentWritten(nodes, processId, n)
    && m.width == (if n.width != 0.0 then n.width else 100.0)
    && m.height == (if n.height != 0.0 then n.height else 80.0)
    && var p := AbsolutePosition(nodes, n.id);
       var q := if m.parent == "" then Point(0.0, 0.0) else AbsolutePosition(nodes, m.parent);
       m.x == p.x - q.x && m.y == p.y - q.y
  }

  lemma ShapeIsWritten(nodes: seq<Node>, n: Node)
    requires DistinctIds(nodes) && n in nodes
    ensures
      var p := AbsolutePosition(nodes, n.id);
      ShapeBounds(ShapesOf(nodes), n.id) == Some(Bounds(p.x, p.y, Width(n), Height(n)))
  {
    var i :| 0 <= i < |nodes| && nodes[i] == n;
    ShapeOfNode(nodes, nodes, i);
    assert ShapesOf(nodes) == seq(|nodes|, k requires 0 <= k < |nodes| => ShapeOf(nodes, nodes[k]));
  }

  /**
   Whatever was edited, each node that is filed under the process through sub-processes and transactions is found when
   the written document is read: with its tag, in its effective parent, at its place and with its written size.
   */
  lemma WrittenNodeIsReadBack(nodes: seq<Node>, edges: seq<Edge>, processId: string, n: Node)
    requires Drawn(nodes, processId) && n in nodes && IsFoundAgain(NestOf(nodes, processId), n)
    ensures exists m :: m in NodesRead(DocumentOf(nodes, edges, processId)) && IsReadFrom(nodes, processId, n, m)
  {
    var doc := DocumentOf(nodes, edges, processId);
    var path := WayToNode(nodes, edges, processId, n);
    LastIsRead(doc.shapes, doc.kids, path, "");
    LastIsInTable(doc.kids, path);
    ElementIsReadFrom(nodes, processId, n, LastOf(path));
  }

  lemma ElementIsReadFrom(nodes: seq<Node>, processId: string, n: Node, e: Element)
    requires DistinctIds(nodes) && n in nodes && e.id == n.id && e.tag == OutTag(n) && TypeIndex(e.tag) < TYPE_COUNT
    ensures IsReadFrom(nodes, processId, n, NodeOf(ShapesOf(nodes), e, ParentWritten(nodes, processId, n)))
  {
    var parent := ParentWritten(nodes, processId, n);
    TagIsOfRow(e.tag);
    ShapeIsWritten(nodes, n);
    if parent != "" {
      HomeIsSubProcess(nodes, processId, n);
      ShapeIsWritten(nodes, Find(nodes, parent).value);
    }
  }

  // ---- Edges ----

  /** The edge as it is drawn, a missing handle being the usual one. */
  function Handled(e: Edge): Edge {
    e.(sourceHandle := if e.sourceHandle != "" then e.sourceHandle else "right",
       targetHandle := if e.targetHandle != "" then e.targetHandle else "left")
  }

  /** What is written of an edge is read as that edge. */
  lemma EdgeIsKept(e: Edge)
    requires !e.message
    ensures EdgeOf(FlowOf(e)) == Handled(e)
    ensures e.sourceHandle != "" && e.targetHandle != "" ==> EdgeOf(FlowOf(e)) == e
  {
  }

  /** Under a container are filed exactly the edges that are no message flows and whose source is filed there. */
  lemma {:induction false} EdgesAreFiledIff(nodes: seq<Node>, processId: string, edges: seq<Edge>, c: string, e: Edge)
    ensures e in FlowsAt(nodes, processId, edges, c) <==> e in edges && !e.message && EdgeHome(nodes, processId, e) == c
  {
    if edges != [] {
      var last := |edges| - 1;
      EdgesAreFiledIff(nodes, processId, edges[..last], c, e);
      assert e in edges <==> e in edges[..last] || e == edges[last];
    }
  }

  lemma FlowIsAmong(content: seq<Edge>, e: Edge)
    requires e in content
    ensures FlowOf(e) in FlowsOf(content)
  {
    var i :| 0 <= i < |content| && content[i] == e;
    assert FlowsOf(content)[i] == FlowOf(e);
  }

  /** The edge is filed under the process, or under a container that is read and found again. */
  ghost predicate EdgeIsFoundAgain(nodes: seq<Node>, processId: string, e: Edge) {
    var home := EdgeHome(nodes, processId, e);
    || home == processId
    || (Find(nodes, home).Some? && HasContent(OutTag(Find(nodes, home).value))
        && IsFoundAgain(NestOf(nodes, processId), Find(nodes, home).value))
  }

  /**
   Whatever was edited, each such edge other than a message flow is found when the written document is read, between
   the same ends, with both its handles.
   */
  lemma WrittenEdgeIsReadBack(nodes: seq<Node>, edges: seq<Edge>, processId: string, e: Edge)
    requires Drawn(nodes, processId) && e in edges && !e.message && EdgeIsFoundAgain(nodes, processId, e)
    ensures Handled(e) in EdgesRead(DocumentOf(nodes, edges, processId))
    ensures e.sourceHandle != "" && e.targetHandle != "" ==> e in EdgesRead(DocumentOf(nodes, edges, processId))
  {
    var doc, home := DocumentOf(nodes, edges, processId), EdgeHome(nodes, processId, e);
    var content := FlowsAt(nodes, processId, edges, home);
    EdgeIsKept(e);
    EdgesAreFiledIff(nodes, processId, edges, home, e);
    FlowIsAmong(content, e);
    if home == processId {
      OwnFlowIsRead(doc.kids, doc.flows, FlowOf(e));
    } else {
      var host := Find(nodes, home).value;
      var path := WayToNode(nodes, edges, processId, host);
      assert host.id in IdSet(nodes);
      EdgeHomeIsContainer(nodes, processId, e);
      LastFlowsAreRead(doc.kids, doc.flows, path, FlowOf(e));
    }
  }

  /**
   A container under which no edge is filed is written with the flows it was read with: a flow that was deleted, the
   last one in its sub-process, is read again.
   */
  lemma DeletedFlowComesBack(nodes: seq<Node>, edges: seq<Edge>, processId: string, n: Node, f: Flow)
    requires Drawn(nodes, processId) && n in nodes && IsFoundAgain(NestOf(nodes, processId), n)
    requires HasContent(OutTag(n)) && f in n.flowCopies
    requires forall e :: e in edges && !e.message ==> EdgeHome(nodes, processId, e) != n.id
    ensures EdgeOf(f) in EdgesRead(DocumentOf(nodes, edges, processId))
  {
    var doc := DocumentOf(nodes, edges, processId);
    var content := FlowsAt(nodes, processId, edges, n.id);
    var path := WayToNode(nodes, edges, processId, n);
    if content != [] {
      EdgesAreFiledIff(nodes, processId, edges, n.id, content[0]);
    }
    assert n.id in IdSet(nodes);
    LastFlowsAreRead(doc.kids, doc.flows, path, f);
  }
}
