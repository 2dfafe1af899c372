/**
 Writing a document: the flat list of nodes is nested again, by parent link or, for a node without one, by the
 smallest sub-process box around its centre.
 */
module DiagramGenerator {
  import opened Options
  import opened Diagram

  // ---- Geometry ----

  /** A missing or zero size counts as the default one. */
  function Width(n: Node): real {
    if n.width != 0.0 then n.width else 100.0
  }

  function Height(n: Node): real {
    if n.height != 0.0 then n.height else 80.0
  }

  function Area(n: Node): real {
    Width(n) * Height(n)
  }

  function Find(nodes: seq<Node>, id: string): (found: Option<Node>)
    ensures found.Some? ==> found.value in nodes && found.value.id == id
    ensures found.None? ==> forall n :: n in nodes ==> n.id != id
  {
    if nodes == [] then None
    else if nodes[0].id == id then Some(nodes[0])
    else Find(nodes[1..], id)
  }

  lemma FindItself(nodes: seq<Node>, n: Node)
    requires DistinctIds(nodes) && n in nodes
    ensures Find(nodes, n.id) == Some(n)
  {
    var found := Find(nodes, n.id).value;
    var i :| 0 <= i < |nodes| && nodes[i] == n;
    var j :| 0 <= j < |nodes| && nodes[j] == found;
    assert i == j;
  }

  datatype Point = Point(x: real, y: real)

  /**
   The absolute position: a node's own position plus that of its ancestors. `links` bounds the number of parent
   links followed; no chain of links that ends is longer than the list of nodes (`DiagramLinks.EndsWithinList`).
   */
  function Position(nodes: seq<Node>, id: string, links: nat): Point
    decreases links
  {
    match Find(nodes, id)
    case None => Point(0.0, 0.0)
    case Some(n) =>
      if n.parent != "" && links > 0 then
        var p := Position(nodes, n.parent, links - 1);
        Point(n.x + p.x, n.y + p.y)
      else Point(n.x, n.y)
  }

  function AbsolutePosition(nodes: seq<Node>, id: string): Point {
    Position(nodes, id, |nodes|)
  }

  function Center(nodes: seq<Node>, n: Node): Point {
    var p := AbsolutePosition(nodes, n.id);
    Point(p.x + Width(n) / 2.0, p.y + Height(n) / 2.0)
  }

  predicate BoxHolds(nodes: seq<Node>, sp: Node, p: Point) {
    var origin := AbsolutePosition(nodes, sp.id);
    origin.x <= p.x <= origin.x + Width(sp) && origin.y <= p.y <= origin.y + Height(sp)
  }

  // ---- Effective parents ----

  /** `sp` is a sub-process other than `n` whose box holds the centre of `n`. */
  predicate Captures(nodes: seq<Node>, sp: Node, n: Node) {
    IsSubProcess(sp) && sp.id != n.id && BoxHolds(nodes, sp, Center(nodes, n))
  }

  function Capturers(nodes: seq<Node>, among: seq<Node>, n: Node): (found: seq<Node>)
    ensures forall sp :: sp in found <==> sp in among && Captures(nodes, sp, n)
  {
    if among == [] then []
    else
      var last := among[|among| - 1];
      var before := Capturers(nodes, among[..|among| - 1], n);
      assert forall m :: m in among <==> m in among[..|among| - 1] || m == last;
      if Captures(nodes, last, n) then before + [last] else before
  }

  lemma {:induction false} NoneCapture(nodes: seq<Node>, among: seq<Node>, n: Node)
    requires forall sp :: sp in among ==> !Captures(nodes, sp, n)
    ensures Capturers(nodes, among, n) == []
  {
    if among == [] {
    } else {
      assert among[|among| - 1] in among;
      NoneCapture(nodes, among[..|among| - 1], n);
    }
  }

  /** The head of the list after a stable sort by area. */
  function FirstSmallest(list: seq<Node>): (smallest: Node)
    requires list != []
    ensures smallest in list && forall n :: n in list ==> Area(smallest) <= Area(n)
  {
    if |list| == 1 then list[0]
    else
      var before := FirstSmallest(list[..|list| - 1]);
      var last := list[|list| - 1];
      assert forall m :: m in list <==> m in list[..|list| - 1] || m == last;
      if Area(last) < Area(before) then last else before
  }

  function EffectiveParent(nodes: seq<Node>, processId: string, n: Node): string {
    if n.parent != "" then n.parent
    else
      var around := Capturers(nodes, nodes, n);
      if around == [] then processId else FirstSmallest(around).id
  }

  /** The container a node with this effective parent is filed under: unknown parents count as the process. */
  function HomeOf(nodes: seq<Node>, processId: string, link: string): string {
    if link != "" && exists sp :: sp in nodes && IsSubProcess(sp) && sp.id == link then link else processId
  }

  function Home(nodes: seq<Node>, processId: string, n: Node): string {
    HomeOf(nodes, processId, EffectiveParent(nodes, processId, n))
  }

  /** An edge is filed with its source node. */
  function EdgeHome(nodes: seq<Node>, processId: string, e: Edge): string {
    match Find(nodes, e.source)
    case None => processId
    case Some(n) => Home(nodes, processId, n)
  }

  // ---- Containers ----

  datatype Content = Content(members: seq<Node>, flows: seq<Edge>)

  function OutTag(n: Node): Tag {
    if n.tag == SubProcess && n.transaction then Transaction else n.tag
  }

  /** Pools, lanes and message flows are written elsewhere. */
  predicate Emitted(n: Node) {
    OutTag(n) != Participant && OutTag(n) != Lane && OutTag(n) != MessageFlow
  }

  function MembersAt(nodes: seq<Node>, processId: string, among: seq<Node>, c: string): (members: seq<Node>)
    ensures forall n :: n in members ==> n in among && Emitted(n) && Home(nodes, processId, n) == c
  {
    if among == [] then []
    else
      var last := among[|among| - 1];
      MembersAt(nodes, processId, among[..|among| - 1], c)
      + if Emitted(last) && Home(nodes, processId, last) == c then [last] else []
  }

  function FlowsAt(nodes: seq<Node>, processId: string, edges: seq<Edge>, c: string): seq<Edge> {
    if edges == [] then []
    else
      var last := edges[|edges| - 1];
      FlowsAt(nodes, processId, edges[..|edges| - 1], c)
      + if !last.message && EdgeHome(nodes, processId, last) == c then [last] else []
  }

  function ContainerKeys(nodes: seq<Node>, processId: string): set<string> {
    {processId} + set n | n in nodes && IsSubProcess(n) :: n.id
  }

  /** What is filed under every container. */
  ghost predicate Filled(containers: map<string, Content>, nodes: seq<Node>, edges: seq<Edge>, processId: string) {
    && containers.Keys == ContainerKeys(nodes, processId)
    && forall c :: c in containers ==>
      containers[c] == Content(MembersAt(nodes, processId, nodes, c), FlowsAt(nodes, processId, edges, c))
  }

  // ---- The document tree ----

  predicate HasTag(list: seq<Element>, tag: Tag) {
    exists e :: e in list && e.tag == tag
  }

  /** The copies whose tag the new content does not have. */
  function Leftover(copies: seq<Element>, content: seq<Element>): (kept: seq<Element>)
    ensures forall e :: e in kept <==> e in copies && !HasTag(content, e.tag)
  {
    if copies == [] then []
    else
      var rest := Leftover(copies[1..], content);
      if HasTag(content, copies[0].tag) then rest else [copies[0]] + rest
  }

  /** `Object.assign` of the content of a container over the data copied from the element it was read from. */
  function Overlay(copies: seq<Element>, content: seq<Element>): seq<Element> {
    content + Leftover(copies, content)
  }

  function FlowOf(e: Edge): Flow {
    Flow(e.id, e.source, e.target, e.sourceHandle, e.targetHandle, e.sourceHandle, e.targetHandle)
  }

  function FlowsOf(edges: seq<Edge>): (flows: seq<Flow>)
    ensures |flows| == |edges| && forall i :: 0 <= i < |edges| ==> flows[i] == FlowOf(edges[i])
  {
    seq(|edges|, i requires 0 <= i < |edges| => FlowOf(edges[i]))
  }

  function OverlayFlows(copies: seq<Flow>, content: seq<Edge>): seq<Flow> {
    if content == [] then copies else FlowsOf(content)
  }

  /** The elements below a container, nested `levels` deep. */
  function Forest(containers: map<string, Content>, processId: string, c: string, levels: nat): seq<Element>
    decreases levels, 0, 0
  {
    if levels == 0 || c !in containers then []
    else ElementsFor(containers, processId, containers[c].members, levels)
  }

  function ElementsFor(containers: map<string, Content>, processId: string, members: seq<Node>, levels: nat)
    : (elements: seq<Element>)
    requires levels > 0
    ensures |elements| == |members|
    decreases levels - 1, 1, |members|
  {
    if members == [] then []
    else
      [ElementFor(containers, processId, members[0], levels)]
      + ElementsFor(containers, processId, members[1..], levels)
  }

  function ElementFor(containers: map<string, Content>, processId: string, n: Node, levels: nat): Element
    requires levels > 0
    decreases levels - 1, 1, 0
  {
    if n.id in containers && n.id != processId then
      Element(n.id, OutTag(n),
              Overlay(n.copies, Forest(containers, processId, n.id, levels - 1)),
              OverlayFlows(n.flowCopies, containers[n.id].flows))
    else
      Element(n.id, OutTag(n), n.copies, n.flowCopies)
  }

  function ShapesOf(nodes: seq<Node>): (shapes: seq<Shape>)
    ensures |shapes| == |nodes|
    ensures forall i :: 0 <= i < |nodes| ==> shapes[i] == ShapeOf(nodes, nodes[i])
  {
    seq(|nodes|, i requires 0 <= i < |nodes| => ShapeOf(nodes, nodes[i]))
  }

  function ShapeOf(nodes: seq<Node>, n: Node): Shape {
    var p := AbsolutePosition(nodes, n.id);
    Shape(n.id, Some(Bounds(p.x, p.y, Width(n), Height(n))))
  }

  function ContainersOf(nodes: seq<Node>, edges: seq<Edge>, processId: string): (containers: map<string, Content>)
    ensures Filled(containers, nodes, edges, processId)
  {
    map c | c in ContainerKeys(nodes, processId) ::
      Content(MembersAt(nodes, processId, nodes, c), FlowsAt(nodes, processId, edges, c))
  }

  /** The document that is written. Nothing can be nested deeper than there are nodes. */
  function DocumentOf(nodes: seq<Node>, edges: seq<Edge>, processId: string): Document {
    var containers := ContainersOf(nodes, edges, processId);
    Document(processId,
             Forest(containers, processId, processId, |nodes| + 1),
             FlowsOf(containers[processId].flows),
             ShapesOf(nodes))
  }

  // ---- The generator's loops ----

  method FindCapturers(nodes: seq<Node>, n: Node) returns (around: seq<Node>)
    ensures around == Capturers(nodes, nodes, n)
  {
    around := [];
    for i := 0 to |nodes|
      invariant around == Capturers(nodes, nodes[..i], n)
    {
      assert nodes[..i + 1][..i] == nodes[..i];
      if Captures(nodes, nodes[i], n) {
        around := around + [nodes[i]];
      }
    }
    assert nodes[..|nodes|] == nodes;
  }

  method PickSmallest(list: seq<Node>) returns (smallest: Node)
    requires list != []
    ensures smallest == FirstSmallest(list)
  {
    smallest := list[0];
    for i := 1 to |list|
      invariant smallest == FirstSmallest(list[..i])
    {
      assert list[..i + 1][..i] == list[..i];
      if Area(list[i]) < Area(smallest) {
        smallest := list[i];
      }
    }
    assert list[..|list|] == list;
  }

  ghost predicate ParentFound(parents: map<string, string>, nodes: seq<Node>, processId: string, n: Node) {
    n.id in parents && parents[n.id] == EffectiveParent(nodes, processId, n)
  }

  /** `effectiveParentMap` for the whole list. */
  ghost predicate ParentsFound(parents: map<string, string>, nodes: seq<Node>, processId: string) {
    && (forall n :: n in nodes ==> ParentFound(parents, nodes, processId, n))
    && (forall id :: id in parents ==> exists n :: n in nodes && n.id == id)
  }

  method FindEffectiveParents(nodes: seq<Node>, processId: string) returns (parents: map<string, string>)
    requires DistinctIds(nodes)
    ensures ParentsFound(parents, nodes, processId)
  {
    parents := map[];
    for i := 0 to |nodes|
      invariant forall j :: 0 <= j < i ==>
        nodes[j].id in parents && parents[nodes[j].id] == EffectiveParent(nodes, processId, nodes[j])
      invariant forall id :: id in parents ==> exists n :: n in nodes && n.id == id
    {
      var n := nodes[i];
      if n.parent != "" {
        parents := parents[n.id := n.parent];
      } else {
        var around := FindCapturers(nodes, n);
        if around == [] {
          parents := parents[n.id := processId];
        } else {
          var smallest := PickSmallest(around);
          parents := parents[n.id := smallest.id];
        }
      }
    }
  }

  lemma HomeIsContainer(nodes: seq<Node>, processId: string, n: Node)
    ensures Home(nodes, processId, n) in ContainerKeys(nodes, processId)
  {
  }

  lemma EdgeHomeIsContainer(nodes: seq<Node>, processId: string, e: Edge)
    ensures EdgeHome(nodes, processId, e) in ContainerKeys(nodes, processId)
  {
    match Find(nodes, e.source)
    case None =>
    case Some(n) => HomeIsContainer(nodes, processId, n);
  }

  /** The containers when the first `i` nodes and the first `j` edges have been filed. */
  ghost predicate FilledUpTo(containers: map<string, Content>, nodes: seq<Node>, edges: seq<Edge>, processId: string,
                             i: nat, j: nat)
    requires i <= |nodes| && j <= |edges|
  {
    containers.Keys == ContainerKeys(nodes, processId)
    && forall c :: c in containers ==> FiledAt(containers[c], nodes, edges[..j], processId, i, c)
  }

  ghost predicate FiledAt(content: Content, nodes: seq<Node>, edges: seq<Edge>, processId: string, i: nat, c: string)
    requires i <= |nodes|
  {
    content == Content(MembersAt(nodes, processId, nodes[..i], c), FlowsAt(nodes, processId, edges, c))
  }

  lemma NextMember(nodes: seq<Node>, processId: string, i: nat, c: string)
    requires i < |nodes|
    ensures MembersAt(nodes, processId, nodes[..i + 1], c) ==
      MembersAt(nodes, processId, nodes[..i], c)
      + if Emitted(nodes[i]) && Home(nodes, processId, nodes[i]) == c then [nodes[i]] else []
  {
    assert nodes[..i + 1][..i] == nodes[..i];
  }

  lemma NextFlow(nodes: seq<Node>, processId: string, edges: seq<Edge>, j: nat, c: string)
    requires j < |edges|
    ensures FlowsAt(nodes, processId, edges[..j + 1], c) ==
      FlowsAt(nodes, processId, edges[..j], c)
      + if !edges[j].message && EdgeHome(nodes, processId, edges[j]) == c then [edges[j]] else []
  {
    assert edges[..j + 1][..j] == edges[..j];
  }

  method FileNode(containers: map<string, Content>, nodes: seq<Node>, ghost edges: seq<Edge>, processId: string,
                  i: nat, link: string)
    returns (after: map<string, Content>)
    requires i < |nodes| && link == EffectiveParent(nodes, processId, nodes[i])
    requires FilledUpTo(containers, nodes, edges, processId, i, 0)
    ensures FilledUpTo(after, nodes, edges, processId, i + 1, 0)
  {
    var n := nodes[i];
    HomeIsContainer(nodes, processId, n);
    after := containers;
    if Emitted(n) {
      var home := if link != "" && link in containers then link else processId;
      assert home == Home(nodes, processId, n);
      after := containers[home := containers[home].(members := containers[home].members + [n])];
    }
    forall c | c in after ensures FiledAt(after[c], nodes, edges[..0], processId, i + 1, c) {
      assert FiledAt(containers[c], nodes, edges[..0], processId, i, c);
      NextMember(nodes, processId, i, c);
    }
  }

  /** What `effectiveParentMap` says of the source of an edge leads to the same container. */
  lemma LinkLeadsHome(nodes: seq<Node>, processId: string, parents: map<string, string>, e: Edge)
    requires DistinctIds(nodes) && ParentsFound(parents, nodes, processId)
    ensures
      var link := if e.source in parents then parents[e.source] else "";
      EdgeHome(nodes, processId, e) == if link != "" && link in ContainerKeys(nodes, processId) then link else processId
  {
    match Find(nodes, e.source)
    case None =>
    case Some(n) => assert ParentFound(parents, nodes, processId, n);
  }

  method FileEdge(containers: map<string, Content>, nodes: seq<Node>, edges: seq<Edge>, processId: string,
                  j: nat, parents: map<string, string>)
    returns (after: map<string, Content>)
    requires j < |edges| && DistinctIds(nodes) && ParentsFound(parents, nodes, processId)
    requires FilledUpTo(containers, nodes, edges, processId, |nodes|, j)
    ensures FilledUpTo(after, nodes, edges, processId, |nodes|, j + 1)
  {
    var e := edges[j];
    after := containers;
    if !e.message {
      var link := if e.source in parents then parents[e.source] else "";
      var home := if link != "" && link in containers then link else processId;
      LinkLeadsHome(nodes, processId, parents, e);
      after := FileEdgeAt(containers, nodes, edges, processId, j, home);
    } else {
      MessageFlowChangesNothing(containers, nodes, edges, processId, j);
    }
  }

  lemma MessageFlowChangesNothing(containers: map<string, Content>, nodes: seq<Node>, edges: seq<Edge>,
                                  processId: string, j: nat)
    requires j < |edges| && edges[j].message && FilledUpTo(containers, nodes, edges, processId, |nodes|, j)
    ensures FilledUpTo(containers, nodes, edges, processId, |nodes|, j + 1)
  {
    forall c | c in containers ensures FiledAt(containers[c], nodes, edges[..j + 1], processId, |nodes|, c) {
      assert FiledAt(containers[c], nodes, edges[..j], processId, |nodes|, c);
      NextFlow(nodes, processId, edges, j, c);
    }
  }

  method FileEdgeAt(containers: map<string, Content>, ghost nodes: seq<Node>, edges: seq<Edge>, ghost processId: string,
                    j: nat, home: string)
    returns (after: map<string, Content>)
    requires j < |edges| && !edges[j].message && home == EdgeHome(nodes, processId, edges[j])
    requires FilledUpTo(containers, nodes, edges, processId, |nodes|, j)
    ensures FilledUpTo(after, nodes, edges, processId, |nodes|, j + 1)
  {
    EdgeHomeIsContainer(nodes, processId, edges[j]);
    after := containers[home := containers[home].(flows := containers[home].flows + [edges[j]])];
    forall c | c in after ensures FiledAt(after[c], nodes, edges[..j + 1], processId, |nodes|, c) {
      assert FiledAt(containers[c], nodes, edges[..j], processId, |nodes|, c);
      NextFlow(nodes, processId, edges, j, c);
    }
  }

  /** Files every node and every sequence flow under its container. */
  method FillContainers(nodes: seq<Node>, edges: seq<Edge>, processId: string)
    returns (containers: map<string, Content>)
    requires DistinctIds(nodes)
    ensures Filled(containers, nodes, edges, processId)
  {
    var parents := FindEffectiveParents(nodes, processId);
    containers := map c | c in ContainerKeys(nodes, processId) :: Content([], []);
    assert FilledUpTo(containers, nodes, edges, processId, 0, 0) by {
      assert nodes[..0] == [] && edges[..0] == [];
    }
    for i := 0 to |nodes|
      invariant FilledUpTo(containers, nodes, edges, processId, i, 0)
    {
      assert ParentFound(parents, nodes, processId, nodes[i]);
      containers := FileNode(containers, nodes, edges, processId, i, parents[nodes[i].id]);
    }
    for j := 0 to |edges|
      invariant FilledUpTo(containers, nodes, edges, processId, |nodes|, j)
    {
      containers := FileEdge(containers, nodes, edges, processId, j, parents);
    }
    assert nodes[..|nodes|] == nodes && edges[..|edges|] == edges;
    forall c | c in containers
      ensures containers[c] ==
        Content(MembersAt(nodes, processId, nodes, c), FlowsAt(nodes, processId, edges, c))
    {
      assert FiledAt(containers[c], nodes, edges, processId, |nodes|, c);
    }
  }

  method Generate(nodes: seq<Node>, edges: seq<Edge>, processId: string) returns (doc: Document)
    requires DistinctIds(nodes)
    ensures doc == DocumentOf(nodes, edges, processId)
  {
    var containers := FillContainers(nodes, edges, processId);
    assert containers == ContainersOf(nodes, edges, processId);
    doc := Document(processId,
                    Forest(containers, processId, processId, |nodes| + 1),
                    FlowsOf(containers[processId].flows),
                    ShapesOf(nodes));
  }
}
