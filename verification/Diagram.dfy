/**
 BPMN diagrams in their two forms: the document, a tree of elements with a separate list of shapes,
 and the editor's flat list of nodes with parent links and relative coordinates.
 */
module Diagram {
  import opened Options

  datatype Tag =
    | StartEvent | EndEvent | UserTask | ServiceTask | SendTask | ScriptTask | BusinessRuleTask | ReceiveTask
    | ManualTask | ExclusiveGateway | ParallelGateway | InclusiveGateway | EventBasedGateway
    | IntermediateCatchEvent | IntermediateThrowEvent | BoundaryEvent | CallActivity | SubProcess | Transaction
    | DataObject | DataObjectReference | DataStoreReference | TextAnnotation | Group | Association | Lane
    | Participant | MessageFlow | OtherTag(name: string)

  datatype Kind = FlowNode(tag: Tag) | SubProcessNode | VisualArtifact

  /** A sequence flow as the document holds it. An empty string is a missing attribute. */
  datatype Flow = Flow(
    id: string, source: string, target: string,
    connectorSource: string, connectorTarget: string,
    attributeSource: string, attributeTarget: string)

  /**
   An element with its nested elements and flows. The document groups the nested elements by tag; their order
   within a tag is the order of `kids`, the order between tags is not kept by the source.
   */
  datatype Element = Element(id: string, tag: Tag, kids: seq<Element>, flows: seq<Flow>)

  datatype Bounds = Bounds(x: real, y: real, width: real, height: real)

  datatype Shape = Shape(element: string, bounds: Option<Bounds>)

  datatype Document = Document(processId: string, kids: seq<Element>, flows: seq<Flow>, shapes: seq<Shape>)

  /**
   A node of the editor. `parent` is empty for a node without parent link. The data of a node keeps copies of
   the elements and flows nested in the element it was read from.
   */
  datatype Node = Node(
    id: string, kind: Kind, tag: Tag, transaction: bool, parent: string,
    x: real, y: real, width: real, height: real,
    copies: seq<Element>, flowCopies: seq<Flow>)

  /** `message` marks a message flow between pools, which is not a sequence flow. */
  datatype Edge = Edge(
    id: string, source: string, target: string, sourceHandle: string, targetHandle: string, message: bool)

  const TYPE_COUNT := 27

  /** The elements the parser looks for, in this order. */
  function TypeAt(t: nat): Tag
    requires t < TYPE_COUNT
  {
    if t == 0 then StartEvent else if t == 1 then EndEvent else if t == 2 then UserTask else
    if t == 3 then ServiceTask else if t == 4 then SendTask else if t == 5 then ScriptTask else
    if t == 6 then BusinessRuleTask else if t == 7 then ReceiveTask else if t == 8 then ManualTask else
    if t == 9 then ExclusiveGateway else if t == 10 then ParallelGateway else if t == 11 then InclusiveGateway else
    if t == 12 then EventBasedGateway else if t == 13 then IntermediateCatchEvent else
    if t == 14 then IntermediateThrowEvent else
    if t == 15 then BoundaryEvent else if t == 16 then CallActivity else if t == 17 then SubProcess else
    if t == 18 then Transaction else if t == 19 then DataObject else if t == 20 then DataObjectReference else
    if t == 21 then DataStoreReference else if t == 22 then TextAnnotation else if t == 23 then Group else
    if t == 24 then Association else if t == 25 then Lane else Participant
  }

  /** The node type an element becomes. */
  function KindOf(tag: Tag): Kind {
    match tag
    case SubProcess | Transaction => SubProcessNode
    case DataObject | DataObjectReference | DataStoreReference | TextAnnotation
       | Group | Association | Lane | Participant | MessageFlow => VisualArtifact
    case _ => FlowNode(tag)
  }

  /** The elements whose content is parsed too. */
  predicate HasContent(tag: Tag) {
    tag == SubProcess || tag == Transaction
  }

  /** The size of an element without a shape. It goes by the words in the tag, so an event-based gateway is an event. */
  function DefaultSize(tag: Tag): (real, real) {
    match tag
    case StartEvent | EndEvent | IntermediateCatchEvent | IntermediateThrowEvent | BoundaryEvent
       | EventBasedGateway => (36.0, 36.0)
    case ExclusiveGateway | ParallelGateway | InclusiveGateway => (50.0, 50.0)
    case SubProcess | Transaction => (200.0, 150.0)
    case _ => (100.0, 80.0)
  }

  /** Only the first shape of an element counts. */
  function ShapeBounds(shapes: seq<Shape>, id: string): Option<Bounds> {
    if shapes == [] then None
    else if shapes[0].element == id then shapes[0].bounds
    else ShapeBounds(shapes[1..], id)
  }

  function GetBounds(shapes: seq<Shape>, id: string, tag: Tag): Bounds {
    match ShapeBounds(shapes, id)
    case Some(b) => b
    case None => var (w, h) := DefaultSize(tag); Bounds(0.0, 0.0, w, h)
  }

  predicate IsSubProcess(n: Node) {
    n.kind == SubProcessNode || HasContent(n.tag) || n.transaction
  }

  ghost predicate DistinctIds(nodes: seq<Node>) {
    forall i, j :: 0 <= i < j < |nodes| ==> nodes[i].id != nodes[j].id
  }

  function IdSet(nodes: seq<Node>): set<string> {
    set n | n in nodes :: n.id
  }
}
