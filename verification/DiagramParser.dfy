/** Reading a document: nested elements become a flat list of nodes with relative coordinates. */
module DiagramParser {
  import opened Options
  import opened Diagram

  // ---- The order in which a container is read ----

  function OfTag(kids: seq<Element>, tag: Tag): seq<Element> {
    if kids == [] then []
    else
      var last := kids[|kids| - 1];
      OfTag(kids[..|kids| - 1], tag) + if last.tag == tag then [last] else []
  }

  function OfTags(kids: seq<Element>, t: nat): seq<Element>
    requires t <= TYPE_COUNT
  {
    if t == 0 then [] else OfTags(kids, t - 1) + OfTag(kids, TypeAt(t - 1))
  }

  /** The elements of a container that the parser reads, in reading order. */
  function Read(kids: seq<Element>): seq<Element> {
    OfTags(kids, TYPE_COUNT)
  }

  lemma {:induction false} OfTagSelects(kids: seq<Element>, tag: Tag)
    ensures forall e :: e in OfTag(kids, tag) ==> e in kids && e.tag == tag
  {
    if kids == [] {
    } else {
      OfTagSelects(kids[..|kids| - 1], tag);
    }
  }

  lemma {:induction false} OfTagsSelects(kids: seq<Element>, t: nat)
    requires t <= TYPE_COUNT
    ensures forall e :: e in OfTags(kids, t) ==> e in kids
  {
    if t > 0 {
      OfTagsSelects(kids, t - 1);
      OfTagSelects(kids, TypeAt(t - 1));
    }
  }

  function Max(a: nat, b: nat): nat {
    if a > b then a else b
  }

  /** How deep the elements are nested. */
  function Depth(kids: seq<Element>): nat {
    if kids == [] then 0 else Max(1 + Depth(kids[0].kids), Depth(kids[1..]))
  }

  lemma {:induction false} KidIsShallower(kids: seq<Element>, e: Element)
    requires e in kids
    ensures Depth(e.kids) < Depth(kids)
  {
    if e == kids[0] {
    } else {
      KidIsShallower(kids[1..], e);
    }
  }

  lemma {:induction false} SelectionIsNoDeeper(some: seq<Element>, kids: seq<Element>)
    requires forall e :: e in some ==> e in kids
    ensures Depth(some) <= Depth(kids)
  {
    if some == [] {
    } else {
      assert some[0] in kids;
      KidIsShallower(kids, some[0]);
      SelectionIsNoDeeper(some[1..], kids);
    }
  }

  lemma ReadIsNoDeeper(kids: seq<Element>)
    ensures Depth(Read(kids)) <= Depth(kids)
  {
    OfTagsSelects(kids, TYPE_COUNT);
    SelectionIsNoDeeper(Read(kids), kids);
  }

  /** The node for one element. With a parent, its position is relative to the parent's box. */
  function NodeOf(shapes: seq<Shape>, e: Element, parent: string): Node {
    var b := GetBounds(shapes, e.id, e.tag);
    var origin := if parent != "" then GetBounds(shapes, parent, SubProcess) else Bounds(0.0, 0.0, 0.0, 0.0);
    Node(e.id, KindOf(e.tag), e.tag, e.tag == Transaction, parent,
         b.x - origin.x, b.y - origin.y, b.width, b.height, e.kids, e.flows)
  }

  function FirstNonEmpty(a: string, b: string, c: string): string {
    if a != "" then a else if b != "" then b else c
  }

  function EdgeOf(f: Flow): Edge {
    Edge(f.id, f.source, f.target,
         FirstNonEmpty(f.connectorSource, f.attributeSource, "right"),
         FirstNonEmpty(f.connectorTarget, f.attributeTarget, "left"),
         false)
  }

  function EdgesOf(flows: seq<Flow>): (edges: seq<Edge>)
    ensures |edges| == |flows| && forall i :: 0 <= i < |flows| ==> edges[i] == EdgeOf(flows[i])
  {
    seq(|flows|, i requires 0 <= i < |flows| => EdgeOf(flows[i]))
  }

  /** Every node of a container: each element is followed by what is nested in it. */
  function NodesIn(shapes: seq<Shape>, kids: seq<Element>, parent: string): seq<Node>
    decreases Depth(kids), 1, 0
  {
    ReadIsNoDeeper(kids);
    NodesOf(shapes, Read(kids), parent)
  }

  function NodesOf(shapes: seq<Shape>, list: seq<Element>, parent: string): seq<Node>
    decreases Depth(list), 0, |list|
  {
    if list == [] then []
    else
      [NodeOf(shapes, list[0], parent)] + Nested(shapes, list[0]) + NodesOf(shapes, list[1..], parent)
  }

  function Nested(shapes: seq<Shape>, e: Element): seq<Node>
    decreases Depth(e.kids), 2, 0
  {
    if HasContent(e.tag) then NodesIn(shapes, e.kids, e.id) else []
  }

  /** Every edge of a container: those of nested containers come before its own. */
  function EdgesIn(kids: seq<Element>, flows: seq<Flow>): seq<Edge>
    decreases Depth(kids), 1, 0
  {
    ReadIsNoDeeper(kids);
    EdgesBelow(Read(kids)) + EdgesOf(flows)
  }

  function EdgesBelow(list: seq<Element>): seq<Edge>
    decreases Depth(list), 0, |list|
  {
    if list == [] then []
    else (if HasContent(list[0].tag) then EdgesIn(list[0].kids, list[0].flows) else []) + EdgesBelow(list[1..])
  }

  // ---- The parser's loops ----

  lemma {:induction false} NodesOfAppend(shapes: seq<Shape>, list: seq<Element>, more: seq<Element>, parent: string)
    ensures NodesOf(shapes, list + more, parent) == NodesOf(shapes, list, parent) + NodesOf(shapes, more, parent)
  {
    if list == [] {
      assert list + more == more;
    } else {
      assert (list + more)[0] == list[0] && (list + more)[1..] == list[1..] + more;
      NodesOfAppend(shapes, list[1..], more, parent);
    }
  }

  lemma {:induction false} EdgesBelowAppend(list: seq<Element>, more: seq<Element>)
    ensures EdgesBelow(list + more) == EdgesBelow(list) + EdgesBelow(more)
  {
    if list == [] {
      assert list + more == more;
    } else {
      assert (list + more)[0] == list[0] && (list + more)[1..] == list[1..] + more;
      EdgesBelowAppend(list[1..], more);
    }
  }

  function NestedEdges(e: Element): seq<Edge> {
    if HasContent(e.tag) then EdgesIn(e.kids, e.flows) else []
  }

  lemma OneElement(shapes: seq<Shape>, e: Element, parent: string)
    ensures NodesOf(shapes, [e], parent) == [NodeOf(shapes, e, parent)] + Nested(shapes, e)
    ensures EdgesBelow([e]) == NestedEdges(e)
  {
    assert [e][1..] == [];
  }

  lemma ReadNextTag(shapes: seq<Shape>, kids: seq<Element>, t: nat, parent: string)
    requires t < TYPE_COUNT
    ensures NodesOf(shapes, OfTags(kids, t + 1), parent) ==
      NodesOf(shapes, OfTags(kids, t), parent) + NodesOf(shapes, OfTag(kids, TypeAt(t)), parent)
    ensures EdgesBelow(OfTags(kids, t + 1)) == EdgesBelow(OfTags(kids, t)) + EdgesBelow(OfTag(kids, TypeAt(t)))
  {
    NodesOfAppend(shapes, OfTags(kids, t), OfTag(kids, TypeAt(t)), parent);
    EdgesBelowAppend(OfTags(kids, t), OfTag(kids, TypeAt(t)));
  }

  lemma ReadNextElement(shapes: seq<Shape>, kids: seq<Element>, tag: Tag, i: nat, parent: string)
    requires i < |kids|
    ensures NodesOf(shapes, OfTag(kids[..i + 1], tag), parent) ==
      NodesOf(shapes, OfTag(kids[..i], tag), parent)
      + if kids[i].tag == tag then NodesOf(shapes, [kids[i]], parent) else []
    ensures EdgesBelow(OfTag(kids[..i + 1], tag)) ==
      EdgesBelow(OfTag(kids[..i], tag)) + if kids[i].tag == tag then EdgesBelow([kids[i]]) else []
  {
    assert kids[..i + 1][..i] == kids[..i];
    var before := OfTag(kids[..i], tag);
    if kids[i].tag == tag {
      assert OfTag(kids[..i + 1], tag) == before + [kids[i]];
      NodesOfAppend(shapes, before, [kids[i]], parent);
      EdgesBelowAppend(before, [kids[i]]);
    } else {
      assert OfTag(kids[..i + 1], tag) == before;
    }
  }

  lemma Assoc<T>(a: seq<T>, b: seq<T>, c: seq<T>)
    ensures a + b + c == a + (b + c)
  {
  }

  class Parser {
    const shapes: seq<Shape>
    var nodes: seq<Node>
    var edges: seq<Edge>

    constructor (shapes: seq<Shape>)
      ensures this.shapes == shapes && nodes == [] && edges == []
    {
      this.shapes := shapes;
      nodes, edges := [], [];
    }

    /** Reads a container and everything nested in it. */
    method ParseContainer(kids: seq<Element>, flows: seq<Flow>, parent: string)
      modifies this
      ensures nodes == old(nodes) + NodesIn(shapes, kids, parent)
      ensures edges == old(edges) + EdgesIn(kids, flows)
      decreases kids, 2
    {
      for t := 0 to TYPE_COUNT
        invariant nodes == old(nodes) + NodesOf(shapes, OfTags(kids, t), parent)
        invariant edges == old(edges) + EdgesBelow(OfTags(kids, t))
      {
        ParseTag(kids, TypeAt(t), parent);
        ReadNextTag(shapes, kids, t, parent);
        Assoc(old(nodes), NodesOf(shapes, OfTags(kids, t), parent), NodesOf(shapes, OfTag(kids, TypeAt(t)), parent));
        Assoc(old(edges), EdgesBelow(OfTags(kids, t)), EdgesBelow(OfTag(kids, TypeAt(t))));
      }
      ParseFlows(flows);
      Assoc(old(edges), EdgesBelow(Read(kids)), EdgesOf(flows));
    }

    /** Reads the elements of one tag. */
    method ParseTag(kids: seq<Element>, tag: Tag, parent: string)
      modifies this
      ensures nodes == old(nodes) + NodesOf(shapes, OfTag(kids, tag), parent)
      ensures edges == old(edges) + EdgesBelow(OfTag(kids, tag))
      decreases kids, 1
    {
      for i := 0 to |kids|
        invariant nodes == old(nodes) + NodesOf(shapes, OfTag(kids[..i], tag), parent)
        invariant edges == old(edges) + EdgesBelow(OfTag(kids[..i], tag))
      {
        ReadNextElement(shapes, kids, tag, i, parent);
        if kids[i].tag == tag {
          ParseElement(kids[i], parent);
          Assoc(old(nodes), NodesOf(shapes, OfTag(kids[..i], tag), parent), NodesOf(shapes, [kids[i]], parent));
          Assoc(old(edges), EdgesBelow(OfTag(kids[..i], tag)), EdgesBelow([kids[i]]));
        }
      }
      assert kids[..|kids|] == kids;
    }

    method ParseElement(e: Element, parent: string)
      modifies this
      ensures nodes == old(nodes) + NodesOf(shapes, [e], parent)
      ensures edges == old(edges) + EdgesBelow([e])
      decreases e
    {
      OneElement(shapes, e, parent);
      nodes := nodes + [NodeOf(shapes, e, parent)];
      if HasContent(e.tag) {
        ParseContainer(e.kids, e.flows, e.id);
        Assoc(old(nodes), [NodeOf(shapes, e, parent)], Nested(shapes, e));
      } else {
        assert [NodeOf(shapes, e, parent)] + [] == [NodeOf(shapes, e, parent)];
      }
    }

    method ParseFlows(flows: seq<Flow>)
      modifies this`edges
      ensures edges == old(edges) + EdgesOf(flows)
    {
      for i := 0 to |flows|
        invariant edges == old(edges) + EdgesOf(flows)[..i]
      {
        edges := edges + [EdgeOf(flows[i])];
      }
    }
  }
}
