/**
 Where the generator files what the parser has read: every node and flow goes back to the container it was read
 from, in reading order, and adding up relative coordinates gives back the corners of the shapes.
 */
module DiagramFiling {
  import opened Options
  import opened Diagram
  import opened DiagramParser
  import opened DiagramGenerator
  import opened DiagramBoxes

  // ---- Reading order ----

  /** The position of a tag in the table, or its length for a tag that is not read. */
  function TypeIndex(tag: Tag): nat {
    match tag
    case StartEvent => 0 case EndEvent => 1 case UserTask => 2 case ServiceTask => 3 case SendTask => 4
    case ScriptTask => 5 case BusinessRuleTask => 6 case ReceiveTask => 7 case ManualTask => 8
    case ExclusiveGateway => 9 case ParallelGateway => 10 case InclusiveGateway => 11 case EventBasedGateway => 12
    case IntermediateCatchEvent => 13 case IntermediateThrowEvent => 14 case BoundaryEvent => 15
    case CallActivity => 16 case SubProcess => 17 case Transaction => 18 case DataObject => 19
    case DataObjectReference => 20 case DataStoreReference => 21 case TextAnnotation => 22 case Group => 23
    case Association => 24 case Lane => 25 case Participant => 26
    case MessageFlow => 27 case OtherTag(_) => 27
  }

  lemma TableIsIndexed(i: nat)
    requires i < TYPE_COUNT
    ensures TypeIndex(TypeAt(i)) == i
  {
  }

  lemma {:induction false} OfTagAppend(a: seq<Element>, b: seq<Element>, tag: Tag)
    ensures OfTag(a + b, tag) == OfTag(a, tag) + OfTag(b, tag)
  {
    if b == [] {
      assert a + b == a;
    } else {
      var last := |b| - 1;
      assert (a + b)[..|a + b| - 1] == a + b[..last];
      OfTagAppend(a, b[..last], tag);
    }
  }

  lemma {:induction false} OfTagOfNone(a: seq<Element>, tag: Tag)
    requires forall e :: e in a ==> e.tag != tag
    ensures OfTag(a, tag) == []
  {
    if a == [] {
    } else {
      assert a[|a| - 1] in a;
      OfTagOfNone(a[..|a| - 1], tag);
    }
  }

  lemma {:induction false} OfTagOfAll(a: seq<Element>, tag: Tag)
    requires forall e :: e in a ==> e.tag == tag
    ensures OfTag(a, tag) == a
  {
    if a == [] {
    } else {
      assert a[|a| - 1] in a;
      OfTagOfAll(a[..|a| - 1], tag);
    }
  }

  /** Elements that are read later, or not at all, make no difference. */
  lemma {:induction false} LaterTagsAreSkipped(a: seq<Element>, b: seq<Element>, t: nat)
    requires t <= TYPE_COUNT && forall e :: e in b ==> TypeIndex(e.tag) >= t
    ensures OfTags(a + b, t) == OfTags(a, t)
  {
    if t == 0 {
    } else {
      var tag := TypeAt(t - 1);
      TableIsIndexed(t - 1);
      calc {
        OfTags(a + b, t);
        OfTags(a + b, t - 1) + OfTag(a + b, tag);
        { LaterTagsAreSkipped(a, b, t - 1); }
        OfTags(a, t - 1) + OfTag(a + b, tag);
        { OfTagAppend(a, b, tag); OfTagOfNone(b, tag); assert OfTag(a, tag) + [] == OfTag(a, tag); }
        OfTags(a, t - 1) + OfTag(a, tag);
        OfTags(a, t);
      }
    }
  }

  ghost predicate SameTags(a: seq<Element>, b: seq<Element>) {
    |a| == |b| && forall i :: 0 <= i < |a| ==> a[i].tag == b[i].tag
  }

  lemma {:induction false} OfTagsTags(kids: seq<Element>, t: nat)
    requires t <= TYPE_COUNT
    ensures forall e :: e in OfTags(kids, t) ==> TypeIndex(e.tag) < t
  {
    if t > 0 {
      OfTagsTags(kids, t - 1);
      TableIsIndexed(t - 1);
      OfTagSelects(kids, TypeAt(t - 1));
    }
  }

  lemma SameTagsGivesTags(a: seq<Element>, b: seq<Element>, e: Element) returns (other: Element)
    requires SameTags(a, b) && e in a
    ensures other in b && other.tag == e.tag
  {
    var i :| 0 <= i < |a| && a[i] == e;
    other := b[i];
  }

  lemma SplitTags(list: seq<Element>, before: seq<Element>, of: seq<Element>)
    requires SameTags(list, before + of)
    ensures SameTags(list[..|before|], before) && SameTags(list[|before|..], of)
    ensures list == list[..|before|] + list[|before|..]
  {
    forall i | 0 <= i < |before| ensures list[..|before|][i].tag == before[i].tag {
      assert (before + of)[i] == before[i];
    }
    forall i | 0 <= i < |of| ensures list[|before|..][i].tag == of[i].tag {
      assert (before + of)[|before| + i] == of[i];
    }
  }

  /** A list whose tags come in reading order is read as it is. */
  lemma {:induction false} SortedIsReadAsIs(list: seq<Element>, kids: seq<Element>, t: nat)
    requires t <= TYPE_COUNT && SameTags(list, OfTags(kids, t))
    ensures OfTags(list, t) == list
    decreases t
  {
    if t == 0 {
    } else {
      var tag := TypeAt(t - 1);
      TableIsIndexed(t - 1);
      var before, of := OfTags(kids, t - 1), OfTag(kids, tag);
      SplitTags(list, before, of);
      var a, b := list[..|before|], list[|before|..];
      SortedIsReadAsIs(a, kids, t - 1);
      OfTagsTags(kids, t - 1);
      OfTagSelects(kids, tag);
      forall e | e in b ensures e.tag == tag {
        var other := SameTagsGivesTags(b, of, e);
      }
      forall e | e in a ensures e.tag != tag {
        var other := SameTagsGivesTags(a, before, e);
      }
      BlockIsRead(a, b, tag, t - 1);
    }
  }

  lemma BlockIsRead(a: seq<Element>, b: seq<Element>, tag: Tag, t: nat)
    requires t < TYPE_COUNT && tag == TypeAt(t) && TypeIndex(tag) == t && OfTags(a, t) == a
    requires (forall e :: e in b ==> e.tag == tag) && (forall e :: e in a ==> e.tag != tag)
    ensures OfTags(a, t) == a && OfTags(a + b, t) == a && OfTag(a + b, tag) == b
  {
    LaterTagsAreSkipped(a, b, t);
    OfTagAppend(a, b, tag);
    OfTagOfNone(a, tag);
    OfTagOfAll(b, tag);
  }

  lemma {:induction false} OfTagFinds(kids: seq<Element>, e: Element)
    requires e in kids
    ensures e in OfTag(kids, e.tag)
  {
    var last := kids[|kids| - 1];
    if e != last {
      assert e in kids[..|kids| - 1];
      OfTagFinds(kids[..|kids| - 1], e);
    }
  }

  lemma {:induction false} OfTagsFinds(kids: seq<Element>, e: Element, t: nat)
    requires t <= TYPE_COUNT && e in kids && TypeIndex(e.tag) < t
    ensures e in OfTags(kids, t)
  {
    TableIsIndexed(t - 1);
    if TypeIndex(e.tag) == t - 1 {
      TagAtIndex(e.tag);
      OfTagFinds(kids, e);
    } else {
      OfTagsFinds(kids, e, t - 1);
    }
  }

  lemma TagAtIndex(tag: Tag)
    requires TypeIndex(tag) < TYPE_COUNT
    ensures TypeAt(TypeIndex(tag)) == tag
  {
  }

  /** Copies that are left over from an unedited container are never read. */
  lemma OverlayIsReadAsContent(copies: seq<Element>, content: seq<Element>)
    requires SameTags(content, Read(copies))
    ensures Read(Overlay(copies, content)) == content
  {
    forall e | e in copies && TypeIndex(e.tag) < TYPE_COUNT ensures HasTag(content, e.tag) {
      OfTagsFinds(copies, e, TYPE_COUNT);
      var i :| 0 <= i < |Read(copies)| && Read(copies)[i] == e;
      assert content[i] in content && content[i].tag == e.tag;
    }
    LaterTagsAreSkipped(content, Leftover(copies, content), TYPE_COUNT);
    SortedIsReadAsIs(content, copies, TYPE_COUNT);
  }

  // ---- Facts about the nodes that are read ----

  /** The nodes for the elements of one container, without what is nested in them. */
  function Heads(shapes: seq<Shape>, list: seq<Element>, parent: string): (heads: seq<Node>)
    ensures |heads| == |list| && forall i :: 0 <= i < |list| ==> heads[i] == NodeOf(shapes, list[i], parent)
  {
    seq(|list|, i requires 0 <= i < |list| => NodeOf(shapes, list[i], parent))
  }

  /** What every node that is read has in common; `parents` are the ids its parent link may name. */
  ghost predicate IsRead(shapes: seq<Shape>, n: Node, parent: string, nodes: seq<Node>) {
    && (exists e :: n == NodeOf(shapes, e, n.parent) && e.id == n.id)
    && (n.parent == parent || exists m :: m in nodes && m.id == n.parent && HasContent(m.tag))
  }

  lemma IsReadInMore(shapes: seq<Shape>, n: Node, inner: string, some: seq<Node>, parent: string, all: seq<Node>)
    requires IsRead(shapes, n, inner, some) && forall m :: m in some ==> m in all
    requires inner == parent || exists m :: m in all && m.id == inner && HasContent(m.tag)
    ensures IsRead(shapes, n, parent, all)
  {
  }

  lemma NestedIs(shapes: seq<Shape>, e: Element)
    ensures Nested(shapes, e) == if HasContent(e.tag) then NodesOf(shapes, Read(e.kids), e.id) else []
    ensures HasContent(e.tag) ==> Depth(Read(e.kids)) <= Depth(e.kids)
  {
    ReadIsNoDeeper(e.kids);
  }

  lemma {:induction false} NodesAreRead(shapes: seq<Shape>, list: seq<Element>, parent: string)
    ensures forall n :: n in NodesOf(shapes, list, parent) ==> IsRead(shapes, n, parent, NodesOf(shapes, list, parent))
    decreases Depth(list), 0, |list|
  {
    if list == [] {
    } else {
      var head := NodeOf(shapes, list[0], parent);
      var nested, rest := Nested(shapes, list[0]), NodesOf(shapes, list[1..], parent);
      var all := NodesOf(shapes, list, parent);
      NodesAreRead(shapes, list[1..], parent);
      NestedIs(shapes, list[0]);
      if HasContent(list[0].tag) {
        NodesAreRead(shapes, Read(list[0].kids), list[0].id);
      }
      assert all == [head] + nested + rest;
      assert all[0] == head;
      forall n | n in all ensures IsRead(shapes, n, parent, all) {
        if n == head {
          assert head == NodeOf(shapes, list[0], head.parent);
        } else if n in nested {
          IsReadInMore(shapes, n, list[0].id, nested, parent, all);
        } else {
          IsReadInMore(shapes, n, parent, rest, parent, all);
        }
      }
    }
  }

  /** A parent stands before its children. */
  ghost predicate ParentsFirst(nodes: seq<Node>, parent: string) {
    forall i :: 0 <= i < |nodes| ==> HasEarlierParent(nodes, i, parent)
  }

  ghost predicate HasEarlierParent(nodes: seq<Node>, i: nat, parent: string)
    requires i < |nodes|
  {
    nodes[i].parent == parent || exists j :: 0 <= j < i && nodes[j].id == nodes[i].parent
  }

  lemma ParentsFirstAppend(a: seq<Node>, b: seq<Node>, parent: string, inner: string)
    requires ParentsFirst(a, parent) && ParentsFirst(b, inner)
    requires inner == parent || exists j :: 0 <= j < |a| && a[j].id == inner
    ensures ParentsFirst(a + b, parent)
  {
    var all := a + b;
    forall i | 0 <= i < |all| ensures HasEarlierParent(all, i, parent) {
      if i < |a| {
        assert HasEarlierParent(a, i, parent);
        if j :| 0 <= j < i && a[j].id == a[i].parent { assert all[j] == a[j]; }
      } else {
        assert HasEarlierParent(b, i - |a|, inner);
        if j :| 0 <= j < i - |a| && b[j].id == b[i - |a|].parent {
          assert all[|a| + j] == b[j];
        } else if inner != parent {
          var k :| 0 <= k < |a| && a[k].id == inner;
          assert all[k] == a[k];
        }
      }
    }
  }

  lemma {:induction false} ReadParentsFirst(shapes: seq<Shape>, list: seq<Element>, parent: string)
    ensures ParentsFirst(NodesOf(shapes, list, parent), parent)
    decreases Depth(list), 0, |list|
  {
    if list == [] {
    } else {
      var head := [NodeOf(shapes, list[0], parent)];
      var nested := Nested(shapes, list[0]);
      ReadParentsFirst(shapes, list[1..], parent);
      NestedIs(shapes, list[0]);
      if HasContent(list[0].tag) {
        ReadParentsFirst(shapes, Read(list[0].kids), list[0].id);
      }
      assert head[0].id == list[0].id;
      ParentsFirstAppend(head, nested, parent, list[0].id);
      ParentsFirstAppend(head + nested, NodesOf(shapes, list[1..], parent), parent, parent);
    }
  }

  // ---- Absolute positions ----

  function Corner(shapes: seq<Shape>, id: string): Point {
    var b := GetBounds(shapes, id, SubProcess);
    Point(b.x, b.y)
  }

  lemma CornerIgnoresTag(shapes: seq<Shape>, id: string, tag: Tag)
    ensures Corner(shapes, id) == Point(GetBounds(shapes, id, tag).x, GetBounds(shapes, id, tag).y)
  {
  }

  /** The coordinates of a node are relative to the corner of its parent's shape. */
  ghost predicate AtCorner(shapes: seq<Shape>, n: Node) {
    var here, origin := Corner(shapes, n.id), Corner(shapes, n.parent);
    && n.x == here.x - (if n.parent != "" then origin.x else 0.0)
    && n.y == here.y - (if n.parent != "" then origin.y else 0.0)
  }

  lemma ReadAtCorner(shapes: seq<Shape>, n: Node, parent: string, nodes: seq<Node>)
    requires IsRead(shapes, n, parent, nodes)
    ensures AtCorner(shapes, n)
  {
    var e :| n == NodeOf(shapes, e, n.parent) && e.id == n.id;
    CornerIgnoresTag(shapes, n.id, e.tag);
  }

  /** Adding up relative positions gives back the corner of the shape. */
  lemma {:induction false} PositionIsCorner(shapes: seq<Shape>, nodes: seq<Node>, i: nat, links: nat)
    requires DistinctIds(nodes) && ParentsFirst(nodes, "") && i < |nodes| && links >= i
    requires forall n :: n in nodes ==> AtCorner(shapes, n)
    ensures Position(nodes, nodes[i].id, links) == Corner(shapes, nodes[i].id)
    decreases i
  {
    var n := nodes[i];
    assert n in nodes;
    FindItself(nodes, n);
    if n.parent != "" {
      assert HasEarlierParent(nodes, i, "");
      var j :| 0 <= j < i && nodes[j].id == n.parent;
      PositionIsCorner(shapes, nodes, j, links - 1);
    }
  }

  // ---- Homes ----

  /** The container a node is read from. */
  function Slot(processId: string, n: Node): string {
    if n.parent == "" then processId else n.parent
  }

  ghost predicate NothingCaptured(nodes: seq<Node>) {
    forall n, sp :: n in nodes && sp in nodes && n.parent == "" ==> !IsAround(nodes, sp, n)
  }

  lemma HomeIsSlot(shapes: seq<Shape>, nodes: seq<Node>, processId: string, n: Node)
    requires NothingCaptured(nodes) && n in nodes && IsRead(shapes, n, "", nodes)
    ensures Home(nodes, processId, n) == Slot(processId, n)
  {
    if n.parent == "" {
      NoneAround(nodes, n);
    } else {
      var m :| m in nodes && m.id == n.parent && HasContent(m.tag);
      assert IsSubProcess(m);
    }
  }

  function InSlot(nodes: seq<Node>, processId: string, c: string): seq<Node> {
    if nodes == [] then []
    else
      var last := nodes[|nodes| - 1];
      InSlot(nodes[..|nodes| - 1], processId, c) + if Slot(processId, last) == c then [last] else []
  }

  lemma {:induction false} MembersAreInSlot(shapes: seq<Shape>, nodes: seq<Node>, processId: string, i: nat, c: string)
    requires NothingCaptured(nodes) && i <= |nodes|
    requires forall n :: n in nodes ==> IsRead(shapes, n, "", nodes) && Emitted(n)
    ensures MembersAt(nodes, processId, nodes[..i], c) == InSlot(nodes[..i], processId, c)
  {
    if i == 0 {
    } else {
      MembersAreInSlot(shapes, nodes, processId, i - 1, c);
      NextMember(nodes, processId, i - 1, c);
      assert nodes[..i][..i - 1] == nodes[..i - 1];
      assert nodes[i - 1] in nodes;
      HomeIsSlot(shapes, nodes, processId, nodes[i - 1]);
    }
  }

  lemma {:induction false} InSlotAppend(a: seq<Node>, b: seq<Node>, processId: string, c: string)
    ensures InSlot(a + b, processId, c) == InSlot(a, processId, c) + InSlot(b, processId, c)
  {
    if b == [] {
      assert a + b == a;
    } else {
      var last := |b| - 1;
      assert (a + b)[..|a + b| - 1] == a + b[..last];
      InSlotAppend(a, b[..last], processId, c);
    }
  }

  lemma {:induction false} InSlotOfNone(nodes: seq<Node>, processId: string, c: string)
    requires forall n :: n in nodes ==> Slot(processId, n) != c
    ensures InSlot(nodes, processId, c) == []
  {
    if nodes == [] {
    } else {
      assert nodes[|nodes| - 1] in nodes;
      InSlotOfNone(nodes[..|nodes| - 1], processId, c);
    }
  }

  // ---- Where the nodes and flows of a container are filed ----

  lemma DistinctAppend(a: seq<Node>, b: seq<Node>)
    ensures IdSet(a + b) == IdSet(a) + IdSet(b)
    ensures DistinctIds(a + b) ==> DistinctIds(a) && DistinctIds(b) && IdSet(a) !! IdSet(b)
  {
    var all := a + b;
    assert forall n :: n in all <==> n in a || n in b;
    if DistinctIds(all) {
      forall i, j | 0 <= i < j < |a| ensures a[i].id != a[j].id {
        assert all[i] == a[i] && all[j] == a[j];
      }
      forall i, j | 0 <= i < j < |b| ensures b[i].id != b[j].id {
        assert all[|a| + i] == b[i] && all[|a| + j] == b[j];
      }
      forall m, n | m in a && n in b ensures m.id != n.id {
        var i :| 0 <= i < |a| && a[i] == m;
        var j :| 0 <= j < |b| && b[j] == n;
        assert all[i] == m && all[|a| + j] == n;
      }
    }
  }

  /** The three parts of what is read from a non-empty list of elements. */
  lemma ReadParts(shapes: seq<Shape>, list: seq<Element>, parent: string)
    requires list != []
    ensures
      var head, nested := [NodeOf(shapes, list[0], parent)], Nested(shapes, list[0]);
      var rest := NodesOf(shapes, list[1..], parent);
      var all := NodesOf(shapes, list, parent);
      && all == head + nested + rest
      && IdSet(all) == {list[0].id} + IdSet(nested) + IdSet(rest)
      && (DistinctIds(all) ==>
            DistinctIds(nested) && DistinctIds(rest)
            && list[0].id !in IdSet(nested) && list[0].id !in IdSet(rest) && IdSet(nested) !! IdSet(rest))
  {
    var head, nested := [NodeOf(shapes, list[0], parent)], Nested(shapes, list[0]);
    var rest := NodesOf(shapes, list[1..], parent);
    DistinctAppend(head, nested);
    DistinctAppend(head + nested, rest);
    assert IdSet(head) == {list[0].id};
  }

  /** Ids that name a container of this part of the diagram are not used for anything else. */
  ghost predicate Tidy(shapes: seq<Shape>, list: seq<Element>, parent: string, processId: string) {
    var all := NodesOf(shapes, list, parent);
    DistinctIds(all) && "" !in IdSet(all) && processId !in IdSet(all) && parent !in IdSet(all)
  }

  function SlotOf(processId: string, parent: string): string {
    if parent == "" then processId else parent
  }

  lemma {:induction false} ForeignSlotIsEmpty(shapes: seq<Shape>, list: seq<Element>, parent: string,
                                              processId: string, q: string)
    requires Tidy(shapes, list, parent, processId)
    requires q != SlotOf(processId, parent) && q !in IdSet(NodesOf(shapes, list, parent))
    ensures InSlot(NodesOf(shapes, list, parent), processId, q) == []
  {
    var all := NodesOf(shapes, list, parent);
    NodesAreRead(shapes, list, parent);
    forall n | n in all ensures Slot(processId, n) != q {
      assert IsRead(shapes, n, parent, all);
    }
    InSlotOfNone(all, processId, q);
  }

  lemma NestedSlotIsEmpty(shapes: seq<Shape>, list: seq<Element>, parent: string, processId: string, q: string)
    requires list != [] && Tidy(shapes, list, parent, processId)
    requires q != list[0].id && q !in IdSet(Nested(shapes, list[0]))
    ensures InSlot(Nested(shapes, list[0]), processId, q) == []
  {
    ReadParts(shapes, list, parent);
    NestedIs(shapes, list[0]);
    if HasContent(list[0].tag) {
      ForeignSlotIsEmpty(shapes, Read(list[0].kids), list[0].id, processId, q);
    }
  }

  lemma InSlotOfOne(n: Node, processId: string, q: string)
    ensures InSlot([n], processId, q) == if q == Slot(processId, n) then [n] else []
  {
    assert [n][..0] == [];
  }

  lemma InSlotOfThree(n: Node, nested: seq<Node>, rest: seq<Node>, processId: string, q: string)
    ensures InSlot([n] + nested + rest, processId, q) ==
      (if q == Slot(processId, n) then [n] else []) + InSlot(nested, processId, q) + InSlot(rest, processId, q)
  {
    InSlotAppend([n], nested, processId, q);
    InSlotAppend([n] + nested, rest, processId, q);
    InSlotOfOne(n, processId, q);
  }

  lemma InSlotOfParts(shapes: seq<Shape>, list: seq<Element>, parent: string, processId: string, q: string)
    requires list != []
    ensures InSlot(NodesOf(shapes, list, parent), processId, q) ==
      (if q == SlotOf(processId, parent) then [NodeOf(shapes, list[0], parent)] else [])
      + InSlot(Nested(shapes, list[0]), processId, q) + InSlot(NodesOf(shapes, list[1..], parent), processId, q)
  {
    ReadParts(shapes, list, parent);
    InSlotOfThree(NodeOf(shapes, list[0], parent), Nested(shapes, list[0]), NodesOf(shapes, list[1..], parent),
                  processId, q);
  }

  lemma HeadsOfParts(shapes: seq<Shape>, list: seq<Element>, parent: string)
    requires list != []
    ensures Heads(shapes, list, parent) == [NodeOf(shapes, list[0], parent)] + Heads(shapes, list[1..], parent)
  {
  }

  lemma RestIsTidy(shapes: seq<Shape>, list: seq<Element>, parent: string, processId: string)
    requires list != [] && Tidy(shapes, list, parent, processId)
    ensures Tidy(shapes, list[1..], parent, processId)
    ensures list[0].id != SlotOf(processId, parent) && SlotOf(processId, parent) !in IdSet(Nested(shapes, list[0]))
  {
    ReadParts(shapes, list, parent);
  }

  /** The members of a container are the nodes for its own elements, in reading order. */
  lemma {:induction false} OwnSlotHoldsHeads(shapes: seq<Shape>, list: seq<Element>, parent: string, processId: string)
    requires Tidy(shapes, list, parent, processId)
    ensures InSlot(NodesOf(shapes, list, parent), processId, SlotOf(processId, parent)) == Heads(shapes, list, parent)
  {
    if list == [] {
    } else {
      RestIsTidy(shapes, list, parent, processId);
      InSlotOfParts(shapes, list, parent, processId, SlotOf(processId, parent));
      NestedSlotIsEmpty(shapes, list, parent, processId, SlotOf(processId, parent));
      OwnSlotHoldsHeads(shapes, list[1..], parent, processId);
      HeadsOfParts(shapes, list, parent);
    }
  }

  /** What belongs below one element is found among what was read from it. */
  lemma {:induction false} NestedSlotIsWhole(shapes: seq<Shape>, list: seq<Element>, parent: string, processId: string,
                                             i: nat, q: string)
    requires Tidy(shapes, list, parent, processId) && i < |list| && HasContent(list[i].tag)
    requires q == list[i].id || q in IdSet(Nested(shapes, list[i]))
    ensures q in IdSet(NodesOf(shapes, list, parent))
    ensures InSlot(NodesOf(shapes, list, parent), processId, q) == InSlot(Nested(shapes, list[i]), processId, q)
  {
    ReadParts(shapes, list, parent);
    InSlotOfParts(shapes, list, parent, processId, q);
    if i == 0 {
      ForeignSlotIsEmpty(shapes, list[1..], parent, processId, q);
    } else {
      NestedSlotIsWhole(shapes, list[1..], parent, processId, i - 1, q);
      NestedSlotIsEmpty(shapes, list, parent, processId, q);
    }
  }

  lemma {:induction false} NestedIsTidy(shapes: seq<Shape>, list: seq<Element>, parent: string, processId: string,
                                        i: nat)
    requires Tidy(shapes, list, parent, processId) && i < |list| && HasContent(list[i].tag)
    ensures Tidy(shapes, Read(list[i].kids), list[i].id, processId)
    ensures list[i].id != "" && list[i].id != processId
    ensures forall n :: n in Nested(shapes, list[i]) || n == NodeOf(shapes, list[i], parent) ==>
      n in NodesOf(shapes, list, parent)
  {
    ReadParts(shapes, list, parent);
    NestedIs(shapes, list[i]);
    if i > 0 {
      NestedIsTidy(shapes, list[1..], parent, processId, i - 1);
    }
  }

  // ---- Flows ----

  predicate SourceIn(list: seq<Element>, f: Flow) {
    exists e :: e in list && e.id == f.source
  }

  /** Every flow starts at an element of the container it is listed in. */
  ghost predicate FlowsStay(kids: seq<Element>, flows: seq<Flow>)
    decreases Depth(kids), 1, 0
  {
    ReadIsNoDeeper(kids);
    (forall f :: f in flows ==> SourceIn(Read(kids), f)) && FlowsStayBelow(Read(kids))
  }

  ghost predicate FlowsStayBelow(list: seq<Element>)
    decreases Depth(list), 0, |list|
  {
    list == [] || ((HasContent(list[0].tag) ==> FlowsStay(list[0].kids, list[0].flows)) && FlowsStayBelow(list[1..]))
  }

  lemma {:induction false} FlowsAtAppend(nodes: seq<Node>, processId: string, a: seq<Edge>, b: seq<Edge>, c: string)
    ensures FlowsAt(nodes, processId, a + b, c) == FlowsAt(nodes, processId, a, c) + FlowsAt(nodes, processId, b, c)
  {
    if b == [] {
      assert a + b == a;
    } else {
      var last := |b| - 1;
      assert (a + b)[..|a + b| - 1] == a + b[..last];
      FlowsAtAppend(nodes, processId, a, b[..last], c);
    }
  }

  lemma {:induction false} FlowsAtHome(nodes: seq<Node>, processId: string, edges: seq<Edge>, home: string, q: string)
    requires forall e :: e in edges ==> !e.message && EdgeHome(nodes, processId, e) == home
    ensures FlowsAt(nodes, processId, edges, q) == if q == home then edges else []
  {
    if edges == [] {
    } else {
      assert edges[|edges| - 1] in edges;
      FlowsAtHome(nodes, processId, edges[..|edges| - 1], home, q);
    }
  }

  /** Everything that is read from these elements is in the list, and each node's home is where it was read. */
  ghost predicate AllRead(nodes: seq<Node>, processId: string, some: seq<Node>) {
    && DistinctIds(nodes) && (forall n :: n in some ==> n in nodes)
    && (forall n :: n in nodes ==> Home(nodes, processId, n) == Slot(processId, n))
  }

  lemma OwnFlowsStay(shapes: seq<Shape>, nodes: seq<Node>, processId: string, list: seq<Element>, parent: string,
                     flows: seq<Flow>, q: string)
    requires AllRead(nodes, processId, NodesOf(shapes, list, parent))
    requires forall f :: f in flows ==> SourceIn(list, f)
    ensures FlowsAt(nodes, processId, EdgesOf(flows), q) ==
      if q == SlotOf(processId, parent) then EdgesOf(flows) else []
  {
    forall e | e in EdgesOf(flows) ensures !e.message && EdgeHome(nodes, processId, e) == SlotOf(processId, parent) {
      var i :| 0 <= i < |flows| && EdgesOf(flows)[i] == e;
      assert SourceIn(list, flows[i]);
      var source :| source in list && source.id == flows[i].source;
      HeadIsRead(shapes, list, parent, source);
      var n := NodeOf(shapes, source, parent);
      var k :| 0 <= k < |nodes| && nodes[k] == n;
      FindItself(nodes, nodes[k]);
    }
    FlowsAtHome(nodes, processId, EdgesOf(flows), SlotOf(processId, parent), q);
  }

  lemma {:induction false} HeadIsRead(shapes: seq<Shape>, list: seq<Element>, parent: string, e: Element)
    requires e in list
    ensures NodeOf(shapes, e, parent) in NodesOf(shapes, list, parent)
  {
    ReadParts(shapes, list, parent);
    if e != list[0] {
      assert e in list[1..];
      HeadIsRead(shapes, list[1..], parent, e);
    }
  }

  lemma FlowsOfParts(nodes: seq<Node>, processId: string, list: seq<Element>, q: string)
    requires list != []
    ensures FlowsAt(nodes, processId, EdgesBelow(list), q) ==
      (if HasContent(list[0].tag) then FlowsAt(nodes, processId, EdgesIn(list[0].kids, list[0].flows), q) else [])
      + FlowsAt(nodes, processId, EdgesBelow(list[1..]), q)
  {
    if HasContent(list[0].tag) {
      FlowsAtAppend(nodes, processId, EdgesIn(list[0].kids, list[0].flows), EdgesBelow(list[1..]), q);
    } else {
      assert [] + EdgesBelow(list[1..]) == EdgesBelow(list[1..]);
    }
  }

  lemma FlowsOfContainer(nodes: seq<Node>, processId: string, kids: seq<Element>, flows: seq<Flow>, q: string)
    ensures FlowsAt(nodes, processId, EdgesIn(kids, flows), q) ==
      FlowsAt(nodes, processId, EdgesBelow(Read(kids)), q) + FlowsAt(nodes, processId, EdgesOf(flows), q)
  {
    FlowsAtAppend(nodes, processId, EdgesBelow(Read(kids)), EdgesOf(flows), q);
  }

  lemma {:induction false} ForeignFlowsAreNone(shapes: seq<Shape>, nodes: seq<Node>, processId: string,
                                               list: seq<Element>, parent: string, q: string)
    requires AllRead(nodes, processId, NodesOf(shapes, list, parent)) && FlowsStayBelow(list)
    requires Tidy(shapes, list, parent, processId) && q !in IdSet(NodesOf(shapes, list, parent))
    ensures FlowsAt(nodes, processId, EdgesBelow(list), q) == []
    decreases Depth(list), 0, |list|
  {
    if list == [] {
    } else {
      ReadParts(shapes, list, parent);
      NestedIs(shapes, list[0]);
      FlowsOfParts(nodes, processId, list, q);
      ForeignFlowsAreNone(shapes, nodes, processId, list[1..], parent, q);
      if HasContent(list[0].tag) {
        NestedIsTidy(shapes, list, parent, processId, 0);
        ForeignFlowsAreNone(shapes, nodes, processId, Read(list[0].kids), list[0].id, q);
        OwnFlowsStay(shapes, nodes, processId, Read(list[0].kids), list[0].id, list[0].flows, q);
        FlowsOfContainer(nodes, processId, list[0].kids, list[0].flows, q);
      }
    }
  }

  /** The flows below one element are found among those read from it. */
  lemma {:induction false} NestedFlowsAreWhole(shapes: seq<Shape>, nodes: seq<Node>, processId: string,
                                               list: seq<Element>, parent: string, i: nat, q: string)
    requires AllRead(nodes, processId, NodesOf(shapes, list, parent)) && FlowsStayBelow(list)
    requires Tidy(shapes, list, parent, processId) && i < |list| && HasContent(list[i].tag)
    requires q == list[i].id || q in IdSet(Nested(shapes, list[i]))
    ensures FlowsAt(nodes, processId, EdgesBelow(list), q) ==
      FlowsAt(nodes, processId, EdgesIn(list[i].kids, list[i].flows), q)
    ensures FlowsStay(list[i].kids, list[i].flows)
  {
    if i == 0 {
      FirstElementFlows(shapes, nodes, processId, list, parent, q);
    } else {
      RestIsLikeAll(shapes, nodes, processId, list, parent);
      NestedSlotIsWhole(shapes, list[1..], parent, processId, i - 1, q);
      NestedFlowsAreWhole(shapes, nodes, processId, list[1..], parent, i - 1, q);
      LaterElementFlows(shapes, nodes, processId, list, parent, q);
    }
  }

  lemma FirstElementFlows(shapes: seq<Shape>, nodes: seq<Node>, processId: string,
                          list: seq<Element>, parent: string, q: string)
    requires AllRead(nodes, processId, NodesOf(shapes, list, parent)) && FlowsStayBelow(list)
    requires Tidy(shapes, list, parent, processId) && list != [] && HasContent(list[0].tag)
    requires q == list[0].id || q in IdSet(Nested(shapes, list[0]))
    ensures FlowsAt(nodes, processId, EdgesBelow(list), q) ==
      FlowsAt(nodes, processId, EdgesIn(list[0].kids, list[0].flows), q)
  {
    ReadParts(shapes, list, parent);
    FlowsOfParts(nodes, processId, list, q);
    ForeignFlowsAreNone(shapes, nodes, processId, list[1..], parent, q);
  }

  lemma LaterElementFlows(shapes: seq<Shape>, nodes: seq<Node>, processId: string,
                          list: seq<Element>, parent: string, q: string)
    requires AllRead(nodes, processId, NodesOf(shapes, list, parent)) && FlowsStayBelow(list)
    requires Tidy(shapes, list, parent, processId) && list != [] && q in IdSet(NodesOf(shapes, list[1..], parent))
    ensures FlowsAt(nodes, processId, EdgesBelow(list), q) == FlowsAt(nodes, processId, EdgesBelow(list[1..]), q)
  {
    if HasContent(list[0].tag) {
      ElementFlowsAreElsewhere(shapes, nodes, processId, list, parent, q);
    }
    FirstHasNoFlows(nodes, processId, list, q);
  }

  lemma FirstHasNoFlows(nodes: seq<Node>, processId: string, list: seq<Element>, q: string)
    requires list != []
    requires HasContent(list[0].tag) ==> FlowsAt(nodes, processId, EdgesIn(list[0].kids, list[0].flows), q) == []
    ensures FlowsAt(nodes, processId, EdgesBelow(list), q) == FlowsAt(nodes, processId, EdgesBelow(list[1..]), q)
  {
    FlowsOfParts(nodes, processId, list, q);
  }

  lemma RestIsLikeAll(shapes: seq<Shape>, nodes: seq<Node>, processId: string, list: seq<Element>, parent: string)
    requires list != [] && AllRead(nodes, processId, NodesOf(shapes, list, parent))
    requires Tidy(shapes, list, parent, processId)
    ensures AllRead(nodes, processId, NodesOf(shapes, list[1..], parent))
    ensures Tidy(shapes, list[1..], parent, processId)
  {
    ReadParts(shapes, list, parent);
  }

  lemma ElementFlowsAreElsewhere(shapes: seq<Shape>, nodes: seq<Node>, processId: string,
                                 list: seq<Element>, parent: string, q: string)
    requires list != [] && HasContent(list[0].tag)
    requires AllRead(nodes, processId, NodesOf(shapes, list, parent)) && FlowsStayBelow(list)
    requires Tidy(shapes, list, parent, processId) && q in IdSet(NodesOf(shapes, list[1..], parent))
    ensures FlowsAt(nodes, processId, EdgesIn(list[0].kids, list[0].flows), q) == []
  {
    ReadParts(shapes, list, parent);
    NestedIs(shapes, list[0]);
    NestedIsTidy(shapes, list, parent, processId, 0);
    FlowsOfContainer(nodes, processId, list[0].kids, list[0].flows, q);
    ForeignFlowsAreNone(shapes, nodes, processId, Read(list[0].kids), list[0].id, q);
    OwnFlowsStay(shapes, nodes, processId, Read(list[0].kids), list[0].id, list[0].flows, q);
  }
}
