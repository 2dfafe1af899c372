/**
 Which sub-process takes a node in, told by the boxes with which nodes are written: the smallest one around the middle
 of the node's own box, and the first in the list among equals.
 */
module DiagramBoxes {
  import opened Options
  import opened Diagram
  import opened DiagramGenerator

  /** The box of a node: its absolute position, and its size, of which nothing or zero counts as 100 by 80. */
  function BoxOf(nodes: seq<Node>, n: Node): Bounds {
    var p := AbsolutePosition(nodes, n.id);
    Bounds(p.x, p.y, if n.width != 0.0 then n.width else 100.0, if n.height != 0.0 then n.height else 80.0)
  }

  lemma BoxIsWritten(nodes: seq<Node>, n: Node)
    ensures ShapeOf(nodes, n) == Shape(n.id, Some(BoxOf(nodes, n)))
  {
  }

  /** The middle of the inner box lies in the outer one, all coordinates doubled. */
  predicate HoldsMiddle(outer: Bounds, inner: Bounds) {
    && 2.0 * outer.x <= 2.0 * inner.x + inner.width <= 2.0 * outer.x + 2.0 * outer.width
    && 2.0 * outer.y <= 2.0 * inner.y + inner.height <= 2.0 * outer.y + 2.0 * outer.height
  }

  /** Another sub-process whose box is around the middle of this node's box. */
  predicate IsAround(nodes: seq<Node>, sp: Node, n: Node) {
    IsSubProcess(sp) && sp.id != n.id && HoldsMiddle(BoxOf(nodes, sp), BoxOf(nodes, n))
  }

  lemma MiddleIsCenter(p: Point, w: real, h: real, q: Point, v: real, k: real)
    ensures
      HoldsMiddle(Bounds(q.x, q.y, v, k), Bounds(p.x, p.y, w, h)) <==>
      q.x <= p.x + w / 2.0 <= q.x + v && q.y <= p.y + h / 2.0 <= q.y + k
  {
  }

  /** Which sub-processes can take a node in, in coordinates. */
  lemma CapturesIffAround(nodes: seq<Node>, sp: Node, n: Node)
    ensures Captures(nodes, sp, n) <==> IsAround(nodes, sp, n)
  {
    MiddleIsCenter(AbsolutePosition(nodes, n.id), Width(n), Height(n),
                   AbsolutePosition(nodes, sp.id), Width(sp), Height(sp));
  }

  // ---- The smallest box around ----

  function Size(b: Bounds): real {
    b.width * b.height
  }

  /** Among the first `k` nodes, the one at `i` is the first of the smallest around `n`. */
  ghost predicate IsFirstSmallest(nodes: seq<Node>, n: Node, i: nat, k: nat)
    requires k <= |nodes|
  {
    && i < k && IsAround(nodes, nodes[i], n)
    && forall j :: 0 <= j < k && IsAround(nodes, nodes[j], n) ==> ComesAfter(nodes, i, j)
  }

  predicate ComesAfter(nodes: seq<Node>, i: nat, j: nat)
    requires i < |nodes| && j < |nodes|
  {
    var a, b := Size(BoxOf(nodes, nodes[i])), Size(BoxOf(nodes, nodes[j]));
    if j < i then a < b else a <= b
  }

  lemma OtherStaysFirst(nodes: seq<Node>, n: Node, i: nat, k: nat)
    requires k < |nodes| && IsFirstSmallest(nodes, n, i, k)
    requires IsAround(nodes, nodes[k], n) ==> Size(BoxOf(nodes, nodes[i])) <= Size(BoxOf(nodes, nodes[k]))
    ensures IsFirstSmallest(nodes, n, i, k + 1)
  {
    forall j | 0 <= j < k + 1 && IsAround(nodes, nodes[j], n) ensures ComesAfter(nodes, i, j) {
      if j < k {
        assert ComesAfter(nodes, i, j);
      }
    }
  }

  lemma SmallerBecomesFirst(nodes: seq<Node>, n: Node, i: nat, k: nat)
    requires k < |nodes| && IsFirstSmallest(nodes, n, i, k) && IsAround(nodes, nodes[k], n)
    requires Size(BoxOf(nodes, nodes[k])) < Size(BoxOf(nodes, nodes[i]))
    ensures IsFirstSmallest(nodes, n, k, k + 1)
  {
    forall j | 0 <= j < k + 1 && IsAround(nodes, nodes[j], n) ensures ComesAfter(nodes, k, j) {
      if j < k {
        assert ComesAfter(nodes, i, j);
      }
    }
  }

  lemma OnlyOneIsFirst(nodes: seq<Node>, n: Node, k: nat)
    requires k < |nodes| && IsAround(nodes, nodes[k], n)
    requires forall j :: 0 <= j < k ==> !IsAround(nodes, nodes[j], n)
    ensures IsFirstSmallest(nodes, n, k, k + 1)
  {
    forall j | 0 <= j < k + 1 && IsAround(nodes, nodes[j], n) ensures ComesAfter(nodes, k, j) {
    }
  }

  lemma AreaIsSize(nodes: seq<Node>, n: Node)
    ensures Area(n) == Size(BoxOf(nodes, n))
  {
  }

  /** What the sorted head of the capturers among the first `k` nodes is. */
  ghost predicate IsHeadAt(nodes: seq<Node>, n: Node, around: seq<Node>, k: nat, i: nat)
    requires k <= |nodes|
  {
    && (around == [] ==> forall j :: 0 <= j < k ==> !IsAround(nodes, nodes[j], n))
    && (around != [] ==> IsFirstSmallest(nodes, n, i, k) && FirstSmallest(around) == nodes[i])
  }

  lemma HeadOneMore(nodes: seq<Node>, n: Node, before: seq<Node>, k: nat, i: nat) returns (next: nat)
    requires k < |nodes| && IsHeadAt(nodes, n, before, k, i)
    ensures IsHeadAt(nodes, n, if IsAround(nodes, nodes[k], n) then before + [nodes[k]] else before, k + 1, next)
  {
    next := i;
    if IsAround(nodes, nodes[k], n) {
      OneMoreIsSorted(before, nodes[k]);
      AreaIsSize(nodes, nodes[k]);
      if before == [] {
        next := k;
        OnlyOneIsFirst(nodes, n, k);
      } else {
        AreaIsSize(nodes, nodes[i]);
        if Area(nodes[k]) < Area(nodes[i]) {
          next := k;
          SmallerBecomesFirst(nodes, n, i, k);
        } else {
          OtherStaysFirst(nodes, n, i, k);
        }
      }
    } else if before != [] {
      OtherStaysFirst(nodes, n, i, k);
    }
  }

  lemma {:induction false} SmallestAmong(nodes: seq<Node>, n: Node, k: nat) returns (i: nat)
    requires k <= |nodes|
    ensures IsHeadAt(nodes, n, Capturers(nodes, nodes[..k], n), k, i)
  {
    i := 0;
    if k > 0 {
      var before := k - 1;
      i := SmallestAmong(nodes, n, before);
      CapturersOneMore(nodes, n, before);
      i := HeadOneMore(nodes, n, Capturers(nodes, nodes[..before], n), before, i);
    }
  }

  lemma CapturersOneMore(nodes: seq<Node>, n: Node, k: nat)
    requires k < |nodes|
    ensures
      var before := Capturers(nodes, nodes[..k], n);
      Capturers(nodes, nodes[..k + 1], n) == if IsAround(nodes, nodes[k], n) then before + [nodes[k]] else before
  {
    assert nodes[..k + 1][..k] == nodes[..k];
    CapturesIffAround(nodes, nodes[k], n);
  }

  lemma OneMoreIsSorted(before: seq<Node>, last: Node)
    ensures before == [] ==> FirstSmallest(before + [last]) == last
    ensures before != [] ==>
      FirstSmallest(before + [last]) == if Area(last) < Area(FirstSmallest(before)) then last else FirstSmallest(before)
  {
    assert (before + [last])[..|before|] == before;
  }

  ghost predicate IsTakenBy(nodes: seq<Node>, processId: string, n: Node, i: nat) {
    i < |nodes| && IsFirstSmallest(nodes, n, i, |nodes|) && EffectiveParent(nodes, processId, n) == nodes[i].id
  }

  /**
   A parent link is honoured. A node without one goes to the smallest sub-process around the middle of its box, the
   first in the list among equals, and to the process if there is none.
   */
  lemma ParentIsSmallestAround(nodes: seq<Node>, processId: string, n: Node)
    ensures n.parent != "" ==> EffectiveParent(nodes, processId, n) == n.parent
    ensures n.parent == "" && (exists sp :: sp in nodes && IsAround(nodes, sp, n)) ==>
      exists i :: IsTakenBy(nodes, processId, n, i)
    ensures n.parent == "" && (forall sp :: sp in nodes ==> !IsAround(nodes, sp, n)) ==>
      EffectiveParent(nodes, processId, n) == processId
  {
    if n.parent == "" {
      var i := SmallestAmong(nodes, n, |nodes|);
      assert nodes[..|nodes|] == nodes;
      if sp :| sp in nodes && IsAround(nodes, sp, n) {
        CapturesIffAround(nodes, sp, n);
        assert sp in Capturers(nodes, nodes, n);
        assert IsTakenBy(nodes, processId, n, i);
      } else {
        NoneAround(nodes, n);
      }
    }
  }

  lemma NoneAround(nodes: seq<Node>, n: Node)
    requires forall sp :: sp in nodes ==> !IsAround(nodes, sp, n)
    ensures Capturers(nodes, nodes, n) == []
  {
    forall sp | sp in nodes ensures !Captures(nodes, sp, n) {
      CapturesIffAround(nodes, sp, n);
    }
    NoneCapture(nodes, nodes, n);
  }

  /** There is only one such sub-process. */
  lemma FirstSmallestIsOne(nodes: seq<Node>, n: Node, i: nat, j: nat)
    requires i < |nodes| && j < |nodes|
    requires IsFirstSmallest(nodes, n, i, |nodes|) && IsFirstSmallest(nodes, n, j, |nodes|)
    ensures i == j
  {
    assert ComesAfter(nodes, i, j) && ComesAfter(nodes, j, i);
  }

  lemma TakenBySmallestAround(nodes: seq<Node>, processId: string, n: Node, i: nat)
    requires n.parent == "" && i < |nodes| && IsFirstSmallest(nodes, n, i, |nodes|)
    ensures EffectiveParent(nodes, processId, n) == nodes[i].id
  {
    ParentIsSmallestAround(nodes, processId, n);
    assert nodes[i] in nodes;
    var j :| IsTakenBy(nodes, processId, n, j);
    FirstSmallestIsOne(nodes, n, i, j);
  }

  // ---- Growing a node ----

  /** The node with as much added on the left as on the right, and as much above as below. */
  function Grown(n: Node, dx: real, dy: real): Node {
    n.(x := n.x - dx, y := n.y - dy, width := n.width + 2.0 * dx, height := n.height + 2.0 * dy)
  }

  /** The node stands for itself, without parent link, and nothing is linked to it. */
  ghost predicate IsUnlinked(nodes: seq<Node>, n: Node) {
    && Find(nodes, n.id) == Some(n) && n.parent == ""
    && forall m :: m in nodes ==> m.parent == "" || m.parent != n.id
  }

  lemma {:induction false} FindOther(nodes: seq<Node>, i: nat, n: Node, id: string)
    requires i < |nodes| && n.id == nodes[i].id
    ensures Find(nodes[i := n], id) ==
      if id == n.id && Find(nodes, id) == Some(nodes[i]) && Find(nodes[..i], id).None? then Some(n) else Find(nodes, id)
  {
    if i > 0 {
      assert nodes[i := n][1..] == nodes[1..][i - 1 := n];
      assert nodes[..i][1..] == nodes[1..][..i - 1];
      FindOther(nodes[1..], i - 1, n, id);
    }
  }

  lemma {:induction false} PositionOfOther(nodes: seq<Node>, i: nat, n: Node, id: string, links: nat)
    requires i < |nodes| && n.id == nodes[i].id && IsUnlinked(nodes, nodes[i]) && id != n.id
    ensures Position(nodes[i := n], id, links) == Position(nodes, id, links)
    decreases links
  {
    FindOther(nodes, i, n, id);
    match Find(nodes, id)
    case None =>
    case Some(m) =>
      if m.parent != "" && links > 0 {
        PositionOfOther(nodes, i, n, m.parent, links - 1);
      }
  }

  lemma GrownBoxes(nodes: seq<Node>, i: nat, dx: real, dy: real, j: nat)
    requires i < |nodes| && j < |nodes| && DistinctIds(nodes) && IsUnlinked(nodes, nodes[i])
    ensures
      var n := Grown(nodes[i], dx, dy);
      j != i ==> BoxOf(nodes[i := n], nodes[j]) == BoxOf(nodes, nodes[j])
  {
    if j != i {
      PositionOfOther(nodes, i, Grown(nodes[i], dx, dy), nodes[j].id, |nodes|);
    }
  }

  lemma GrownBox(nodes: seq<Node>, i: nat, dx: real, dy: real)
    requires i < |nodes| && DistinctIds(nodes) && IsUnlinked(nodes, nodes[i])
    requires nodes[i].width != 0.0 && nodes[i].height != 0.0
    requires nodes[i].width + 2.0 * dx != 0.0 && nodes[i].height + 2.0 * dy != 0.0
    ensures
      var n, b := Grown(nodes[i], dx, dy), BoxOf(nodes, nodes[i]);
      BoxOf(nodes[i := n], n) == Bounds(b.x - dx, b.y - dy, b.width + 2.0 * dx, b.height + 2.0 * dy)
  {
    var n := Grown(nodes[i], dx, dy);
    var grown := nodes[i := n];
    assert DistinctIds(grown);
    assert grown[i] in grown;
    FindItself(grown, n);
  }

  lemma GrownIsAround(nodes: seq<Node>, i: nat, dx: real, dy: real, j: nat)
    requires i < |nodes| && j < |nodes| && DistinctIds(nodes) && IsUnlinked(nodes, nodes[i])
    requires nodes[i].width != 0.0 && nodes[i].height != 0.0
    requires nodes[i].width + 2.0 * dx != 0.0 && nodes[i].height + 2.0 * dy != 0.0
    ensures
      var n := Grown(nodes[i], dx, dy);
      IsAround(nodes[i := n], nodes[i := n][j], n) <==> IsAround(nodes, nodes[j], nodes[i])
  {
    GrownBoxes(nodes, i, dx, dy, j);
    GrownBox(nodes, i, dx, dy);
  }

  /** Growing a node alike on both sides, without parent link or anything linked to it, leaves it in its parent. */
  lemma GrowingKeepsParent(nodes: seq<Node>, processId: string, i: nat, dx: real, dy: real)
    requires i < |nodes| && DistinctIds(nodes) && IsUnlinked(nodes, nodes[i])
    requires nodes[i].width != 0.0 && nodes[i].height != 0.0
    requires nodes[i].width + 2.0 * dx != 0.0 && nodes[i].height + 2.0 * dy != 0.0
    ensures
      var n := Grown(nodes[i], dx, dy);
      EffectiveParent(nodes[i := n], processId, n) == EffectiveParent(nodes, processId, nodes[i])
  {
    var n := Grown(nodes[i], dx, dy);
    var grown := nodes[i := n];
    forall j | 0 <= j < |nodes| ensures IsAround(grown, grown[j], n) <==> IsAround(nodes, nodes[j], nodes[i]) {
      GrownIsAround(nodes, i, dx, dy, j);
    }
    ParentIsSmallestAround(nodes, processId, nodes[i]);
    if sp :| sp in nodes && IsAround(nodes, sp, nodes[i]) {
      var k :| IsTakenBy(nodes, processId, nodes[i], k);
      GrownKeepsSmallest(nodes, i, dx, dy, k);
      TakenBySmallestAround(grown, processId, n, k);
    } else {
      forall sp | sp in grown ensures !IsAround(grown, sp, n) {
        var j :| 0 <= j < |grown| && grown[j] == sp;
        assert nodes[j] in nodes;
      }
      ParentIsSmallestAround(grown, processId, n);
    }
  }

  lemma GrownKeepsSmallest(nodes: seq<Node>, i: nat, dx: real, dy: real, k: nat)
    requires i < |nodes| && DistinctIds(nodes) && IsUnlinked(nodes, nodes[i])
    requires nodes[i].width != 0.0 && nodes[i].height != 0.0
    requires nodes[i].width + 2.0 * dx != 0.0 && nodes[i].height + 2.0 * dy != 0.0
    requires k < |nodes| && IsFirstSmallest(nodes, nodes[i], k, |nodes|)
    ensures IsFirstSmallest(nodes[i := Grown(nodes[i], dx, dy)], Grown(nodes[i], dx, dy), k, |nodes|)
  {
    var n := Grown(nodes[i], dx, dy);
    var grown := nodes[i := n];
    GrownIsAround(nodes, i, dx, dy, k);
    GrownBoxes(nodes, i, dx, dy, k);
    forall j | 0 <= j < |grown| && IsAround(grown, grown[j], n) ensures ComesAfter(grown, k, j) {
      GrownIsAround(nodes, i, dx, dy, j);
      GrownBoxes(nodes, i, dx, dy, j);
      assert ComesAfter(nodes, k, j);
    }
  }

  // ---- Nested boxes ----

  predicate HasSize(b: Bounds) {
    b.width > 0.0 && b.height > 0.0
  }

  predicate IsInside(a: Bounds, b: Bounds) {
    && b.x <= a.x && a.x + a.width <= b.x + b.width
    && b.y <= a.y && a.y + a.height <= b.y + b.height
  }

  predicate Meet(a: Bounds, b: Bounds) {
    && a.x <= b.x + b.width && b.x <= a.x + a.width
    && a.y <= b.y + b.height && b.y <= a.y + a.height
  }

  /** The boxes of sub-processes have positive size, and are nested where they meet. */
  ghost predicate Laminar(nodes: seq<Node>) {
    && (forall a :: a in nodes && IsSubProcess(a) ==> HasSize(BoxOf(nodes, a)))
    && (forall a, b :: a in nodes && b in nodes && IsSubProcess(a) && IsSubProcess(b) ==>
          AreNested(BoxOf(nodes, a), BoxOf(nodes, b)))
  }

  predicate AreNested(a: Bounds, b: Bounds) {
    Meet(a, b) ==> IsInside(a, b) || IsInside(b, a)
  }

  lemma InnerIsSmaller(w1: real, h1: real, w2: real, h2: real)
    requires 0.0 < w2 <= w1 && 0.0 < h2 <= h1 && (w2 < w1 || h2 < h1)
    ensures w2 * h2 < w1 * h1
  {
    assert w2 * h2 <= w2 * h1 <= w1 * h1;
    if w2 < w1 {
      assert w2 * h1 < w1 * h1;
    } else {
      assert w2 * h2 < w2 * h1;
    }
  }

  lemma SmallerIsInside(a: Bounds, b: Bounds, n: Bounds)
    requires HasSize(a) && HasSize(b) && AreNested(a, b) && Size(a) <= Size(b)
    requires HoldsMiddle(a, n) && HoldsMiddle(b, n)
    ensures IsInside(a, b)
  {
    assert Meet(a, b);
    if !IsInside(a, b) {
      InnerIsSmaller(a.width, a.height, b.width, b.height);
    }
  }

  /** The node goes to this sub-process, whose box is around its middle and lies inside the box of the other one. */
  ghost predicate GoesInside(nodes: seq<Node>, processId: string, n: Node, chosen: Node, sp: Node) {
    && IsAround(nodes, chosen, n) && EffectiveParent(nodes, processId, n) == chosen.id
    && IsInside(BoxOf(nodes, chosen), BoxOf(nodes, sp))
  }

  /**
   For nested boxes the node goes to the immediate enclosing one: it is around the node's middle and lies inside every
   other sub-process box that is.
   */
  lemma InnermostBoxIsChosen(nodes: seq<Node>, processId: string, n: Node, sp: Node)
    requires Laminar(nodes) && n.parent == "" && sp in nodes && IsAround(nodes, sp, n)
    ensures exists chosen :: chosen in nodes && GoesInside(nodes, processId, n, chosen, sp)
  {
    var i := Taker(nodes, processId, n, sp);
    var j :| 0 <= j < |nodes| && nodes[j] == sp;
    FirstIsInside(nodes, processId, n, i, j);
    assert nodes[i] in nodes;
  }

  lemma Taker(nodes: seq<Node>, processId: string, n: Node, sp: Node) returns (i: nat)
    requires n.parent == "" && sp in nodes && IsAround(nodes, sp, n)
    ensures IsTakenBy(nodes, processId, n, i)
  {
    ParentIsSmallestAround(nodes, processId, n);
    i :| IsTakenBy(nodes, processId, n, i);
  }

  lemma FirstIsInside(nodes: seq<Node>, processId: string, n: Node, i: nat, j: nat)
    requires Laminar(nodes) && j < |nodes|
    requires IsTakenBy(nodes, processId, n, i) && IsAround(nodes, nodes[j], n)
    ensures GoesInside(nodes, processId, n, nodes[i], nodes[j])
  {
    var a, b := BoxOf(nodes, nodes[i]), BoxOf(nodes, nodes[j]);
    assert ComesAfter(nodes, i, j);
    assert nodes[i] in nodes && nodes[j] in nodes && AreNested(a, b) && HasSize(a) && HasSize(b);
    SmallerIsInside(a, b, BoxOf(nodes, n));
  }

  // ---- A task beside a sub-process ----

  /** Its upper left corner is in the box of the sub-process, its middle is not, and the process takes it. */
  lemma OverlappingTaskStaysOutside(nodes: seq<Node>)
    requires nodes == [
        Node("s", SubProcessNode, SubProcess, false, "", 100.0, 100.0, 200.0, 150.0, [], []),
        Node("t", FlowNode(UserTask), UserTask, false, "", 280.0, 110.0, 100.0, 80.0, [], [])]
    ensures EffectiveParent(nodes, "p", nodes[1]) == "p" && Home(nodes, "p", nodes[1]) == "p"
  {
    assert nodes[1..][0] == nodes[1];
    assert AbsolutePosition(nodes, "s") == Point(100.0, 100.0);
    assert AbsolutePosition(nodes, "t") == Point(280.0, 110.0);
    forall sp | sp in nodes ensures !IsAround(nodes, sp, nodes[1]) {
      assert sp == nodes[0] || sp == nodes[1];
    }
    ParentIsSmallestAround(nodes, "p", nodes[1]);
  }
}
