/**
 What a written document holds: every node that gets to the process once, and besides the copies that nodes carry from
 the file they were read from, as far as nothing that is filed replaces them.
 */
module DiagramContents {
  import opened Options
  import opened Diagram
  import opened DiagramGenerator
  import opened DiagramBoxes
  import opened DiagramLinks
  import opened DiagramNesting

  /** How often an element with this id stands anywhere below. */
  function Occurrences(list: seq<Element>, id: string): nat {
    if list == [] then 0
    else (if list[0].id == id then 1 else 0) + Occurrences(list[0].kids, id) + Occurrences(list[1..], id)
  }

  lemma {:induction false} OccurrencesAppend(a: seq<Element>, b: seq<Element>, id: string)
    ensures Occurrences(a + b, id) == Occurrences(a, id) + Occurrences(b, id)
  {
    if a == [] {
      assert a + b == b;
    } else {
      assert (a + b)[1..] == a[1..] + b;
      OccurrencesAppend(a[1..], b, id);
    }
  }

  // ---- Copies that are written ----

  /** The copies with which a node is written: of a container, those with a tag that none of its members has. */
  function Strays(containers: map<string, Content>, processId: string, n: Node): seq<Element> {
    if n.id in containers then Leftover(n.copies, Forest(containers, processId, n.id, 1)) else n.copies
  }

  lemma {:induction false} TagsOfMembers(containers: map<string, Content>, processId: string, members: seq<Node>,
                                         levels: nat, tag: Tag)
    requires levels > 0
    ensures HasTag(ElementsFor(containers, processId, members, levels), tag) <==>
      exists m :: m in members && OutTag(m) == tag
  {
    if members == [] {
    } else {
      var all := ElementsFor(containers, processId, members, levels);
      var head, rest := ElementFor(containers, processId, members[0], levels),
                        ElementsFor(containers, processId, members[1..], levels);
      assert all == [head] + rest && head.tag == OutTag(members[0]);
      TagsOfMembers(containers, processId, members[1..], levels, tag);
      assert forall e :: e in all <==> e == head || e in rest;
      assert forall m :: m in members <==> m == members[0] || m in members[1..];
    }
  }

  lemma {:induction false} LeftoverGoesByTag(copies: seq<Element>, a: seq<Element>, b: seq<Element>)
    requires forall tag :: HasTag(a, tag) <==> HasTag(b, tag)
    ensures Leftover(copies, a) == Leftover(copies, b)
  {
    if copies != [] {
      LeftoverGoesByTag(copies[1..], a, b);
    }
  }

  /** However deep the unfolding, the same copies are left over. */
  lemma StraysAreLeft(containers: map<string, Content>, processId: string, n: Node, levels: nat)
    requires levels > 0 && n.id in containers
    ensures Leftover(n.copies, Forest(containers, processId, n.id, levels)) == Strays(containers, processId, n)
  {
    var members := containers[n.id].members;
    var a, b := Forest(containers, processId, n.id, levels), Forest(containers, processId, n.id, 1);
    forall tag ensures HasTag(a, tag) <==> HasTag(b, tag) {
      TagsOfMembers(containers, processId, members, levels, tag);
      TagsOfMembers(containers, processId, members, 1, tag);
    }
    LeftoverGoesByTag(n.copies, a, b);
  }

  /** What is nested in the element for a node: what is filed under it, and its stray copies. */
  lemma ElementHolds(containers: map<string, Content>, processId: string, n: Node, levels: nat, id: string)
    requires n.id != processId && (n.id in containers ==> levels > 0)
    ensures
      var e := ElementFor(containers, processId, n, levels + 1);
      && e.id == n.id
      && Occurrences(e.kids, id) == Occurrences(Forest(containers, processId, n.id, levels), id)
                                    + Occurrences(Strays(containers, processId, n), id)
  {
    if n.id in containers {
      StraysAreLeft(containers, processId, n, levels);
      OccurrencesAppend(Forest(containers, processId, n.id, levels), Strays(containers, processId, n), id);
    }
  }

  // ---- Adding up over nodes ----

  /** The weights of these nodes, each as often as its id is counted. */
  ghost function Weigh(among: seq<Node>, count: string -> nat, weight: Node -> nat): nat {
    if among == [] then 0
    else count(among[0].id) * weight(among[0]) + Weigh(among[1..], count, weight)
  }

  lemma {:induction false} WeighNothing(among: seq<Node>, count: string -> nat, weight: Node -> nat)
    requires forall id :: count(id) == 0
    ensures Weigh(among, count, weight) == 0
  {
    if among != [] {
      WeighNothing(among[1..], count, weight);
    }
  }

  ghost predicate IsSum(m: Node, a: string -> nat, b: string -> nat, all: string -> nat) {
    forall id :: all(id) == (if m.id == id then 1 else 0) + a(id) + b(id)
  }

  lemma Distribute(x: nat, a: nat, b: nat, w: nat)
    ensures (x + a + b) * w == x * w + a * w + b * w
  {
  }

  /** Counting one node more adds its weight. */
  lemma {:induction false} WeighSum(among: seq<Node>, m: Node, a: string -> nat, b: string -> nat,
                                    all: string -> nat, weight: Node -> nat)
    requires IsSum(m, a, b, all) && DistinctIds(among) && forall n :: n in among && n.id == m.id ==> n == m
    ensures Weigh(among, all, weight) ==
      (if m in among then weight(m) else 0) + Weigh(among, a, weight) + Weigh(among, b, weight)
  {
    if among != [] {
      var n := among[0];
      WeighSum(among[1..], m, a, b, all, weight);
      Distribute(if m.id == n.id then 1 else 0, a(n.id), b(n.id), weight(n));
      assert m in among <==> m == n || m in among[1..];
      assert n == m ==> m !in among[1..];
    }
  }

  // ---- Counting what is written ----

  ghost function WeightOf(containers: map<string, Content>, processId: string, id: string): Node -> nat {
    n => Occurrences(Strays(containers, processId, n), id)
  }

  ghost function CountBelow(containers: map<string, Content>, c: string, levels: nat): string -> nat {
    id => Placed(containers, c, levels, id)
  }

  ghost function CountAmong(containers: map<string, Content>, members: seq<Node>, levels: nat): string -> nat {
    id => PlacedAmong(containers, members, levels, id)
  }

  /** These are nodes that get to the process in so many steps. */
  ghost predicate AreAtDepth(t: Nest, members: seq<Node>, depth: nat)
    requires depth > 0
  {
    forall m :: m in members ==> m in t.nodes && IsAtDepth(t, m, depth)
  }

  /** Below a container stand the nodes placed there, each with its stray copies. */
  lemma {:induction false} WrittenBelow(t: Nest, containers: map<string, Content>, c: string,
                                        depth: nat, below: nat, id: string)
    requires Holds(t, containers) && c in containers && depth + below >= |t.nodes|
    requires AreAtDepth(t, containers[c].members, depth + 1)
    ensures Occurrences(Forest(containers, t.processId, c, below + 1), id) ==
      Placed(containers, c, below + 1, id)
      + Weigh(t.nodes, CountBelow(containers, c, below + 1), WeightOf(containers, t.processId, id))
    decreases below, 2, 0
  {
    WrittenAmong(t, containers, containers[c].members, depth, below, id);
    MembersAreBelow(t.nodes, containers, t.processId, c, below, id);
  }

  lemma MembersAreBelow(nodes: seq<Node>, containers: map<string, Content>, processId: string, c: string,
                        below: nat, id: string)
    requires c in containers
    requires Occurrences(ElementsFor(containers, processId, containers[c].members, below + 1), id) ==
      PlacedAmong(containers, containers[c].members, below, id)
      + Weigh(nodes, CountAmong(containers, containers[c].members, below), WeightOf(containers, processId, id))
    ensures Occurrences(Forest(containers, processId, c, below + 1), id) ==
      Placed(containers, c, below + 1, id)
      + Weigh(nodes, CountBelow(containers, c, below + 1), WeightOf(containers, processId, id))
  {
    MembersWeighTheSame(nodes, containers, c, below + 1, WeightOf(containers, processId, id));
  }

  lemma MembersAreDeeper(t: Nest, containers: map<string, Content>, c: string, depth: nat)
    requires Holds(t, containers) && c in containers && AtDepth(t, c, depth)
    ensures AreAtDepth(t, containers[c].members, depth + 1)
  {
    forall m | m in containers[c].members ensures m in t.nodes && IsAtDepth(t, m, depth + 1) {
      MemberIsOneDeeper(t, containers, c, depth, m);
    }
  }

  lemma MembersWeighTheSame(among: seq<Node>, containers: map<string, Content>, c: string, levels: nat,
                            weight: Node -> nat)
    requires levels > 0 && c in containers
    ensures Weigh(among, CountBelow(containers, c, levels), weight) ==
      Weigh(among, CountAmong(containers, containers[c].members, levels - 1), weight)
  {
    SameCounts(among, CountBelow(containers, c, levels), CountAmong(containers, containers[c].members, levels - 1),
               weight);
  }

  lemma {:induction false} SameCounts(among: seq<Node>, a: string -> nat, b: string -> nat, weight: Node -> nat)
    requires forall id :: a(id) == b(id)
    ensures Weigh(among, a, weight) == Weigh(among, b, weight)
  {
    if among != [] {
      SameCounts(among[1..], a, b, weight);
    }
  }

  lemma {:induction false} WrittenAmong(t: Nest, containers: map<string, Content>, members: seq<Node>,
                                        depth: nat, levels: nat, id: string)
    requires Holds(t, containers) && depth + levels >= |t.nodes|
    requires AreAtDepth(t, members, depth + 1)
    ensures Occurrences(ElementsFor(containers, t.processId, members, levels + 1), id) ==
      PlacedAmong(containers, members, levels, id)
      + Weigh(t.nodes, CountAmong(containers, members, levels), WeightOf(containers, t.processId, id))
    decreases levels, 1, |members|
  {
    var weight, all := WeightOf(containers, t.processId, id), CountAmong(containers, members, levels);
    if members == [] {
      WeighNothing(t.nodes, all, weight);
    } else {
      var m, rest := members[0], members[1..];
      WrittenWith(t, containers, m, depth, levels, id);
      WrittenAmong(t, containers, rest, depth, levels, id);
      assert IsSum(m, CountBelow(containers, m.id, levels), CountAmong(containers, rest, levels), all);
      SameIdIsSame(t.nodes, m);
      WeighSum(t.nodes, m, CountBelow(containers, m.id, levels), CountAmong(containers, rest, levels), all, weight);
      OccurrencesAtHead(containers, t.processId, members, levels, id);
    }
  }

  lemma OccurrencesAtHead(containers: map<string, Content>, processId: string, members: seq<Node>,
                          levels: nat, id: string)
    requires members != []
    ensures
      var e := ElementFor(containers, processId, members[0], levels + 1);
      Occurrences(ElementsFor(containers, processId, members, levels + 1), id) ==
      (if e.id == id then 1 else 0) + Occurrences(e.kids, id)
      + Occurrences(ElementsFor(containers, processId, members[1..], levels + 1), id)
  {
    var all := ElementsFor(containers, processId, members, levels + 1);
    assert all[0] == ElementFor(containers, processId, members[0], levels + 1);
    assert all[1..] == ElementsFor(containers, processId, members[1..], levels + 1);
  }

  lemma SameIdIsSame(nodes: seq<Node>, m: Node)
    requires DistinctIds(nodes) && m in nodes
    ensures forall n :: n in nodes && n.id == m.id ==> n == m
  {
    forall n | n in nodes && n.id == m.id ensures n == m {
      FindItself(nodes, n);
      FindItself(nodes, m);
    }
  }

  /** `WrittenBelow` for one member, with its stray copies. */
  lemma {:induction false} WrittenWith(t: Nest, containers: map<string, Content>, m: Node,
                                       depth: nat, levels: nat, id: string)
    requires Holds(t, containers) && depth + levels >= |t.nodes| && m in t.nodes && IsAtDepth(t, m, depth + 1)
    ensures
      var e := ElementFor(containers, t.processId, m, levels + 1);
      && e.id == m.id
      && Occurrences(e.kids, id) ==
         Placed(containers, m.id, levels, id)
         + Weigh(t.nodes, CountBelow(containers, m.id, levels), WeightOf(containers, t.processId, id))
         + WeightOf(containers, t.processId, id)(m)
    decreases levels, 0, 1
  {
    assert m.id in IdSet(t.nodes);
    DepthIsBounded(t, m, depth);
    ForestIsWritten(t, containers, m, depth, levels, id);
    ElementHolds(containers, t.processId, m, levels, id);
  }

  lemma DepthIsBounded(t: Nest, m: Node, depth: nat)
    requires m in t.nodes && IsAtDepth(t, m, depth + 1)
    ensures depth < |t.nodes|
  {
    if depth >= |t.nodes| {
      NothingIsThatDeep(t, [m], depth);
      assert false;
    }
  }

  lemma {:induction false} ForestIsWritten(t: Nest, containers: map<string, Content>, m: Node,
                                           depth: nat, levels: nat, id: string)
    requires Holds(t, containers) && depth + levels >= |t.nodes| && m in t.nodes && IsAtDepth(t, m, depth + 1)
    requires levels > 0
    ensures Occurrences(Forest(containers, t.processId, m.id, levels), id) ==
      Placed(containers, m.id, levels, id)
      + Weigh(t.nodes, CountBelow(containers, m.id, levels), WeightOf(containers, t.processId, id))
    decreases levels, 0, 0
  {
    if m.id in containers {
      FindItself(t.nodes, m);
      MembersAreDeeper(t, containers, m.id, depth + 1);
      WrittenBelow(t, containers, m.id, depth + 1, levels - 1, id);
    } else {
      WeighNothing(t.nodes, CountBelow(containers, m.id, levels), WeightOf(containers, t.processId, id));
    }
  }

  // ---- Main results ----

  /** How often this id stands in the stray copies of nodes that get to the process. */
  ghost function StrayAmong(t: Nest, containers: map<string, Content>, among: seq<Node>, id: string): nat {
    if among == [] then 0
    else
      (if GetsToProcess(t, among[0]) then Occurrences(Strays(containers, t.processId, among[0]), id) else 0)
      + StrayAmong(t, containers, among[1..], id)
  }

  ghost function Stray(nodes: seq<Node>, edges: seq<Edge>, processId: string, id: string): nat {
    StrayAmong(NestOf(nodes, processId), ContainersOf(nodes, edges, processId), nodes, id)
  }

  lemma {:induction false} PlacedWeight(t: Nest, containers: map<string, Content>, among: seq<Node>, id: string,
                                        count: string -> nat, weight: Node -> nat)
    requires forall n :: n in among ==> count(n.id) == if GetsToProcess(t, n) then 1 else 0
    requires forall n :: n in among ==> weight(n) == Occurrences(Strays(containers, t.processId, n), id)
    ensures Weigh(among, count, weight) == StrayAmong(t, containers, among, id)
  {
    if among != [] {
      var n := among[0];
      assert count(n.id) * weight(n) == if GetsToProcess(t, n) then weight(n) else 0;
      PlacedWeight(t, containers, among[1..], id, count, weight);
    }
  }

  lemma ForestHolds(t: Nest, containers: map<string, Content>, id: string)
    requires Holds(t, containers)
    ensures Occurrences(Forest(containers, t.processId, t.processId, |t.nodes| + 1), id) ==
      Placed(containers, t.processId, |t.nodes| + 1, id) + StrayAmong(t, containers, t.nodes, id)
  {
    var count := CountBelow(containers, t.processId, |t.nodes| + 1);
    MembersAreDeeper(t, containers, t.processId, 0);
    WrittenBelow(t, containers, t.processId, 0, |t.nodes|, id);
    forall n | n in t.nodes ensures count(n.id) == if GetsToProcess(t, n) then 1 else 0 {
      PlacedIfItGetsToTheProcess(t, containers, n);
    }
    PlacedWeight(t, containers, t.nodes, id, count, WeightOf(containers, t.processId, id));
  }

  lemma DocumentHolds(nodes: seq<Node>, edges: seq<Edge>, processId: string, id: string)
    requires Drawn(nodes, processId)
    ensures Occurrences(DocumentOf(nodes, edges, processId).kids, id) ==
      Placed(ContainersOf(nodes, edges, processId), processId, |nodes| + 1, id) + Stray(nodes, edges, processId, id)
  {
    ContainersHold(nodes, edges, processId);
    ForestHolds(NestOf(nodes, processId), ContainersOf(nodes, edges, processId), id);
  }

  /**
   A node is written once if effective parents lead from it to the process, and otherwise not at all; and besides as
   often as its id stands in stray copies.
   */
  lemma NestingHoldsWhatGetsToTheProcess(nodes: seq<Node>, edges: seq<Edge>, processId: string, v: Node)
    requires Drawn(nodes, processId) && v in nodes
    ensures Occurrences(DocumentOf(nodes, edges, processId).kids, v.id) ==
      (if GetsToProcess(NestOf(nodes, processId), v) then 1 else 0) + Stray(nodes, edges, processId, v.id)
  {
    DocumentHolds(nodes, edges, processId, v.id);
    ContainersHold(nodes, edges, processId);
    PlacedIfItGetsToTheProcess(NestOf(nodes, processId), ContainersOf(nodes, edges, processId), v);
  }

  /** An element that is no node of the list is written as often as its id stands in stray copies. */
  lemma OthersAreStray(nodes: seq<Node>, edges: seq<Edge>, processId: string, id: string)
    requires Drawn(nodes, processId) && id !in IdSet(nodes)
    ensures Occurrences(DocumentOf(nodes, edges, processId).kids, id) == Stray(nodes, edges, processId, id)
  {
    DocumentHolds(nodes, edges, processId, id);
    ContainersHold(nodes, edges, processId);
    OnlyNodesArePlaced(NestOf(nodes, processId), ContainersOf(nodes, edges, processId), processId, |nodes| + 1, id);
  }

  /** This node gets to the process, and an element with this id stands in its stray copies. */
  ghost predicate StraysWith(nodes: seq<Node>, edges: seq<Edge>, processId: string, n: Node, id: string) {
    && GetsToProcess(NestOf(nodes, processId), n)
    && Occurrences(Strays(ContainersOf(nodes, edges, processId), processId, n), id) > 0
  }

  lemma {:induction false} NoStrayIff(t: Nest, containers: map<string, Content>, among: seq<Node>, id: string)
    ensures StrayAmong(t, containers, among, id) == 0 <==>
      forall n :: n in among && GetsToProcess(t, n) ==> Occurrences(Strays(containers, t.processId, n), id) == 0
  {
    if among != [] {
      NoStrayIff(t, containers, among[1..], id);
      assert forall n :: n in among <==> n == among[0] || n in among[1..];
    }
  }

  /**
   So a node is written exactly as often as it gets to the process if and only if no written node carries its id in
   copies that no member filed under that node replaces.
   */
  lemma WrittenAsPlacedIff(nodes: seq<Node>, edges: seq<Edge>, processId: string, v: Node)
    requires Drawn(nodes, processId) && v in nodes
    ensures
      Occurrences(DocumentOf(nodes, edges, processId).kids, v.id) ==
        (if GetsToProcess(NestOf(nodes, processId), v) then 1 else 0)
      <==> forall n :: n in nodes ==> !StraysWith(nodes, edges, processId, n, v.id)
  {
    NestingHoldsWhatGetsToTheProcess(nodes, edges, processId, v);
    NoStrayIff(NestOf(nodes, processId), ContainersOf(nodes, edges, processId), nodes, v.id);
  }

  /**
   When each taker is larger than the sub-process it takes in, every node except pools, lanes and message flows is
   written once, and none of those; but for stray copies.
   */
  lemma NestingHoldsEveryNodeOnce(nodes: seq<Node>, edges: seq<Edge>, processId: string, v: Node)
    requires Drawn(nodes, processId) && TakersAreLarger(NestOf(nodes, processId)) && v in nodes
    ensures Emitted(v) <==> v.tag != Participant && v.tag != Lane && v.tag != MessageFlow
    ensures GetsToProcess(NestOf(nodes, processId), v) <==> Emitted(v)
    ensures Occurrences(DocumentOf(nodes, edges, processId).kids, v.id) ==
      (if Emitted(v) then 1 else 0) + Stray(nodes, edges, processId, v.id)
  {
    LargerTakersLeadToProcess(nodes, processId, v);
    NestingHoldsWhatGetsToTheProcess(nodes, edges, processId, v);
  }

  // ---- Nodes that are lost ----

  /** The node does not get to the process: of its id, only stray copies are written. */
  ghost predicate IsLost(nodes: seq<Node>, edges: seq<Edge>, processId: string, n: Node) {
    && !GetsToProcess(NestOf(nodes, processId), n)
    && Occurrences(DocumentOf(nodes, edges, processId).kids, n.id) == Stray(nodes, edges, processId, n.id)
  }

  lemma WithoutCopiesNothingStrays(nodes: seq<Node>, edges: seq<Edge>, processId: string, id: string)
    requires forall n :: n in nodes ==> n.copies == []
    ensures Stray(nodes, edges, processId, id) == 0
  {
    NoStrayIff(NestOf(nodes, processId), ContainersOf(nodes, edges, processId), nodes, id);
  }

  lemma {:induction false} NeverWithin(t: Nest, a: Node, b: Node, k: nat)
    requires t.Home(a) == b.id && t.Home(b) == a.id && a.id != t.processId && b.id != t.processId
    requires Find(t.nodes, a.id) == Some(a) && Find(t.nodes, b.id) == Some(b)
    ensures !Within(t, a, k) && !Within(t, b, k)
  {
    if k > 0 {
      NeverWithin(t, a, b, k - 1);
    }
  }

  /** Two nodes that take each other in are both lost: only stray copies of them are written. */
  lemma MutualTakersAreLost(nodes: seq<Node>, edges: seq<Edge>, processId: string, a: Node, b: Node)
    requires Drawn(nodes, processId) && a in nodes && b in nodes
    requires NestOf(nodes, processId).Home(a) == b.id && NestOf(nodes, processId).Home(b) == a.id
    ensures IsLost(nodes, edges, processId, a) && IsLost(nodes, edges, processId, b)
  {
    var t := NestOf(nodes, processId);
    FindItself(nodes, a);
    FindItself(nodes, b);
    assert a.id in IdSet(nodes) && b.id in IdSet(nodes);
    forall k: nat ensures !Within(t, a, k) && !Within(t, b, k) {
      NeverWithin(t, a, b, k);
    }
    NestingHoldsWhatGetsToTheProcess(nodes, edges, processId, a);
    NestingHoldsWhatGetsToTheProcess(nodes, edges, processId, b);
  }

  lemma HomeOfTaken(nodes: seq<Node>, processId: string, n: Node, taker: Node)
    requires n in nodes && taker in nodes && IsSubProcess(taker) && taker.id != ""
    requires EffectiveParent(nodes, processId, n) == taker.id
    ensures NestOf(nodes, processId).Home(n) == taker.id
  {
  }

  /** No other sub-process around the middle of `n` is as small as `n`. */
  ghost predicate OthersAreLarger(nodes: seq<Node>, n: Node, twin: Node) {
    forall m :: m in nodes && m.id != twin.id && IsAround(nodes, m, n) ==> IsLarger(nodes, m, n)
  }

  predicate IsLarger(nodes: seq<Node>, m: Node, n: Node) {
    Size(BoxOf(nodes, m)) > Size(BoxOf(nodes, n))
  }

  lemma SameBoxIsTaken(nodes: seq<Node>, processId: string, a: Node, b: Node)
    requires DistinctIds(nodes) && BoxOf(nodes, a) == BoxOf(nodes, b) && HasSize(BoxOf(nodes, a))
    requires OthersAreLarger(nodes, a, b) && b in nodes && IsSubProcess(b) && a.id != b.id && a.parent == ""
    ensures EffectiveParent(nodes, processId, a) == b.id
  {
    var i :| 0 <= i < |nodes| && nodes[i] == b;
    forall j | 0 <= j < |nodes| && IsAround(nodes, nodes[j], a) ensures ComesAfter(nodes, i, j) {
      if j != i {
        assert nodes[j] in nodes && IsLarger(nodes, nodes[j], a);
      }
    }
    TakenBySmallestAround(nodes, processId, a, i);
  }

  /** Two sub-processes with the same box, unless a smaller or equal one around their centre takes them both. */
  lemma TwinSubProcessesAreLost(nodes: seq<Node>, edges: seq<Edge>, processId: string, a: Node, b: Node)
    requires Drawn(nodes, processId) && a in nodes && b in nodes && a != b
    requires IsSubProcess(a) && a.parent == "" && a.id != "" && IsSubProcess(b) && b.parent == "" && b.id != ""
    requires BoxOf(nodes, a) == BoxOf(nodes, b) && HasSize(BoxOf(nodes, a))
    requires OthersAreLarger(nodes, a, b) && OthersAreLarger(nodes, b, a)
    ensures IsLost(nodes, edges, processId, a) && IsLost(nodes, edges, processId, b)
  {
    FindItself(nodes, a);
    FindItself(nodes, b);
    SameBoxIsTaken(nodes, processId, a, b);
    SameBoxIsTaken(nodes, processId, b, a);
    HomeOfTaken(nodes, processId, a, b);
    HomeOfTaken(nodes, processId, b, a);
    MutualTakersAreLost(nodes, edges, processId, a, b);
  }

  /** An expanded sub-process of the default size at the origin. */
  function Twin(id: string): Node {
    Node(id, SubProcessNode, SubProcess, false, "", 0.0, 0.0, 200.0, 150.0, [], [])
  }

  lemma TwinsShareABox(nodes: seq<Node>)
    requires nodes == [Twin("a"), Twin("b")]
    ensures BoxOf(nodes, nodes[0]) == BoxOf(nodes, nodes[1]) == Bounds(0.0, 0.0, 200.0, 150.0)
  {
    assert nodes[1..] == [Twin("b")];
    assert Find([Twin("b")], "b") == Some(Twin("b"));
  }

  /** A diagram of two such sub-processes and nothing else is written without any of them. */
  lemma TwoTwinsAreLost(edges: seq<Edge>)
    ensures
      var doc := DocumentOf([Twin("a"), Twin("b")], edges, "p");
      Occurrences(doc.kids, "a") == 0 && Occurrences(doc.kids, "b") == 0
  {
    var nodes := [Twin("a"), Twin("b")];
    TwinsShareABox(nodes);
    UnlinkedEnd(nodes);
    TwinSubProcessesAreLost(nodes, edges, "p", nodes[0], nodes[1]);
    WithoutCopiesNothingStrays(nodes, edges, "p", "a");
    WithoutCopiesNothingStrays(nodes, edges, "p", "b");
  }

  // ---- Copies that should not be there ----

  /** A sub-process of the default size at the origin, read from a file in which it holds one task. */
  function Loaded(): Node {
    Node("s", SubProcessNode, SubProcess, false, "", 0.0, 0.0, 200.0, 150.0, [Element("t", UserTask, [], [])], [])
  }

  /** The task, dragged out of the sub-process. */
  function DraggedOut(): Node {
    Node("t", FlowNode(UserTask), UserTask, false, "", 1000.0, 1000.0, 100.0, 80.0, [], [])
  }

  lemma GoesToProcess(nodes: seq<Node>, processId: string, n: Node)
    requires n in nodes && n.parent == "" && Emitted(n) && processId !in IdSet(nodes)
    requires forall m :: m in nodes ==> !IsAround(nodes, m, n)
    ensures DiagramGenerator.Home(nodes, processId, n) == processId && GetsToProcess(NestOf(nodes, processId), n)
  {
    NoneAround(nodes, n);
    assert Within(NestOf(nodes, processId), n, 1);
  }

  /** Without members, a container is written with all its copies. */
  lemma EmptyContainerKeepsCopies(nodes: seq<Node>, edges: seq<Edge>, processId: string, c: Node)
    requires c in nodes && forall n :: n in nodes ==> DiagramGenerator.Home(nodes, processId, n) != c.id
    ensures Strays(ContainersOf(nodes, edges, processId), processId, c) == c.copies
  {
    var containers := ContainersOf(nodes, edges, processId);
    if c.id in containers {
      NoMembers(nodes, processId, nodes, c.id);
      assert Forest(containers, processId, c.id, 1) == [];
      NothingReplaces(c.copies);
    }
  }

  lemma {:induction false} NoMembers(nodes: seq<Node>, processId: string, among: seq<Node>, c: string)
    requires forall n :: n in among ==> DiagramGenerator.Home(nodes, processId, n) != c
    ensures MembersAt(nodes, processId, among, c) == []
  {
    if among != [] {
      assert among[|among| - 1] in among;
      NoMembers(nodes, processId, among[..|among| - 1], c);
    }
  }

  lemma {:induction false} NothingReplaces(copies: seq<Element>)
    ensures Leftover(copies, []) == copies
  {
    if copies != [] {
      NothingReplaces(copies[1..]);
    }
  }

  /** The diagram after the task was deleted, or was dragged out. */
  predicate IsLoaded(nodes: seq<Node>) {
    nodes == [Loaded()] || nodes == [Loaded(), DraggedOut()]
  }

  lemma LoadedIsDrawn(nodes: seq<Node>)
    requires IsLoaded(nodes)
    ensures Drawn(nodes, "p") && forall n :: n in nodes ==> n.parent == "" && Emitted(n)
  {
    UnlinkedEnd(nodes);
    assert |"s"| == 1 && "s" != "t" && "s" != "p" && "t" != "p";
  }

  lemma LoadedGoesToProcess(nodes: seq<Node>)
    requires IsLoaded(nodes)
    ensures Drawn(nodes, "p")
    ensures forall n :: n in nodes ==>
      DiagramGenerator.Home(nodes, "p", n) == "p" && GetsToProcess(NestOf(nodes, "p"), n)
  {
    LoadedIsDrawn(nodes);
    DraggedIsOutside(nodes);
    AllGoToProcess(nodes, "p");
  }

  lemma AllGoToProcess(nodes: seq<Node>, processId: string)
    requires processId !in IdSet(nodes) && forall n :: n in nodes ==> n.parent == "" && Emitted(n)
    requires forall m, n :: m in nodes && n in nodes ==> !IsAround(nodes, m, n)
    ensures forall n :: n in nodes ==>
      DiagramGenerator.Home(nodes, processId, n) == processId && GetsToProcess(NestOf(nodes, processId), n)
  {
    forall n | n in nodes
      ensures DiagramGenerator.Home(nodes, processId, n) == processId && GetsToProcess(NestOf(nodes, processId), n)
    {
      GoesToProcess(nodes, processId, n);
    }
  }

  lemma DraggedIsOutside(nodes: seq<Node>)
    requires IsLoaded(nodes)
    ensures forall m, n :: m in nodes && n in nodes ==> !IsAround(nodes, m, n)
  {
    assert Find(nodes, "s") == Some(Loaded());
    assert AbsolutePosition(nodes, "s") == Point(0.0, 0.0);
    if |nodes| == 2 {
      assert nodes[1..] == [DraggedOut()];
      assert Find(nodes[1..], "t") == Some(DraggedOut());
      assert AbsolutePosition(nodes, "t") == Point(1000.0, 1000.0);
    }
  }

  /** The task is written where it is now, and once more inside the sub-process it was dragged out of. */
  lemma DraggedTaskIsWrittenTwice(edges: seq<Edge>)
    ensures
      var nodes := [Loaded(), DraggedOut()];
      && Drawn(nodes, "p") && TakersAreLarger(NestOf(nodes, "p"))
      && Occurrences(DocumentOf(nodes, edges, "p").kids, "t") == 2
  {
    var nodes := [Loaded(), DraggedOut()];
    LoadedGoesToProcess(nodes);
    LoadedStrays(nodes, edges, "p", "t");
    NestingHoldsWhatGetsToTheProcess(nodes, edges, "p", DraggedOut());
    forall n | n in nodes ensures NestOf(nodes, "p").Home(n) == "p" {
    }
  }

  function CountCopies(nodes: seq<Node>, id: string): nat {
    if nodes == [] then 0 else Occurrences(nodes[0].copies, id) + CountCopies(nodes[1..], id)
  }

  /** When all nodes are filed under the process, all copies are stray. */
  lemma {:induction false} AllCopiesStray(nodes: seq<Node>, edges: seq<Edge>, processId: string,
                                          among: seq<Node>, id: string)
    requires processId !in IdSet(nodes) && forall n :: n in among ==> n in nodes
    requires forall n :: n in nodes ==>
      DiagramGenerator.Home(nodes, processId, n) == processId && GetsToProcess(NestOf(nodes, processId), n)
    ensures StrayAmong(NestOf(nodes, processId), ContainersOf(nodes, edges, processId), among, id) ==
      CountCopies(among, id)
  {
    if among != [] {
      assert among[0].id in IdSet(nodes);
      EmptyContainerKeepsCopies(nodes, edges, processId, among[0]);
      AllCopiesStray(nodes, edges, processId, among[1..], id);
    }
  }

  lemma LoadedStrays(nodes: seq<Node>, edges: seq<Edge>, processId: string, id: string)
    requires IsLoaded(nodes) && processId == "p" && id == "t"
    ensures Stray(nodes, edges, processId, id) == 1
  {
    LoadedGoesToProcess(nodes);
    AllCopiesStray(nodes, edges, processId, nodes, id);
    CopiedOnce(nodes);
  }

  lemma CopiedOnce(nodes: seq<Node>)
    requires IsLoaded(nodes)
    ensures CountCopies(nodes, "t") == 1
  {
    assert Loaded().copies[1..] == [];
    assert Occurrences(Loaded().copies, "t") == 1;
    assert nodes[1..] == [] || (nodes[1..] == [DraggedOut()] && nodes[1..][1..] == []);
    assert CountCopies([], "t") == 0 && CountCopies(nodes[1..], "t") == 0;
  }

  /** A task that was deleted, the last of its tag in its sub-process, is written again. */
  lemma DeletedTaskComesBack(edges: seq<Edge>)
    ensures
      var nodes := [Loaded()];
      Drawn(nodes, "p") && "t" !in IdSet(nodes) && Occurrences(DocumentOf(nodes, edges, "p").kids, "t") == 1
  {
    var nodes := [Loaded()];
    LoadedGoesToProcess(nodes);
    LoadedStrays(nodes, edges, "p", "t");
    OthersAreStray(nodes, edges, "p", "t");
  }
}
