/**
 How the flat list is nested: the containers are filled by reference, so the document is a finite tree, and a node is
 placed in it once or, when its chain of effective parents never gets to the process, not at all.
 */
module DiagramNesting {
  import opened Options
  import opened Diagram
  import opened DiagramGenerator
  import opened DiagramLinks

  /** A list of nodes with the container each one goes to. */
  datatype Nest = Nest(nodes: seq<Node>, processId: string, homes: map<Node, string>) {
    function Home(n: Node): string {
      if n in homes then homes[n] else processId
    }
  }

  function NestOf(nodes: seq<Node>, processId: string): Nest {
    Nest(nodes, processId, map n | n in nodes :: DiagramGenerator.Home(nodes, processId, n))
  }

  /** Ids name one thing each. */
  ghost predicate HasOwnIds(nodes: seq<Node>, processId: string) {
    DistinctIds(nodes) && processId !in IdSet(nodes)
  }

  /** A diagram that can be written: besides, no node is its own ancestor. */
  ghost predicate Drawn(nodes: seq<Node>, processId: string) {
    HasOwnIds(nodes, processId) && LinksEnd(nodes)
  }

  /** Following effective parents from `n` gets to the process in at most `k` steps, through written nodes only. */
  predicate Within(t: Nest, n: Node, k: nat)
    decreases k
  {
    && k > 0 && Emitted(n)
    && (t.Home(n) == t.processId
        || (Find(t.nodes, t.Home(n)).Some? && Within(t, Find(t.nodes, t.Home(n)).value, k - 1)))
  }

  ghost predicate GetsToProcess(t: Nest, n: Node) {
    exists k: nat :: Within(t, n, k)
  }

  // ---- Counting ----

  function CountId(members: seq<Node>, id: string): nat {
    if members == [] then 0 else (if members[0].id == id then 1 else 0) + CountId(members[1..], id)
  }

  lemma {:induction false} CountAppend(a: seq<Node>, b: seq<Node>, id: string)
    ensures CountId(a + b, id) == CountId(a, id) + CountId(b, id)
  {
    if a == [] {
      assert a + b == b;
    } else {
      assert (a + b)[1..] == a[1..] + b;
      CountAppend(a[1..], b, id);
    }
  }

  lemma CountOne(n: Node, id: string)
    ensures CountId([n], id) == if n.id == id then 1 else 0
  {
    assert [n][1..] == [];
  }

  /** `v` was filed under `c`. */
  predicate FiledUnder(nodes: seq<Node>, processId: string, v: Node, c: string) {
    Emitted(v) && DiagramGenerator.Home(nodes, processId, v) == c
  }

  /** A written node is a member of its home and of no other container. */
  lemma {:induction false} CountMember(nodes: seq<Node>, processId: string, i: nat, c: string, k: nat)
    requires DistinctIds(nodes) && k < |nodes| && i <= |nodes|
    ensures CountId(MembersAt(nodes, processId, nodes[..i], c), nodes[k].id) ==
      if k < i && FiledUnder(nodes, processId, nodes[k], c) then 1 else 0
  {
    if i == 0 {
    } else {
      var last := nodes[i - 1];
      CountMember(nodes, processId, i - 1, c, k);
      NextMember(nodes, processId, i - 1, c);
      var filed := if FiledUnder(nodes, processId, last, c) then [last] else [];
      CountAppend(MembersAt(nodes, processId, nodes[..i - 1], c), filed, nodes[k].id);
      if filed != [] {
        CountOne(last, nodes[k].id);
      }
      assert last.id == nodes[k].id <==> k == i - 1;
    }
  }

  /** The containers of a diagram, seen through the home of every node. */
  ghost predicate Holds(t: Nest, containers: map<string, Content>) {
    && HasOwnIds(t.nodes, t.processId) && t.processId in containers
    && (forall n :: n in t.nodes ==> t.Home(n) in containers)
    && (forall c :: c in containers ==> HoldsMembers(t, containers[c].members, c))
  }

  ghost predicate HoldsMembers(t: Nest, members: seq<Node>, c: string) {
    && (c == t.processId || c in IdSet(t.nodes))
    && (forall m :: m in members ==> m in t.nodes && Emitted(m) && t.Home(m) == c)
    && (forall v :: v in t.nodes ==> CountId(members, v.id) == if Emitted(v) && t.Home(v) == c then 1 else 0)
  }

  lemma ContainersHold(nodes: seq<Node>, edges: seq<Edge>, processId: string)
    requires HasOwnIds(nodes, processId)
    ensures Holds(NestOf(nodes, processId), ContainersOf(nodes, edges, processId))
  {
    var t := NestOf(nodes, processId);
    forall n | n in nodes ensures t.Home(n) in ContainerKeys(nodes, processId) {
      HomeIsContainer(nodes, processId, n);
    }
    forall c | c in ContainerKeys(nodes, processId)
      ensures HoldsMembers(t, MembersAt(nodes, processId, nodes, c), c)
    {
      var members := MembersAt(nodes, processId, nodes, c);
      forall v | v in nodes ensures CountId(members, v.id) == if Emitted(v) && t.Home(v) == c then 1 else 0 {
        var k :| 0 <= k < |nodes| && nodes[k] == v;
        CountMember(nodes, processId, |nodes|, c, k);
        assert nodes[..|nodes|] == nodes;
      }
    }
  }

  /** How often a node with this id is placed below a container, in so many levels. */
  function Placed(containers: map<string, Content>, c: string, levels: nat, id: string): nat
    decreases levels, 0, 0
  {
    if levels == 0 || c !in containers then 0 else PlacedAmong(containers, containers[c].members, levels - 1, id)
  }

  /** How often it is one of these members, or placed in so many levels below them. */
  function PlacedAmong(containers: map<string, Content>, members: seq<Node>, levels: nat, id: string): nat
    decreases levels, 1, |members|
  {
    if members == [] then 0
    else
      (if members[0].id == id then 1 else 0) + Placed(containers, members[0].id, levels, id)
      + PlacedAmong(containers, members[1..], levels, id)
  }

  /** Each place of a node is below a place of its home: one level less for the home itself. */
  lemma {:induction false} PlacedBelow(t: Nest, containers: map<string, Content>, c: string, levels: nat, v: Node)
    requires Holds(t, containers) && c in containers && v in t.nodes
    ensures Placed(containers, c, levels + 1, v.id) ==
      if Emitted(v) then (if t.Home(v) == c then 1 else 0) + Placed(containers, c, levels, t.Home(v)) else 0
    decreases levels, 2, 0
  {
    assert HoldsMembers(t, containers[c].members, c);
    PlacedBelowAmong(t, containers, containers[c].members, levels, v);
  }

  lemma {:induction false} PlacedBelowAmong(t: Nest, containers: map<string, Content>, members: seq<Node>,
                                            levels: nat, v: Node)
    requires Holds(t, containers) && v in t.nodes && forall m :: m in members ==> m in t.nodes
    ensures PlacedAmong(containers, members, levels, v.id) ==
      CountId(members, v.id)
      + if Emitted(v) && levels > 0 then PlacedAmong(containers, members, levels - 1, t.Home(v)) else 0
    decreases levels, 1, |members|
  {
    if members == [] {
    } else {
      PlacedIn(t, containers, members[0], levels, v);
      PlacedBelowAmong(t, containers, members[1..], levels, v);
    }
  }

  /** `PlacedBelow` for one member. */
  lemma {:induction false} PlacedIn(t: Nest, containers: map<string, Content>, m: Node, levels: nat, v: Node)
    requires Holds(t, containers) && v in t.nodes && m in t.nodes
    ensures Placed(containers, m.id, levels, v.id) ==
      if Emitted(v) && levels > 0
      then (if t.Home(v) == m.id then 1 else 0) + Placed(containers, m.id, levels - 1, t.Home(v))
      else 0
    decreases levels, 0, 0
  {
    if m.id !in containers {
      HomeIsInside(t, containers, v);
    } else if levels > 0 {
      var below := levels - 1;
      PlacedBelow(t, containers, m.id, below, v);
      assert levels == below + 1;
    }
  }

  lemma HomeIsInside(t: Nest, containers: map<string, Content>, v: Node)
    requires Holds(t, containers) && v in t.nodes
    ensures t.Home(v) in containers
  {
  }

  /** Only nodes of the list are placed. */
  lemma {:induction false} OnlyNodesArePlaced(t: Nest, containers: map<string, Content>, c: string,
                                              levels: nat, id: string)
    requires Holds(t, containers) && id !in IdSet(t.nodes)
    ensures Placed(containers, c, levels, id) == 0
    decreases levels, 0, 0
  {
    if levels > 0 && c in containers {
      assert HoldsMembers(t, containers[c].members, c);
      OnlyNodesAmong(t, containers, containers[c].members, levels - 1, id);
    }
  }

  lemma {:induction false} OnlyNodesAmong(t: Nest, containers: map<string, Content>, members: seq<Node>,
                                          levels: nat, id: string)
    requires Holds(t, containers) && id !in IdSet(t.nodes) && forall m :: m in members ==> m in t.nodes
    ensures PlacedAmong(containers, members, levels, id) == 0
    decreases levels, 1, |members|
  {
    if members == [] {
    } else {
      assert members[0].id in IdSet(t.nodes);
      OnlyNodesArePlaced(t, containers, members[0].id, levels, id);
      OnlyNodesAmong(t, containers, members[1..], levels, id);
    }
  }

  lemma {:induction false} PlacedOnceWithin(t: Nest, containers: map<string, Content>, levels: nat, v: Node)
    requires Holds(t, containers) && v in t.nodes
    ensures Placed(containers, t.processId, levels, v.id) == if Within(t, v, levels) then 1 else 0
    decreases levels, 0
  {
    if levels > 0 {
      PlacedOnceInMore(t, containers, levels - 1, v);
    }
  }

  lemma {:induction false} PlacedOnceInMore(t: Nest, containers: map<string, Content>, below: nat, v: Node)
    requires Holds(t, containers) && v in t.nodes
    ensures Placed(containers, t.processId, below + 1, v.id) == if Within(t, v, below + 1) then 1 else 0
    decreases below, 2
  {
    PlacedBelow(t, containers, t.processId, below, v);
    PlacedHome(t, containers, below, v);
    PlacedStep(t, containers, below, v);
  }

  /** One step of the count is one step towards the process. */
  lemma PlacedStep(t: Nest, containers: map<string, Content>, below: nat, v: Node)
    requires Placed(containers, t.processId, below + 1, v.id) ==
      if Emitted(v)
      then (if t.Home(v) == t.processId then 1 else 0) + Placed(containers, t.processId, below, t.Home(v))
      else 0
    requires t.Home(v) == t.processId ==> Placed(containers, t.processId, below, t.Home(v)) == 0
    requires t.Home(v) != t.processId ==>
      && Find(t.nodes, t.Home(v)).Some?
      && Placed(containers, t.processId, below, t.Home(v)) ==
         if Within(t, Find(t.nodes, t.Home(v)).value, below) then 1 else 0
    ensures Placed(containers, t.processId, below + 1, v.id) == if Within(t, v, below + 1) then 1 else 0
  {
  }

  lemma {:induction false} PlacedHome(t: Nest, containers: map<string, Content>, levels: nat, v: Node)
    requires Holds(t, containers) && v in t.nodes
    ensures t.Home(v) == t.processId ==> Placed(containers, t.processId, levels, t.Home(v)) == 0
    ensures t.Home(v) != t.processId ==>
      && Find(t.nodes, t.Home(v)).Some?
      && Placed(containers, t.processId, levels, t.Home(v)) ==
         if Within(t, Find(t.nodes, t.Home(v)).value, levels) then 1 else 0
    decreases levels, 1
  {
    if t.Home(v) == t.processId {
      OnlyNodesArePlaced(t, containers, t.processId, levels, t.processId);
    } else {
      HomeIsNode(t, containers, v);
      PlacedOnceWithin(t, containers, levels, Find(t.nodes, t.Home(v)).value);
    }
  }

  lemma HomeIsNode(t: Nest, containers: map<string, Content>, v: Node)
    requires Holds(t, containers) && v in t.nodes && t.Home(v) != t.processId
    ensures Find(t.nodes, t.Home(v)).Some?
  {
    var home := t.Home(v);
    assert HoldsMembers(t, containers[home].members, home);
    assert home in IdSet(t.nodes);
  }

  // ---- No chain of effective parents is longer than the list ----

  ghost function Reachers(t: Nest, k: nat): set<Node> {
    set n | n in t.nodes && Within(t, n, k)
  }

  lemma {:induction false} WithinGrows(t: Nest, n: Node, k: nat, m: nat)
    requires k <= m && Within(t, n, k)
    ensures Within(t, n, m)
    decreases k
  {
    if t.Home(n) != t.processId {
      WithinGrows(t, Find(t.nodes, t.Home(n)).value, k - 1, m - 1);
    }
  }

  /** Once the sets stop growing, longer chains reach nothing new. */
  lemma {:induction false} SettledReach(t: Nest, j: nat, n: Node, k: nat)
    requires Reachers(t, j) == Reachers(t, j + 1) && n in t.nodes && Within(t, n, k)
    ensures Within(t, n, j)
    decreases k
  {
    if k <= j {
      WithinGrows(t, n, k, j);
    } else {
      if t.Home(n) != t.processId {
        SettledReach(t, j, Find(t.nodes, t.Home(n)).value, k - 1);
      }
      assert n in Reachers(t, j + 1);
    }
  }

  lemma ReachersGrow(t: Nest, k: nat)
    ensures Reachers(t, k) == Reachers(t, k + 1) || |Reachers(t, k)| < |Reachers(t, k + 1)|
  {
    forall n | n in Reachers(t, k) ensures n in Reachers(t, k + 1) {
      WithinGrows(t, n, k, k + 1);
    }
    StrictSubsetIsSmaller(Reachers(t, k), Reachers(t, k + 1));
  }

  /** The sets have stopped growing before step `k`. */
  ghost predicate SettledBefore(t: Nest, j: nat, k: nat) {
    j < k && Reachers(t, j) == Reachers(t, j + 1)
  }

  /** Either the sets have stopped growing before step `k`, or they hold at least `k` nodes. */
  lemma {:induction false} ReachersGrowOrSettle(t: Nest, k: nat) returns (j: nat)
    ensures |Reachers(t, k)| >= k || SettledBefore(t, j, k)
  {
    j := 0;
    if k > 0 {
      j := ReachersGrowOrSettle(t, k - 1);
      if !SettledBefore(t, j, k - 1) {
        ReachersGrow(t, k - 1);
        j := k - 1;
      }
    }
  }

  lemma ReachersHaveSettled(t: Nest) returns (j: nat)
    ensures j <= |t.nodes| && Reachers(t, j) == Reachers(t, j + 1)
  {
    j := ReachersGrowOrSettle(t, |t.nodes| + 1);
    ListSize(t.nodes);
    StrictSubsetIsSmaller(Reachers(t, |t.nodes| + 1), set m | m in t.nodes);
  }

  lemma ChainsAreShort(t: Nest, n: Node, k: nat)
    requires n in t.nodes && Within(t, n, k)
    ensures Within(t, n, |t.nodes|)
  {
    var j := ReachersHaveSettled(t);
    SettledReach(t, j, n, k);
    WithinGrows(t, n, j, |t.nodes|);
  }

  // ---- Main results ----

  /** A node is placed once if effective parents lead from it to the process, and otherwise never. */
  lemma PlacedIfItGetsToTheProcess(t: Nest, containers: map<string, Content>, v: Node)
    requires Holds(t, containers) && v in t.nodes
    ensures Placed(containers, t.processId, |t.nodes| + 1, v.id) == if GetsToProcess(t, v) then 1 else 0
  {
    PlacedOnceWithin(t, containers, |t.nodes| + 1, v);
    if k: nat :| Within(t, v, k) {
      ChainsAreShort(t, v, k);
      WithinGrows(t, v, |t.nodes|, |t.nodes| + 1);
    }
  }

  /** Every sub-process is written, and has less area than the sub-process that takes it in. */
  ghost predicate TakersAreLarger(t: Nest) {
    forall n :: n in t.nodes && IsSubProcess(n) ==> Emitted(n) && TakerIsLarger(t, n)
  }

  ghost predicate TakerIsLarger(t: Nest, n: Node) {
    t.Home(n) != t.processId ==> Find(t.nodes, t.Home(n)).Some? && Area(Find(t.nodes, t.Home(n)).value) > Area(n)
  }

  ghost function Larger(nodes: seq<Node>, than: real): set<Node> {
    set n | n in nodes && Area(n) > than
  }

  /** A home other than the process is a sub-process. */
  ghost predicate HomesAreSubProcesses(t: Nest) {
    forall n :: n in t.nodes && t.Home(n) != t.processId ==>
      Find(t.nodes, t.Home(n)).Some? && IsSubProcess(Find(t.nodes, t.Home(n)).value)
  }

  lemma {:induction false} LargerTakersLeadUp(t: Nest, n: Node) returns (k: nat)
    requires TakersAreLarger(t) && HomesAreSubProcesses(t) && n in t.nodes && IsSubProcess(n)
    ensures Within(t, n, k)
    decreases |Larger(t.nodes, Area(n))|
  {
    assert TakerIsLarger(t, n);
    if t.Home(n) == t.processId {
      k := 1;
    } else {
      var host := Find(t.nodes, t.Home(n)).value;
      var above, here := Larger(t.nodes, Area(host)), Larger(t.nodes, Area(n));
      assert host in here && host !in above;
      StrictSubsetIsSmaller(above, here);
      var up := LargerTakersLeadUp(t, host);
      k := up + 1;
    }
  }

  lemma HomeIsSubProcess(nodes: seq<Node>, processId: string, n: Node)
    requires DistinctIds(nodes) && DiagramGenerator.Home(nodes, processId, n) != processId
    ensures
      var found := Find(nodes, DiagramGenerator.Home(nodes, processId, n));
      found.Some? && IsSubProcess(found.value)
  {
    var home := DiagramGenerator.Home(nodes, processId, n);
    var sp :| sp in nodes && IsSubProcess(sp) && sp.id == home;
    var host := Find(nodes, home).value;
    var i :| 0 <= i < |nodes| && nodes[i] == sp;
    var j :| 0 <= j < |nodes| && nodes[j] == host;
    assert i == j;
  }

  /** Then every node that is written gets to the process. */
  lemma LargerTakersLeadToProcess(nodes: seq<Node>, processId: string, v: Node)
    requires DistinctIds(nodes) && TakersAreLarger(NestOf(nodes, processId)) && v in nodes
    ensures GetsToProcess(NestOf(nodes, processId), v) <==> Emitted(v)
  {
    var t := NestOf(nodes, processId);
    forall n | n in nodes && t.Home(n) != processId
      ensures Find(nodes, t.Home(n)).Some? && IsSubProcess(Find(nodes, t.Home(n)).value)
    {
      HomeIsSubProcess(nodes, processId, n);
    }
    if Emitted(v) {
      if t.Home(v) == processId {
        assert Within(t, v, 1);
      } else {
        var up := LargerTakersLeadUp(t, Find(nodes, t.Home(v)).value);
        assert Within(t, v, up + 1);
      }
    }
  }

  /** The container is the process, or a node that gets to it in `depth` steps and no fewer. */
  ghost predicate AtDepth(t: Nest, c: string, depth: nat) {
    if depth == 0 then c == t.processId
    else Find(t.nodes, c).Some? && IsAtDepth(t, Find(t.nodes, c).value, depth)
  }

  ghost predicate IsAtDepth(t: Nest, n: Node, depth: nat)
    requires depth > 0
  {
    Within(t, n, depth) && !Within(t, n, depth - 1)
  }

  lemma MemberIsOneDeeper(t: Nest, containers: map<string, Content>, c: string, depth: nat, m: Node)
    requires Holds(t, containers) && c in containers && AtDepth(t, c, depth) && m in containers[c].members
    ensures m in t.nodes && IsAtDepth(t, m, depth + 1)
  {
    assert HoldsMembers(t, containers[c].members, c);
    if depth > 0 {
      assert Find(t.nodes, c).value.id in IdSet(t.nodes);
    }
  }

  lemma NothingIsThatDeep(t: Nest, members: seq<Node>, depth: nat)
    requires depth >= |t.nodes| && forall m :: m in members ==> m in t.nodes && IsAtDepth(t, m, depth + 1)
    ensures members == []
  {
    if members != [] {
      assert members[0] in members;
      ChainsAreShort(t, members[0], depth + 1);
      WithinGrows(t, members[0], |t.nodes|, depth);
    }
  }

  /**
   The tree below a container that is `depth` steps from the process does not change once enough levels are
   unfolded, so the references between the written elements form a finite tree.
   */
  lemma {:induction false} ForestSettles(t: Nest, containers: map<string, Content>, c: string, depth: nat, levels: nat)
    requires Holds(t, containers) && c in containers && depth + levels >= |t.nodes| && AtDepth(t, c, depth)
    ensures Forest(containers, t.processId, c, levels + 1) == Forest(containers, t.processId, c, levels)
    decreases levels, 1, 0
  {
    var members := containers[c].members;
    forall m | m in members ensures m in t.nodes && IsAtDepth(t, m, depth + 1) {
      MemberIsOneDeeper(t, containers, c, depth, m);
    }
    if levels == 0 {
      NothingIsThatDeep(t, members, depth);
    } else {
      ElementsSettle(t, containers, members, depth, levels);
    }
  }

  lemma {:induction false} ElementsSettle(t: Nest, containers: map<string, Content>, members: seq<Node>,
                                          depth: nat, levels: nat)
    requires Holds(t, containers) && depth + levels >= |t.nodes| && levels > 0
    requires forall m :: m in members ==> m in t.nodes && IsAtDepth(t, m, depth + 1)
    ensures ElementsFor(containers, t.processId, members, levels + 1) ==
      ElementsFor(containers, t.processId, members, levels)
    decreases levels, 0, |members|
  {
    if members == [] {
    } else {
      var m := members[0];
      assert m in members;
      ElementSettles(t, containers, m, depth, levels);
      ElementsSettle(t, containers, members[1..], depth, levels);
    }
  }

  lemma {:induction false} ElementSettles(t: Nest, containers: map<string, Content>, m: Node, depth: nat, levels: nat)
    requires Holds(t, containers) && depth + levels >= |t.nodes| && levels > 0
    requires m in t.nodes && IsAtDepth(t, m, depth + 1)
    ensures ElementFor(containers, t.processId, m, levels + 1) == ElementFor(containers, t.processId, m, levels)
    decreases levels - 1, 2, 0
  {
    if m.id in containers && m.id != t.processId {
      FindItself(t.nodes, m);
      ForestSettles(t, containers, m.id, depth + 1, levels - 1);
    }
  }

  lemma {:induction false} ForestStays(t: Nest, containers: map<string, Content>, levels: nat)
    requires Holds(t, containers) && levels >= |t.nodes| + 1
    ensures Forest(containers, t.processId, t.processId, levels) ==
      Forest(containers, t.processId, t.processId, |t.nodes| + 1)
  {
    if levels > |t.nodes| + 1 {
      ForestStays(t, containers, levels - 1);
      ForestSettles(t, containers, t.processId, 0, levels - 1);
    }
  }

  /** The written tree is finite: unfolding the references further adds nothing. */
  lemma NestingIsFinite(nodes: seq<Node>, edges: seq<Edge>, processId: string, levels: nat)
    requires Drawn(nodes, processId) && levels >= |nodes| + 1
    ensures Forest(ContainersOf(nodes, edges, processId), processId, processId, levels) ==
      DocumentOf(nodes, edges, processId).kids
  {
    ContainersHold(nodes, edges, processId);
    ForestStays(NestOf(nodes, processId), ContainersOf(nodes, edges, processId), levels);
  }
}
