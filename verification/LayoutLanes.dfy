/**
 Lanes, the vertical coordinate of the fallback layout: every lane is the lane of a start plus the offsets of the
 branches taken on a way from there, and where each node has only one way in, the branches of a node fan out.
 */
module LayoutLanes {
  import opened Options
  import opened LayoutGraph
  import opened FallbackLayout

  // ---- Branches ----

  /** The first branch goes straight on, odd ones up and even ones down, two at each distance. */
  predicate IsOffset(branch: nat, offset: int) {
    && (branch % 2 == 1 ==> 2 * offset == -(branch + 1))
    && (branch % 2 == 0 ==> 2 * offset == branch)
  }

  lemma OffsetOfBranch(branch: nat)
    ensures IsOffset(branch, BranchLaneOffset(branch))
  {
  }

  lemma OffsetsDiffer(k: nat, l: nat, a: int, b: int)
    requires k != l && IsOffset(k, a) && IsOffset(l, b)
    ensures a != b
  {
  }

  predicate IsBranch(links: seq<Link>, u: string, k: nat, v: string) {
    k < |Targets(links, u)| && Targets(links, u)[k] == v
  }

  // ---- One turn ----

  /** The lane proposed for the `k`-th target. */
  function Proposed(lane: int, k: nat): int {
    lane + BranchLaneOffset(k)
  }

  /** The lane was there before, or is one of the first `k` that are proposed. */
  ghost predicate LaneComesFrom(s: Ranking, t: Ranking, targets: seq<string>, lane: int, k: nat, v: string)
    requires k <= |targets|
  {
    v in t.lanes ==>
      || (v in s.lanes && t.lanes[v] == s.lanes[v])
      || exists j :: 0 <= j < k && targets[j] == v && t.lanes[v] == Proposed(lane, j)
  }

  /** No lane goes further out, and none is further out than what is proposed. */
  ghost predicate LaneIsCloser(s: Ranking, t: Ranking, targets: seq<string>, lane: int, k: nat, v: string)
    requires k <= |targets|
  {
    && (v in s.lanes ==> v in t.lanes && Abs(t.lanes[v]) <= Abs(s.lanes[v]))
    && forall j :: 0 <= j < k && targets[j] == v ==> v in t.lanes && Abs(t.lanes[v]) <= Abs(Proposed(lane, j))
  }

  lemma {:induction false} RelaxedLanes(s: Ranking, targets: seq<string>, lane: int, rank: nat, k: nat, v: string)
    requires k <= |targets|
    ensures LaneComesFrom(s, RelaxEdges(s, targets, lane, rank, k), targets, lane, k, v)
    ensures LaneIsCloser(s, RelaxEdges(s, targets, lane, rank, k), targets, lane, k, v)
  {
    if k > 0 {
      RelaxedLanes(s, targets, lane, rank, k - 1, v);
      RelaxedOneMore(s, RelaxEdges(s, targets, lane, rank, k - 1), targets, lane, rank, k - 1, v);
    }
  }

  lemma RelaxedOneMore(s: Ranking, m: Ranking, targets: seq<string>, lane: int, rank: nat, k: nat, v: string)
    requires k < |targets| && LaneComesFrom(s, m, targets, lane, k, v) && LaneIsCloser(s, m, targets, lane, k, v)
    ensures
      var t := RelaxEdge(m, targets[k], Proposed(lane, k), rank);
      LaneComesFrom(s, t, targets, lane, k + 1, v) && LaneIsCloser(s, t, targets, lane, k + 1, v)
  {
  }

  lemma TurnLanes(links: seq<Link>, s: Ranking, v: string)
    requires s.queue != [] && s.queue[0] in s.lanes
    ensures
      var targets, lane := Targets(links, s.queue[0]), s.lanes[s.queue[0]];
      && LaneComesFrom(s, Step(links, s), targets, lane, |targets|, v)
      && LaneIsCloser(s, Step(links, s), targets, lane, |targets|, v)
  {
    var id := s.queue[0];
    var popped := Ranking(s.queue[1..], s.ranks, s.lanes);
    RelaxedLanes(popped, Targets(links, id), s.lanes[id], RankOf(s, id) + 1, |Targets(links, id)|, v);
  }

  // ---- Every lane is that of a way from a start ----

  /** The lane of a start: the middle for a start event, and otherwise two below its place in the queue. */
  predicate IsStartLane(seeds: seq<LayoutNode>, i: nat, lane: int) {
    i < |seeds| && lane == if seeds[i].kind == "startEvent" then 0 else i + 2
  }

  /** The lane is got on a way of so many branches from a start. */
  ghost predicate IsLaneOf(links: seq<Link>, seeds: seq<LayoutNode>, v: string, lane: int, branches: nat)
    decreases branches
  {
    if branches == 0 then exists i: nat :: i < |seeds| && seeds[i].id == v && IsStartLane(seeds, i, lane)
    else exists u, k: nat, offset ::
      IsBranch(links, u, k, v) && IsOffset(k, offset) && IsLaneOf(links, seeds, u, lane - offset, branches - 1)
  }

  ghost predicate IsSomeLane(links: seq<Link>, seeds: seq<LayoutNode>, v: string, lane: int) {
    exists branches: nat :: IsLaneOf(links, seeds, v, lane, branches)
  }

  ghost predicate LanesAreOfWays(links: seq<Link>, seeds: seq<LayoutNode>, s: Ranking) {
    forall v :: v in s.lanes ==> IsSomeLane(links, seeds, v, s.lanes[v])
  }

  lemma {:induction false} InitialLaneIs(seeds: seq<LayoutNode>, v: string)
    ensures v in InitialLanes(seeds) ==>
      exists i: nat :: i < |seeds| && seeds[i].id == v && IsStartLane(seeds, i, InitialLanes(seeds)[v])
  {
    if seeds != [] {
      var last := |seeds| - 1;
      InitialLaneIs(seeds[..last], v);
      if v == seeds[last].id {
        assert IsStartLane(seeds, last, InitialLanes(seeds)[v]);
      } else if v in InitialLanes(seeds) {
        var i: nat :| i < last && seeds[..last][i].id == v && IsStartLane(seeds[..last], i, InitialLanes(seeds)[v]);
        assert IsStartLane(seeds, i, InitialLanes(seeds)[v]) && seeds[i].id == v;
      }
    }
  }

  lemma InitialLanesAreOfWays(links: seq<Link>, seeds: seq<LayoutNode>)
    ensures LanesAreOfWays(links, seeds, Init(seeds))
  {
    forall v | v in Init(seeds).lanes ensures IsSomeLane(links, seeds, v, Init(seeds).lanes[v]) {
      InitialLaneIs(seeds, v);
      assert IsLaneOf(links, seeds, v, Init(seeds).lanes[v], 0);
    }
  }

  lemma BranchLane(links: seq<Link>, seeds: seq<LayoutNode>, u: string, lane: int, k: nat, v: string)
    requires IsSomeLane(links, seeds, u, lane) && IsBranch(links, u, k, v)
    ensures IsSomeLane(links, seeds, v, Proposed(lane, k))
  {
    var n: nat :| IsLaneOf(links, seeds, u, lane, n);
    OffsetOfBranch(k);
    assert Proposed(lane, k) - BranchLaneOffset(k) == lane;
    assert IsLaneOf(links, seeds, v, Proposed(lane, k), n + 1);
  }

  lemma TurnKeepsWays(g: Graph, seeds: seq<LayoutNode>, s: Ranking)
    requires Inv(g, s) && s.queue != [] && LanesAreOfWays(g.links, seeds, s)
    ensures LanesAreOfWays(g.links, seeds, Step(g.links, s))
  {
    var id, t := s.queue[0], Step(g.links, s);
    assert NodeInv(g, s, id);
    forall v | v in t.lanes ensures IsSomeLane(g.links, seeds, v, t.lanes[v]) {
      TurnLanes(g.links, s, v);
      if !(v in s.lanes && t.lanes[v] == s.lanes[v]) {
        var targets := Targets(g.links, id);
        var j: nat :| j < |targets| && targets[j] == v && t.lanes[v] == Proposed(s.lanes[id], j);
        BranchLane(g.links, seeds, id, s.lanes[id], j, v);
      }
    }
  }

  lemma {:induction false} RunKeepsWays(g: Graph, seeds: seq<LayoutNode>, s: Ranking, n: nat)
    requires g.Valid() && Inv(g, s) && LanesAreOfWays(g.links, seeds, s)
    ensures LanesAreOfWays(g.links, seeds, Run(g.links, s, n))
  {
    if n > 0 {
      var before := Run(g.links, s, n - 1);
      RunKeepsInv(g, s, n - 1);
      RunKeepsWays(g, seeds, s, n - 1);
      if before.queue != [] {
        TurnKeepsWays(g, seeds, before);
      }
    }
  }

  /** In any graph, each lane at any time is that of a way of branches from a start. */
  lemma LanesAreThoseOfWays(nodes: seq<LayoutNode>, edges: seq<Link>, n: nat, v: string)
    requires |nodes| > 0
    ensures
      var links := GraphOf(nodes, edges).links;
      var seeds := Seeds(links, nodes);
      var s := Run(links, Init(seeds), n);
      v in s.lanes ==> IsSomeLane(links, seeds, v, s.lanes[v])
  {
    var g := GraphOf(nodes, edges);
    var seeds := Seeds(g.links, nodes);
    InitHoldsInv(nodes, edges);
    InitialLanesAreOfWays(g.links, seeds);
    RunKeepsWays(g, seeds, Init(seeds), n);
  }

  lemma QueuedIsReachable(g: Graph, s: Ranking)
    requires Inv(g, s) && s.queue != []
    ensures g.Reachable(s.queue[0]) && s.queue[0] in s.lanes
  {
    var id := s.queue[0];
    assert NodeInv(g, s, id);
    var w :| g.IsRootWalk(w) && w[|w| - 1] == id && |w| == s.ranks[id] + 1;
  }

  /** The lane is no further from the middle than before. */
  predicate NotFurther(s: Ranking, t: Ranking, v: string) {
    v in s.lanes ==> v in t.lanes && Abs(t.lanes[v]) <= Abs(s.lanes[v])
  }

  /** Nor is it further than the branches of the node whose turn it was would have it. */
  ghost predicate BranchNotFurther(links: seq<Link>, s: Ranking, t: Ranking, v: string) {
    s.queue != [] && s.queue[0] in s.lanes ==>
      forall k: nat, offset :: IsBranch(links, s.queue[0], k, v) && IsOffset(k, offset) ==>
        v in t.lanes && Abs(t.lanes[v]) <= Abs(s.lanes[s.queue[0]] + offset)
  }

  lemma TurnComesCloser(links: seq<Link>, s: Ranking, v: string)
    requires s.queue != [] && s.queue[0] in s.lanes
    ensures NotFurther(s, Step(links, s), v) && BranchNotFurther(links, s, Step(links, s), v)
  {
    TurnLanes(links, s, v);
    forall k: nat, offset | IsBranch(links, s.queue[0], k, v) && IsOffset(k, offset)
      ensures offset == BranchLaneOffset(k)
    {
      OffsetOfBranch(k);
    }
  }

  lemma StaysCloser(links: seq<Link>, s: Ranking, m: Ranking, t: Ranking, v: string)
    requires NotFurther(s, m, v) && NotFurther(m, t, v)
    ensures NotFurther(s, t, v) && (BranchNotFurther(links, s, m, v) ==> BranchNotFurther(links, s, t, v))
  {
  }

  /** In any graph, lanes only come closer to the middle, and none is left further out than a branch would have it. */
  lemma {:induction false} LanesComeCloser(g: Graph, s: Ranking, m: nat, n: nat, v: string)
    requires g.Valid() && Inv(g, s) && m <= n
    ensures NotFurther(Run(g.links, s, m), Run(g.links, s, n), v)
    ensures m < n ==> BranchNotFurther(g.links, Run(g.links, s, m), Run(g.links, s, n), v)
  {
    if m < n {
      var early, before := Run(g.links, s, m), Run(g.links, s, n - 1);
      LanesComeCloser(g, s, m, n - 1, v);
      RunKeepsInv(g, s, n - 1);
      NextIsCloser(g, early, before, m == n - 1, v);
    }
  }

  lemma NextIsCloser(g: Graph, early: Ranking, before: Ranking, same: bool, v: string)
    requires Inv(g, before) && NotFurther(early, before, v)
    requires if same then before == early else BranchNotFurther(g.links, early, before, v)
    ensures
      var next := if before.queue == [] then before else Step(g.links, before);
      NotFurther(early, next, v) && BranchNotFurther(g.links, early, next, v)
  {
    if before.queue != [] {
      QueuedIsReachable(g, before);
      TurnComesCloser(g.links, before, v);
      StaysCloser(g.links, early, before, Step(g.links, before), v);
    }
  }

  // ---- One way into each node ----

  /** Each node has at most one edge that leads into it. */
  ghost predicate OneWayIn(links: seq<Link>) {
    forall i, j :: 0 <= i < j < |links| ==> links[i].target != links[j].target
  }

  lemma OneWayInFront(links: seq<Link>)
    requires links != [] && OneWayIn(links)
    ensures OneWayIn(links[..|links| - 1])
    ensures forall e :: e in links[..|links| - 1] ==> e.target != links[|links| - 1].target
  {
    var front := links[..|links| - 1];
    assert forall i :: 0 <= i < |front| ==> front[i] == links[i];
  }

  /** So it is a branch of one node only, and of that one once. */
  lemma {:induction false} BranchesAreOne(links: seq<Link>, u: string, k: nat, w: string, l: nat, v: string)
    requires OneWayIn(links) && IsBranch(links, u, k, v) && IsBranch(links, w, l, v)
    ensures u == w && k == l
  {
    if links != [] {
      var last, front := links[|links| - 1], links[..|links| - 1];
      OneWayInFront(links);
      if v != last.target {
        BranchesAreOne(front, u, k, w, l, v);
      } else {
        assert v !in Targets(front, u) && v !in Targets(front, w);
        assert last.source == u && k == |Targets(front, u)|;
        assert last.source == w && l == |Targets(front, w)|;
      }
    }
  }

  /** No edge leads from a reached node to a start that is no start event. */
  ghost predicate StartsAreEntered(g: Graph, seeds: seq<LayoutNode>) {
    forall u, i :: 0 <= i < |seeds| && g.Reachable(u) && g.Linked(u, seeds[i].id) ==> seeds[i].kind == "startEvent"
  }

  ghost predicate StartLanesStand(seeds: seq<LayoutNode>, s: Ranking) {
    forall i: nat :: i < |seeds| ==>
      seeds[i].id in s.lanes && IsStartLane(seeds, i, s.lanes[seeds[i].id])
  }

  /** The lane of a node that is no start is that of the node it is a branch of, with the offset of the branch. */
  ghost predicate IsBranchedOff(links: seq<Link>, s: Ranking, u: string, k: nat, v: string) {
    v in s.lanes ==> u in s.lanes && s.lanes[v] == Proposed(s.lanes[u], k)
  }

  ghost predicate AllBranchOff(links: seq<Link>, starts: seq<string>, s: Ranking) {
    forall u, k: nat, v :: IsBranch(links, u, k, v) && v !in starts ==> IsBranchedOff(links, s, u, k, v)
  }

  ghost predicate KeepsLanes(g: Graph, seeds: seq<LayoutNode>, s: Ranking) {
    StartLanesStand(seeds, s) && AllBranchOff(g.links, Ids(seeds), s)
  }

  lemma BranchIsLinked(links: seq<Link>, u: string, k: nat, v: string)
    requires IsBranch(links, u, k, v)
    ensures Link(u, v) in links
  {
    assert v in Targets(links, u);
  }

  /** A start event keeps the middle lane, which nothing is closer to. */
  lemma StartLaneStays(g: Graph, seeds: seq<LayoutNode>, s: Ranking, i: nat)
    requires Inv(g, s) && s.queue != [] && StartsAreEntered(g, seeds) && StartLanesStand(seeds, s) && i < |seeds|
    ensures seeds[i].id in Step(g.links, s).lanes && Step(g.links, s).lanes[seeds[i].id] == s.lanes[seeds[i].id]
  {
    var id, v, t := s.queue[0], seeds[i].id, Step(g.links, s);
    QueuedIsReachable(g, s);
    TurnLanes(g.links, s, v);
    if j: nat :| IsBranch(g.links, id, j, v) {
      BranchIsLinked(g.links, id, j, v);
      assert g.Linked(id, seeds[i].id);
      assert IsStartLane(seeds, i, s.lanes[v]);
    }
  }

  lemma LaneStays(g: Graph, seeds: seq<LayoutNode>, s: Ranking, v: string)
    requires Inv(g, s) && s.queue != [] && StartsAreEntered(g, seeds) && KeepsLanes(g, seeds, s)
    requires OneWayIn(g.links) && v in s.lanes
    ensures v in Step(g.links, s).lanes && Step(g.links, s).lanes[v] == s.lanes[v]
  {
    var id, t := s.queue[0], Step(g.links, s);
    QueuedIsReachable(g, s);
    TurnLanes(g.links, s, v);
    if v in Ids(seeds) {
      var i :| 0 <= i < |seeds| && Ids(seeds)[i] == v;
      StartLaneStays(g, seeds, s, i);
    } else {
      forall j: nat | IsBranch(g.links, id, j, v) ensures s.lanes[v] == Proposed(s.lanes[id], j) {
        assert IsBranchedOff(g.links, s, id, j, v);
      }
    }
  }

  lemma BranchStaysOff(g: Graph, seeds: seq<LayoutNode>, s: Ranking, u: string, k: nat, v: string)
    requires Inv(g, s) && s.queue != [] && StartsAreEntered(g, seeds) && KeepsLanes(g, seeds, s)
    requires OneWayIn(g.links) && IsBranch(g.links, u, k, v) && v !in Ids(seeds)
    ensures IsBranchedOff(g.links, Step(g.links, s), u, k, v)
  {
    var id, t := s.queue[0], Step(g.links, s);
    QueuedIsReachable(g, s);
    if v in s.lanes {
      assert IsBranchedOff(g.links, s, u, k, v);
      LaneStays(g, seeds, s, v);
      LaneStays(g, seeds, s, u);
    } else if v in t.lanes {
      TurnLanes(g.links, s, v);
      var targets := Targets(g.links, id);
      var j: nat :| j < |targets| && targets[j] == v && t.lanes[v] == Proposed(s.lanes[id], j);
      BranchesAreOne(g.links, u, k, id, j, v);
      LaneStays(g, seeds, s, id);
    }
  }

  lemma TurnKeepsLanes(g: Graph, seeds: seq<LayoutNode>, s: Ranking)
    requires Inv(g, s) && s.queue != [] && StartsAreEntered(g, seeds) && KeepsLanes(g, seeds, s)
    requires OneWayIn(g.links)
    ensures KeepsLanes(g, seeds, Step(g.links, s))
  {
    var t := Step(g.links, s);
    forall i: nat | i < |seeds| ensures seeds[i].id in t.lanes && IsStartLane(seeds, i, t.lanes[seeds[i].id]) {
      StartLaneStays(g, seeds, s, i);
      assert IsStartLane(seeds, i, s.lanes[seeds[i].id]);
    }
    forall u, k: nat, v | IsBranch(g.links, u, k, v) && v !in Ids(seeds) ensures IsBranchedOff(g.links, t, u, k, v) {
      BranchStaysOff(g, seeds, s, u, k, v);
    }
  }

  lemma {:induction false} RunKeepsLanes(g: Graph, seeds: seq<LayoutNode>, s: Ranking, n: nat)
    requires g.Valid() && Inv(g, s) && StartsAreEntered(g, seeds) && KeepsLanes(g, seeds, s) && OneWayIn(g.links)
    ensures KeepsLanes(g, seeds, Run(g.links, s, n))
  {
    if n > 0 {
      RunKeepsInv(g, s, n - 1);
      RunKeepsLanes(g, seeds, s, n - 1);
      NextKeepsLanes(g, seeds, Run(g.links, s, n - 1));
    }
  }

  lemma NextKeepsLanes(g: Graph, seeds: seq<LayoutNode>, s: Ranking)
    requires Inv(g, s) && StartsAreEntered(g, seeds) && KeepsLanes(g, seeds, s) && OneWayIn(g.links)
    ensures KeepsLanes(g, seeds, if s.queue == [] then s else Step(g.links, s))
  {
    if s.queue != [] {
      TurnKeepsLanes(g, seeds, s);
    }
  }

  /** In any graph the starts keep their lanes. */
  lemma {:induction false} RunKeepsStartLanes(g: Graph, seeds: seq<LayoutNode>, s: Ranking, n: nat)
    requires g.Valid() && Inv(g, s) && StartsAreEntered(g, seeds) && StartLanesStand(seeds, s)
    ensures StartLanesStand(seeds, Run(g.links, s, n))
  {
    if n > 0 {
      var before := Run(g.links, s, n - 1);
      RunKeepsInv(g, s, n - 1);
      RunKeepsStartLanes(g, seeds, s, n - 1);
      if before.queue != [] {
        forall i: nat | i < |seeds|
          ensures seeds[i].id in Step(g.links, before).lanes
          ensures IsStartLane(seeds, i, Step(g.links, before).lanes[seeds[i].id])
        {
          StartLaneStays(g, seeds, before, i);
          assert IsStartLane(seeds, i, before.lanes[seeds[i].id]);
        }
      }
    }
  }

  // ---- The first state ----

  ghost predicate DistinctNodes(nodes: seq<LayoutNode>) {
    forall i, j :: 0 <= i < j < |nodes| ==> nodes[i].id != nodes[j].id
  }

  lemma {:induction false} StartsAreDistinct(links: seq<Link>, nodes: seq<LayoutNode>)
    requires DistinctNodes(nodes)
    ensures DistinctNodes(Roots(links, nodes))
  {
    if nodes != [] {
      var last := |nodes| - 1;
      StartsAreDistinct(links, nodes[..last]);
      var before := Roots(links, nodes[..last]);
      forall i | 0 <= i < |before| ensures before[i].id != nodes[last].id {
        assert before[i] in before;
      }
    }
  }

  lemma {:induction false} InitialLanesStand(seeds: seq<LayoutNode>, i: nat)
    requires DistinctNodes(seeds) && i < |seeds|
    ensures seeds[i].id in InitialLanes(seeds) && IsStartLane(seeds, i, InitialLanes(seeds)[seeds[i].id])
  {
    var last := |seeds| - 1;
    if i < last {
      InitialLanesStand(seeds[..last], i);
      assert IsStartLane(seeds[..last], i, InitialLanes(seeds[..last])[seeds[i].id]);
    }
  }

  lemma {:induction false} InitialLanesAreStarts(seeds: seq<LayoutNode>, v: string)
    requires v in InitialLanes(seeds)
    ensures v in Ids(seeds)
  {
    var last := |seeds| - 1;
    if v == seeds[last].id {
      assert Ids(seeds)[last] == v;
    } else {
      InitialLanesAreStarts(seeds[..last], v);
      var i :| 0 <= i < last && Ids(seeds[..last])[i] == v;
      assert Ids(seeds)[i] == v;
    }
  }

  lemma SeedsAreDistinct(links: seq<Link>, nodes: seq<LayoutNode>)
    requires |nodes| > 0 && DistinctNodes(nodes)
    ensures DistinctNodes(Seeds(links, nodes))
  {
    StartsAreDistinct(links, nodes);
  }

  lemma InitialKeepsLanes(g: Graph, seeds: seq<LayoutNode>)
    requires DistinctNodes(seeds)
    ensures KeepsLanes(g, seeds, Init(seeds))
  {
    forall i: nat | i < |seeds|
      ensures seeds[i].id in Init(seeds).lanes && IsStartLane(seeds, i, Init(seeds).lanes[seeds[i].id])
    {
      InitialLanesStand(seeds, i);
    }
    forall u, k: nat, v | IsBranch(g.links, u, k, v) && v !in Ids(seeds)
      ensures IsBranchedOff(g.links, Init(seeds), u, k, v)
    {
      if v in Init(seeds).lanes {
        InitialLanesAreStarts(seeds, v);
      }
    }
  }

  /** When the loop ends, only start events are entered: an edge into another start would close a cycle. */
  lemma OnlyStartEventsAreEntered(nodes: seq<LayoutNode>, edges: seq<Link>)
    requires |nodes| > 0 && DistinctNodes(nodes) && GraphOf(nodes, edges).NoReachableCycle()
    ensures StartsAreEntered(GraphOf(nodes, edges), Seeds(GraphOf(nodes, edges).links, nodes))
  {
    var g := GraphOf(nodes, edges);
    var seeds := Seeds(g.links, nodes);
    forall u, i | 0 <= i < |seeds| && g.Reachable(u) && g.Linked(u, seeds[i].id)
      ensures seeds[i].kind == "startEvent"
    {
      var v := seeds[i].id;
      if |Roots(g.links, nodes)| > 0 {
        assert seeds[i] in Roots(g.links, nodes);
        assert HasIncoming(g.links, v);
      } else {
        assert seeds == [nodes[0]] && g.roots == [v];
        BackToOnlyRoot(g, u, v);
      }
    }
  }

  /** An edge from a reached node into the only root closes a cycle that can be reached. */
  lemma BackToOnlyRoot(g: Graph, u: string, v: string)
    requires g.roots == [v] && g.Reachable(u) && g.Linked(u, v)
    ensures !g.NoReachableCycle()
  {
    var w :| g.IsRootWalk(w) && w[|w| - 1] == u;
    WalkExtend(g, w, v);
    assert g.IsCycle(w + [v]) && (w + [v])[0] == v;
    assert g.IsRootWalk([v]) && [v][0] == v && g.Reachable(v);
  }

  // ---- Coordinates ----

  /** How many edges out of the same node, to known nodes, come before this one. */
  function BranchesBefore(ids: seq<string>, edges: seq<Link>, e: nat, u: string): nat
    requires e <= |edges|
  {
    if e == 0 then 0
    else
      BranchesBefore(ids, edges, e - 1, u)
      + if edges[e - 1].source == u && u in ids && edges[e - 1].target in ids then 1 else 0
  }

  lemma {:induction false} TargetsCount(ids: seq<string>, edges: seq<Link>, e: nat, u: string)
    requires e <= |edges|
    ensures |Targets(Kept(ids, edges[..e]), u)| == BranchesBefore(ids, edges, e, u)
  {
    if e > 0 {
      var before := e - 1;
      TargetsCount(ids, edges, before, u);
      TargetsOneMore(ids, edges, before, u);
      assert e == before + 1;
    }
  }

  lemma TargetsOneMore(ids: seq<string>, edges: seq<Link>, e: nat, u: string)
    requires e < |edges|
    ensures
      var before := Targets(Kept(ids, edges[..e]), u);
      Targets(Kept(ids, edges[..e + 1]), u) ==
        if edges[e].source == u && u in ids && edges[e].target in ids then before + [edges[e].target] else before
  {
    assert edges[..e + 1][..e] == edges[..e];
    var front := Kept(ids, edges[..e]);
    assert (front + [edges[e]])[..|front|] == front;
  }

  lemma {:induction false} TargetsGrow(ids: seq<string>, edges: seq<Link>, e: nat, n: nat, u: string)
    requires e <= n <= |edges|
    ensures Targets(Kept(ids, edges[..e]), u) <= Targets(Kept(ids, edges[..n]), u)
  {
    if e < n {
      var before := n - 1;
      TargetsGrow(ids, edges, e, before, u);
      TargetsGrowByOne(ids, edges, before, u);
      assert n == before + 1;
    }
  }

  lemma TargetsGrowByOne(ids: seq<string>, edges: seq<Link>, e: nat, u: string)
    requires e < |edges|
    ensures Targets(Kept(ids, edges[..e]), u) <= Targets(Kept(ids, edges[..e + 1]), u)
  {
    TargetsOneMore(ids, edges, e, u);
  }

  /** An edge is the branch of its source that comes after those before it in the list. */
  lemma EdgeIsBranch(ids: seq<string>, edges: seq<Link>, e: nat)
    requires e < |edges| && edges[e].source in ids && edges[e].target in ids
    ensures
      IsBranch(Kept(ids, edges), edges[e].source, BranchesBefore(ids, edges, e, edges[e].source), edges[e].target)
  {
    var u, v := edges[e].source, edges[e].target;
    var before := Targets(Kept(ids, edges[..e]), u);
    TargetsCount(ids, edges, e, u);
    TargetsOneMore(ids, edges, e, u);
    TargetsGrow(ids, edges, e + 1, |edges|, u);
    assert edges[..|edges|] == edges;
    NextInAll(before, v, Targets(Kept(ids, edges), u));
  }

  lemma NextInAll(before: seq<string>, v: string, all: seq<string>)
    requires before + [v] <= all
    ensures |before| < |all| && all[|before|] == v
  {
    assert (before + [v])[|before|] == v;
  }

  /** Of the edges between known nodes, no two lead into the same node. */
  ghost predicate IsForest(ids: seq<string>, edges: seq<Link>) {
    forall i, j :: 0 <= i < j < |edges| && IsKnown(ids, edges[i]) && IsKnown(ids, edges[j]) ==>
      edges[i].target != edges[j].target
  }

  predicate IsKnown(ids: seq<string>, e: Link) {
    e.source in ids && e.target in ids
  }

  lemma {:induction false} ForestIsOneWayIn(ids: seq<string>, edges: seq<Link>)
    requires IsForest(ids, edges)
    ensures OneWayIn(Kept(ids, edges))
  {
    if edges != [] {
      var last := |edges| - 1;
      var front := Kept(ids, edges[..last]);
      ForestIsOneWayIn(ids, edges[..last]);
      forall i | 0 <= i < |front| && IsKnown(ids, edges[last]) ensures front[i].target != edges[last].target {
        assert front[i] in front;
        var j :| 0 <= j < last && edges[..last][j] == front[i];
        assert edges[j] == front[i];
      }
    }
  }

  lemma {:induction false} FilledLane(
      ids: seq<string>, ranks: map<string, nat>, lanes: map<string, int>, k: nat, v: string)
    requires k <= |ids|
    ensures
      var (r, l) := Fill(ids, ranks, lanes, k);
      && (v in ranks ==> v in r && r[v] == ranks[v] && (v in l <==> v in lanes) && (v in lanes ==> l[v] == lanes[v]))
      && (v !in ranks && v in ids[..k] ==> v in r && v in l && l[v] == 0)
      && (v !in ranks && v !in ids[..k] ==> v !in r)
  {
    if k > 0 {
      FilledLane(ids, ranks, lanes, k - 1, v);
      assert ids[..k] == ids[..k - 1] + [ids[k - 1]];
    }
  }

  /** Where a node stands that has a rank and a lane, and at which height the others do. */
  lemma ArrangedAt(nodes: seq<LayoutNode>, ranks: map<string, nat>, lanes: map<string, int>, i: nat)
    requires i < |nodes|
    ensures
      var id, n := nodes[i].id, Arrange(nodes, ranks, lanes)[i];
      && (id in ranks && id in lanes ==>
            n.x == (100 + 240 * ranks[id]) as real && n.y == (260 + 190 * lanes[id]) as real)
      && (id !in ranks ==> n.y == 260.0)
      && n.kind == nodes[i].kind
  {
    var ids := Ids(nodes);
    FilledLane(ids, ranks, lanes, |ids|, nodes[i].id);
    assert ids[..|ids|] == ids && ids[i] in ids;
  }

  /** What the layout leaves where it is: nodes other than boundary events stand where their rank and lane put them. */
  lemma PlacedAt(nodes: seq<LayoutNode>, ranks: map<string, nat>, lanes: map<string, int>, i: nat)
    requires i < |nodes| && nodes[i].kind != "boundaryEvent"
    ensures
      var id, n := nodes[i].id, Snap(Arrange(nodes, ranks, lanes), |nodes|)[i];
      && (id in ranks && id in lanes ==>
            n.x == (100 + 240 * ranks[id]) as real && n.y == (260 + 190 * lanes[id]) as real)
      && (id !in ranks ==> n.y == 260.0)
  {
    ArrangedAt(nodes, ranks, lanes, i);
    SnapTouchesOnlyBoundaryEvents(Arrange(nodes, ranks, lanes), |nodes|);
  }

  /** Ranks and lanes that the loop ends with, and the places that come of them. */
  ghost predicate EndsWith(nodes: seq<LayoutNode>, edges: seq<Link>, placed: seq<LayoutNode>,
                           ranks: map<string, nat>, lanes: map<string, int>, n: nat)
    requires nodes != []
  {
    var links := GraphOf(nodes, edges).links;
    && Run(links, Init(Seeds(links, nodes)), n) == Ranking([], ranks, lanes)
    && LongestWalks(GraphOf(nodes, edges), ranks)
    && placed == Snap(Arrange(nodes, ranks, lanes), |nodes|)
  }

  /** What the loop ended with. */
  lemma Ending(nodes: seq<LayoutNode>, edges: seq<Link>, placed: seq<LayoutNode>)
    returns (ranks: map<string, nat>, lanes: map<string, int>, n: nat)
    requires nodes != [] && LaidOut(nodes, edges, placed)
    ensures EndsWith(nodes, edges, placed, ranks, lanes, n)
  {
    var links := GraphOf(nodes, edges).links;
    ranks, lanes, n :|
      && Run(links, Init(Seeds(links, nodes)), n) == Ranking([], ranks, lanes)
      && LongestWalks(GraphOf(nodes, edges), ranks)
      && placed == Snap(Arrange(nodes, ranks, lanes), |nodes|);
  }

  /** The layout is possible whenever no cycle can be reached. */
  lemma LayoutExists(nodes: seq<LayoutNode>, edges: seq<Link>)
    requires nodes != [] && GraphOf(nodes, edges).NoReachableCycle()
    ensures exists placed :: LaidOut(nodes, edges, placed)
  {
    var g := GraphOf(nodes, edges);
    var start := Init(Seeds(g.links, nodes));
    LoopEndsIffNoReachableCycle(nodes, edges);
    var n: nat :| Run(g.links, start, n).queue == [];
    var s := Run(g.links, start, n);
    InitHoldsInv(nodes, edges);
    RunKeepsInv(g, start, n);
    ExitGivesLongestWalks(g, s);
    assert LaidOut(nodes, edges, Snap(Arrange(nodes, s.ranks, s.lanes), |nodes|));
  }

  lemma EndHolds(nodes: seq<LayoutNode>, edges: seq<Link>, n: nat)
    requires nodes != [] && DistinctNodes(nodes) && GraphOf(nodes, edges).NoReachableCycle()
    ensures
      var g := GraphOf(nodes, edges);
      var seeds := Seeds(g.links, nodes);
      var s := Run(g.links, Init(seeds), n);
      Inv(g, s) && StartLanesStand(seeds, s) && (OneWayIn(g.links) ==> KeepsLanes(g, seeds, s))
  {
    var g := GraphOf(nodes, edges);
    var seeds := Seeds(g.links, nodes);
    InitHoldsInv(nodes, edges);
    SeedsAreDistinct(g.links, nodes);
    InitialKeepsLanes(g, seeds);
    OnlyStartEventsAreEntered(nodes, edges);
    RunKeepsInv(g, Init(seeds), n);
    RunKeepsStartLanes(g, seeds, Init(seeds), n);
    if OneWayIn(g.links) {
      RunKeepsLanes(g, seeds, Init(seeds), n);
    }
  }

  lemma EndedHasNoCycle(nodes: seq<LayoutNode>, edges: seq<Link>, n: nat)
    requires nodes != []
    requires Run(GraphOf(nodes, edges).links, Init(Seeds(GraphOf(nodes, edges).links, nodes)), n).queue == []
    ensures GraphOf(nodes, edges).NoReachableCycle()
  {
    LoopEndsIffNoReachableCycle(nodes, edges);
  }

  lemma EndIsKnown(nodes: seq<LayoutNode>, edges: seq<Link>, placed: seq<LayoutNode>,
                   ranks: map<string, nat>, lanes: map<string, int>, n: nat)
    requires nodes != [] && DistinctNodes(nodes) && EndsWith(nodes, edges, placed, ranks, lanes, n)
    ensures
      var g := GraphOf(nodes, edges);
      var seeds, s := Seeds(g.links, nodes), Ranking([], ranks, lanes);
      && g.NoReachableCycle() && Inv(g, s) && StartLanesStand(seeds, s)
      && (OneWayIn(g.links) ==> KeepsLanes(g, seeds, s))
  {
    EndedHasNoCycle(nodes, edges, n);
    EndHolds(nodes, edges, n);
  }

  lemma ReachedIsRanked(g: Graph, ranks: map<string, nat>, lanes: map<string, int>, v: string)
    requires LongestWalks(g, ranks) && Inv(g, Ranking([], ranks, lanes)) && g.Reachable(v)
    ensures v in ranks && v in lanes
  {
    WalkedAreRanked(g, ranks, v);
    assert NodeInv(g, Ranking([], ranks, lanes), v);
  }

  /** With one way in, a node that is no start is one step further than the node it is a branch of. */
  lemma BranchIsOneFurther(g: Graph, ranks: map<string, nat>, u: string, k: nat, v: string)
    requires LongestWalks(g, ranks) && OneWayIn(g.links) && IsBranch(g.links, u, k, v) && v !in g.roots
    requires g.Reachable(u)
    ensures u in ranks && v in ranks && ranks[v] == ranks[u] + 1
  {
    BranchIsLinked(g.links, u, k, v);
    RankRisesOnLink(g, ranks, u, v);
    var w :| g.IsRootWalk(w) && w[|w| - 1] == v && |w| == ranks[v] + 1;
    var before := w[|w| - 2];
    assert g.Linked(before, v);
    OnlySource(g.links, u, before, v);
    WalkSlice(g, w, 0, |w| - 1);
    assert g.IsRootWalk(w[0..|w| - 1]) && w[0..|w| - 1][|w| - 2] == u;
  }

  lemma OnlySource(links: seq<Link>, u: string, w: string, v: string)
    requires OneWayIn(links) && Link(u, v) in links && Link(w, v) in links
    ensures u == w
  {
    var i :| 0 <= i < |links| && links[i] == Link(u, v);
    var j :| 0 <= j < |links| && links[j] == Link(w, v);
    assert !(i < j) && !(j < i);
  }

  /** Twice the offset of a branch. */
  function TwiceOffset(branch: nat): int {
    if branch % 2 == 1 then -(branch + 1) else branch
  }

  // ---- Main results ----

  lemma EnteredIsNoStart(nodes: seq<LayoutNode>, edges: seq<Link>, u: string, a: nat)
    requires nodes != [] && DistinctNodes(nodes) && GraphOf(nodes, edges).NoReachableCycle() && a < |nodes|
    requires GraphOf(nodes, edges).Reachable(u) && GraphOf(nodes, edges).Linked(u, nodes[a].id)
    requires nodes[a].kind != "startEvent"
    ensures nodes[a].id !in GraphOf(nodes, edges).roots
  {
    var g := GraphOf(nodes, edges);
    var seeds := Seeds(g.links, nodes);
    OnlyStartEventsAreEntered(nodes, edges);
    if nodes[a].id in g.roots {
      var i := StartIsSeed(nodes, seeds, a);
      EnteredIsStartEvent(g, seeds, u, i);
    }
  }

  lemma EnteredIsStartEvent(g: Graph, seeds: seq<LayoutNode>, u: string, i: nat)
    requires StartsAreEntered(g, seeds) && i < |seeds| && g.Reachable(u) && g.Linked(u, seeds[i].id)
    ensures seeds[i].kind == "startEvent"
  {
  }

  lemma StartIsSeed(nodes: seq<LayoutNode>, seeds: seq<LayoutNode>, a: nat) returns (i: nat)
    requires DistinctNodes(nodes) && a < |nodes| && nodes[a].id in Ids(seeds) && forall n :: n in seeds ==> n in nodes
    ensures i < |seeds| && seeds[i] == nodes[a]
  {
    i :| i < |seeds| && Ids(seeds)[i] == nodes[a].id;
    assert seeds[i] in nodes;
    var j :| 0 <= j < |nodes| && nodes[j] == seeds[i];
    assert !(j < a) && !(a < j);
  }

  lemma BranchLaneAndRank(nodes: seq<LayoutNode>, edges: seq<Link>, placed: seq<LayoutNode>,
                          ranks: map<string, nat>, lanes: map<string, int>, n: nat, u: string, k: nat, a: nat)
    requires nodes != [] && DistinctNodes(nodes) && EndsWith(nodes, edges, placed, ranks, lanes, n)
    requires OneWayIn(GraphOf(nodes, edges).links) && GraphOf(nodes, edges).Reachable(u)
    requires a < |nodes| && IsBranch(GraphOf(nodes, edges).links, u, k, nodes[a].id) && nodes[a].kind != "startEvent"
    ensures
      var v := nodes[a].id;
      && u in ranks && u in lanes && v in ranks && v in lanes
      && ranks[v] == ranks[u] + 1 && 2 * lanes[v] == 2 * lanes[u] + TwiceOffset(k)
  {
    var g, v := GraphOf(nodes, edges), nodes[a].id;
    EndIsKnown(nodes, edges, placed, ranks, lanes, n);
    BranchIsLinked(g.links, u, k, v);
    assert g.Linked(u, v);
    EnteredIsNoStart(nodes, edges, u, a);
    LaneAndRankOfBranch(g, Seeds(g.links, nodes), ranks, lanes, u, k, v);
  }

  lemma LaneAndRankOfBranch(g: Graph, seeds: seq<LayoutNode>, ranks: map<string, nat>, lanes: map<string, int>,
                            u: string, k: nat, v: string)
    requires LongestWalks(g, ranks) && Inv(g, Ranking([], ranks, lanes)) && OneWayIn(g.links) && g.Reachable(u)
    requires KeepsLanes(g, seeds, Ranking([], ranks, lanes)) && g.roots == Ids(seeds)
    requires IsBranch(g.links, u, k, v) && v !in g.roots
    ensures u in ranks && u in lanes && v in ranks && v in lanes
    ensures ranks[v] == ranks[u] + 1 && 2 * lanes[v] == 2 * lanes[u] + TwiceOffset(k)
  {
    BranchIsOneFurther(g, ranks, u, k, v);
    ReachedIsRanked(g, ranks, lanes, u);
    assert NodeInv(g, Ranking([], ranks, lanes), v);
    assert IsBranchedOff(g.links, Ranking([], ranks, lanes), u, k, v);
    OffsetOfBranch(k);
  }

  /** The target of the `e`-th edge stands one gap further right than its source, and at the height of its branch. */
  ghost predicate IsFannedOut(nodes: seq<LayoutNode>, edges: seq<Link>, placed: seq<LayoutNode>, e: nat, i: nat, a: nat)
    requires e < |edges| && i < |nodes| && i < |placed| && a < |placed|
  {
    var k := BranchesBefore(Ids(nodes), edges, e, nodes[i].id);
    && placed[a].x == placed[i].x + 240.0
    && 2.0 * (placed[a].y - placed[i].y) == (190 * TwiceOffset(k)) as real
  }

  lemma PlacedBranch(nodes: seq<LayoutNode>, ranks: map<string, nat>, lanes: map<string, int>, i: nat, a: nat, d: int)
    requires i < |nodes| && a < |nodes| && nodes[i].kind != "boundaryEvent" && nodes[a].kind != "boundaryEvent"
    requires nodes[i].id in ranks && nodes[i].id in lanes && nodes[a].id in ranks && nodes[a].id in lanes
    requires ranks[nodes[a].id] == ranks[nodes[i].id] + 1 && 2 * lanes[nodes[a].id] == 2 * lanes[nodes[i].id] + d
    ensures
      var placed := Snap(Arrange(nodes, ranks, lanes), |nodes|);
      placed[a].x == placed[i].x + 240.0 && 2.0 * (placed[a].y - placed[i].y) == (190 * d) as real
  {
    PlacedAt(nodes, ranks, lanes, i);
    PlacedAt(nodes, ranks, lanes, a);
  }

  lemma IdIsKnown(nodes: seq<LayoutNode>, i: nat)
    requires i < |nodes|
    ensures nodes[i].id in Ids(nodes)
  {
    assert Ids(nodes)[i] == nodes[i].id;
  }

  /**
   When each node has at most one edge in, the branches of a reached node fan out: each target stands one gap further
   right, the first at the same height, the next one gap above, then one below, two above, and so on.
   */
  lemma BranchesFanOut(nodes: seq<LayoutNode>, edges: seq<Link>, placed: seq<LayoutNode>, e: nat, i: nat, a: nat)
    requires nodes != [] && DistinctNodes(nodes) && LaidOut(nodes, edges, placed) && IsForest(Ids(nodes), edges)
    requires e < |edges| && i < |nodes| && a < |nodes| && edges[e] == Link(nodes[i].id, nodes[a].id)
    requires GraphOf(nodes, edges).Reachable(nodes[i].id) && nodes[a].kind != "startEvent"
    requires nodes[i].kind != "boundaryEvent" && nodes[a].kind != "boundaryEvent"
    ensures |placed| == |nodes| && IsFannedOut(nodes, edges, placed, e, i, a)
  {
    var k := BranchesBefore(Ids(nodes), edges, e, nodes[i].id);
    var ranks, lanes, n := Ending(nodes, edges, placed);
    IdIsKnown(nodes, i);
    IdIsKnown(nodes, a);
    EdgeIsBranch(Ids(nodes), edges, e);
    ForestIsOneWayIn(Ids(nodes), edges);
    BranchLaneAndRank(nodes, edges, placed, ranks, lanes, n, nodes[i].id, k, a);
    PlacedBranch(nodes, ranks, lanes, i, a, TwiceOffset(k));
  }

  lemma {:induction false} MoreBranchesBefore(ids: seq<string>, edges: seq<Link>, e: nat, f: nat, u: string)
    requires e < f <= |edges| && edges[e].source == u && u in ids && edges[e].target in ids
    ensures BranchesBefore(ids, edges, e, u) < BranchesBefore(ids, edges, f, u)
  {
    if e < f - 1 {
      MoreBranchesBefore(ids, edges, e, f - 1, u);
    }
  }

  /** So no two of them stand at the same place: they are a whole number of gaps apart. */
  lemma TargetsStandApart(
      nodes: seq<LayoutNode>, edges: seq<Link>, placed: seq<LayoutNode>, e: nat, f: nat, i: nat, a: nat, b: nat)
    requires nodes != [] && DistinctNodes(nodes) && LaidOut(nodes, edges, placed) && IsForest(Ids(nodes), edges)
    requires e < f < |edges| && i < |nodes| && a < |nodes| && b < |nodes|
    requires edges[e] == Link(nodes[i].id, nodes[a].id) && edges[f] == Link(nodes[i].id, nodes[b].id)
    requires GraphOf(nodes, edges).Reachable(nodes[i].id) && nodes[i].kind != "boundaryEvent"
    requires nodes[a].kind != "startEvent" && nodes[a].kind != "boundaryEvent"
    requires nodes[b].kind != "startEvent" && nodes[b].kind != "boundaryEvent"
    ensures |placed| == |nodes| && placed[a].x == placed[b].x
    ensures exists gaps :: gaps != 0 && placed[a].y == placed[b].y + (190 * gaps) as real
  {
    BranchesFanOut(nodes, edges, placed, e, i, a);
    BranchesFanOut(nodes, edges, placed, f, i, b);
    FannedOutApart(nodes, edges, placed, e, f, i, a, b);
  }

  lemma FannedOutApart(
      nodes: seq<LayoutNode>, edges: seq<Link>, placed: seq<LayoutNode>, e: nat, f: nat, i: nat, a: nat, b: nat)
    requires e < f < |edges| && |placed| == |nodes| && i < |nodes| && a < |nodes| && b < |nodes|
    requires edges[e] == Link(nodes[i].id, nodes[a].id) && edges[f] == Link(nodes[i].id, nodes[b].id)
    requires IsFannedOut(nodes, edges, placed, e, i, a) && IsFannedOut(nodes, edges, placed, f, i, b)
    ensures placed[a].x == placed[b].x
    ensures exists gaps :: gaps != 0 && placed[a].y == placed[b].y + (190 * gaps) as real
  {
    var ids, u := Ids(nodes), nodes[i].id;
    var k, l := BranchesBefore(ids, edges, e, u), BranchesBefore(ids, edges, f, u);
    assert ids[i] in ids && ids[a] in ids;
    MoreBranchesBefore(ids, edges, e, f, u);
    GapsBetween(k, l, placed[i].y, placed[a].y, placed[b].y);
  }

  lemma GapsBetween(k: nat, l: nat, y: real, y1: real, y2: real)
    requires k < l && 2.0 * (y1 - y) == (190 * TwiceOffset(k)) as real
    requires 2.0 * (y2 - y) == (190 * TwiceOffset(l)) as real
    ensures exists gaps :: gaps != 0 && y1 == y2 + (190 * gaps) as real
  {
    var gaps := BranchLaneOffset(k) - BranchLaneOffset(l);
    OffsetOfBranch(k);
    OffsetOfBranch(l);
    OffsetsDiffer(k, l, BranchLaneOffset(k), BranchLaneOffset(l));
    assert TwiceOffset(k) - TwiceOffset(l) == 2 * gaps;
    assert gaps != 0 && y1 == y2 + (190 * gaps) as real;
  }

  lemma StartHasRankZero(g: Graph, seeds: seq<LayoutNode>, ranks: map<string, nat>, i: nat)
    requires StartsAreEntered(g, seeds) && LongestWalks(g, ranks) && i < |seeds| && g.roots == Ids(seeds)
    requires seeds[i].kind != "startEvent" || forall e :: e in g.links ==> e.target != seeds[i].id
    ensures seeds[i].id in ranks && ranks[seeds[i].id] == 0
  {
    var v := seeds[i].id;
    assert g.roots[i] == v && g.IsRootWalk([v]) && [v][0] == v;
    var w :| g.IsRootWalk(w) && w[|w| - 1] == v && |w| == ranks[v] + 1;
    if |w| > 1 {
      LastStep(g, w);
      assert false;
    }
  }

  lemma LastStep(g: Graph, w: seq<string>)
    requires g.IsRootWalk(w) && |w| > 1
    ensures g.Reachable(w[|w| - 2]) && g.Linked(w[|w| - 2], w[|w| - 1])
  {
    WalkSlice(g, w, 0, |w| - 1);
    var front := w[0..|w| - 1];
    assert g.IsRootWalk(front) && front[|front| - 1] == w[|w| - 2];
  }

  /**
   In any graph on which the loop ends, start events stand at the middle height. Every other start, and a start event
   that no edge leads into, stands at the left edge, and another start as many gaps below the middle as its place in
   the first queue and two more.
   */
  lemma StartsStand(nodes: seq<LayoutNode>, edges: seq<Link>, placed: seq<LayoutNode>, i: nat, a: nat)
    requires nodes != [] && DistinctNodes(nodes) && LaidOut(nodes, edges, placed) && a < |nodes| == |placed|
    requires i < |Seeds(GraphOf(nodes, edges).links, nodes)|
    requires nodes[a] == Seeds(GraphOf(nodes, edges).links, nodes)[i] && nodes[a].kind != "boundaryEvent"
    ensures nodes[a].kind == "startEvent" ==> placed[a].y == 260.0
    ensures nodes[a].kind != "startEvent" ==> placed[a].x == 100.0 && placed[a].y == (260 + 190 * (i + 2)) as real
    ensures (forall e :: e in GraphOf(nodes, edges).links ==> e.target != nodes[a].id) ==> placed[a].x == 100.0
  {
    var ranks, lanes := StartFound(nodes, edges, placed, i);
    StartIsPlaced(nodes, GraphOf(nodes, edges).links, ranks, lanes, i, a);
  }

  // ---- The first queue ----

  /** The walks begin at start events and at the nodes that no edge between nodes leads into. */
  predicate BeginsWalks(nodes: seq<LayoutNode>, edges: seq<Link>, n: LayoutNode) {
    n.kind == "startEvent" || forall e :: e in edges && e.source in Ids(nodes) ==> e.target != n.id
  }

  /** How many of the first `k` nodes do. */
  function BeginningsBefore(nodes: seq<LayoutNode>, edges: seq<Link>, k: nat): nat
    requires k <= |nodes|
  {
    if k == 0 then 0
    else BeginningsBefore(nodes, edges, k - 1) + if BeginsWalks(nodes, edges, nodes[k - 1]) then 1 else 0
  }

  lemma BeginsIffRoot(nodes: seq<LayoutNode>, edges: seq<Link>, a: nat)
    requires nodes != [] && a < |nodes|
    ensures BeginsWalks(nodes, edges, nodes[a]) <==> IsRoot(GraphOf(nodes, edges).links, nodes[a])
  {
    IdIsKnown(nodes, a);
  }

  /** The roots among the first `k` nodes are as many, and stand in the order of the list. */
  lemma {:induction false} RootsAre(nodes: seq<LayoutNode>, edges: seq<Link>, links: seq<Link>, k: nat, a: nat)
    requires k <= |nodes| && AgreeOnRoots(nodes, edges, links)
    ensures |Roots(links, nodes[..k])| == BeginningsBefore(nodes, edges, k)
    ensures a < k && BeginsWalks(nodes, edges, nodes[a]) ==>
      StandsInPlace(Roots(links, nodes[..k]), BeginningsBefore(nodes, edges, a), nodes[a])
  {
    if k > 0 {
      var before := k - 1;
      RootsAre(nodes, edges, links, before, a);
      RootsOneMore(links, nodes, before);
      assert IsRootAt(nodes, edges, links, before);
    }
  }

  predicate StandsInPlace(roots: seq<LayoutNode>, i: nat, n: LayoutNode) {
    i < |roots| && roots[i] == n
  }

  predicate AgreeOnRoots(nodes: seq<LayoutNode>, edges: seq<Link>, links: seq<Link>) {
    forall a: nat :: a < |nodes| ==> IsRootAt(nodes, edges, links, a)
  }

  predicate IsRootAt(nodes: seq<LayoutNode>, edges: seq<Link>, links: seq<Link>, a: nat)
    requires a < |nodes|
  {
    BeginsWalks(nodes, edges, nodes[a]) <==> IsRoot(links, nodes[a])
  }

  lemma RootsOneMore(links: seq<Link>, nodes: seq<LayoutNode>, k: nat)
    requires k < |nodes|
    ensures Roots(links, nodes[..k + 1]) ==
      if IsRoot(links, nodes[k]) then Roots(links, nodes[..k]) + [nodes[k]] else Roots(links, nodes[..k])
  {
    assert nodes[..k + 1][..k] == nodes[..k];
  }

  lemma FirstQueueIs(nodes: seq<LayoutNode>, edges: seq<Link>, a: nat)
    requires nodes != [] && a < |nodes|
    ensures
      var seeds, i := Seeds(GraphOf(nodes, edges).links, nodes), BeginningsBefore(nodes, edges, a);
      && (BeginsWalks(nodes, edges, nodes[a]) ==> i < |seeds| && seeds[i] == nodes[a])
      && (BeginningsBefore(nodes, edges, |nodes|) == 0 ==> seeds == [nodes[0]])
  {
    var links := GraphOf(nodes, edges).links;
    forall b: nat | b < |nodes| ensures IsRootAt(nodes, edges, links, b) {
      BeginsIffRoot(nodes, edges, b);
    }
    assert nodes[..|nodes|] == nodes;
    RootsAre(nodes, edges, links, |nodes|, a);
  }

  /**
   In any graph on which the loop ends, a start event stands at the middle height, and at the left edge if no edge
   between nodes leads into it. Another node that no edge leads into stands at the left edge, two gaps below the middle
   and one more for each earlier node where walks begin. When walks begin nowhere, the first node stands two gaps below.
   */
  lemma WalksBeginOnTheLeft(nodes: seq<LayoutNode>, edges: seq<Link>, placed: seq<LayoutNode>, a: nat)
    requires nodes != [] && DistinctNodes(nodes) && LaidOut(nodes, edges, placed) && a < |nodes| == |placed|
    requires nodes[a].kind != "boundaryEvent"
    ensures nodes[a].kind == "startEvent" ==> placed[a].y == 260.0
    ensures (forall e :: e in edges && e.source in Ids(nodes) ==> e.target != nodes[a].id) ==>
      && placed[a].x == 100.0
      && (nodes[a].kind != "startEvent" ==>
            placed[a].y == (260 + 190 * (BeginningsBefore(nodes, edges, a) + 2)) as real)
    ensures BeginningsBefore(nodes, edges, |nodes|) == 0 && a == 0 ==> placed[a].x == 100.0 && placed[a].y == 640.0
  {
    if BeginsWalks(nodes, edges, nodes[a]) {
      BeginningStands(nodes, edges, placed, a);
    }
    if BeginningsBefore(nodes, edges, |nodes|) == 0 {
      NoneBegins(nodes, edges, |nodes|, a);
      if a == 0 {
        FirstStands(nodes, edges, placed);
      }
    }
  }

  lemma BeginningStands(nodes: seq<LayoutNode>, edges: seq<Link>, placed: seq<LayoutNode>, a: nat)
    requires nodes != [] && DistinctNodes(nodes) && LaidOut(nodes, edges, placed) && a < |nodes| == |placed|
    requires nodes[a].kind != "boundaryEvent" && BeginsWalks(nodes, edges, nodes[a])
    ensures nodes[a].kind == "startEvent" ==> placed[a].y == 260.0
    ensures nodes[a].kind != "startEvent" ==>
      placed[a].y == (260 + 190 * (BeginningsBefore(nodes, edges, a) + 2)) as real
    ensures (forall e :: e in edges && e.source in Ids(nodes) ==> e.target != nodes[a].id) ==> placed[a].x == 100.0
  {
    FirstQueueIs(nodes, edges, a);
    StartsStand(nodes, edges, placed, BeginningsBefore(nodes, edges, a), a);
  }

  lemma FirstStands(nodes: seq<LayoutNode>, edges: seq<Link>, placed: seq<LayoutNode>)
    requires nodes != [] && DistinctNodes(nodes) && LaidOut(nodes, edges, placed) && |nodes| == |placed|
    requires nodes[0].kind != "boundaryEvent" && nodes[0].kind != "startEvent"
    requires BeginningsBefore(nodes, edges, |nodes|) == 0
    ensures placed[0].x == 100.0 && placed[0].y == 640.0
  {
    FirstQueueIs(nodes, edges, 0);
    StartsStand(nodes, edges, placed, 0, 0);
  }

  lemma {:induction false} NoneBegins(nodes: seq<LayoutNode>, edges: seq<Link>, k: nat, a: nat)
    requires a < k <= |nodes| && BeginningsBefore(nodes, edges, k) == 0
    ensures !BeginsWalks(nodes, edges, nodes[a])
  {
    if a < k - 1 {
      NoneBegins(nodes, edges, k - 1, a);
    }
  }

  lemma StartIsPlaced(nodes: seq<LayoutNode>, links: seq<Link>, ranks: map<string, nat>, lanes: map<string, int>,
                      i: nat, a: nat)
    requires a < |nodes| && nodes[a].kind != "boundaryEvent" && StartStands(links, nodes[a], i, ranks, lanes)
    ensures
      var n := Snap(Arrange(nodes, ranks, lanes), |nodes|)[a];
      && (nodes[a].kind == "startEvent" ==> n.y == 260.0)
      && (nodes[a].kind != "startEvent" ==> n.x == 100.0 && n.y == (260 + 190 * (i + 2)) as real)
      && ((forall e :: e in links ==> e.target != nodes[a].id) ==> n.x == 100.0)
  {
    PlacedAt(nodes, ranks, lanes, a);
  }

  lemma StartFound(nodes: seq<LayoutNode>, edges: seq<Link>, placed: seq<LayoutNode>, i: nat)
    returns (ranks: map<string, nat>, lanes: map<string, int>)
    requires nodes != [] && DistinctNodes(nodes) && LaidOut(nodes, edges, placed)
    requires i < |Seeds(GraphOf(nodes, edges).links, nodes)|
    ensures placed == Snap(Arrange(nodes, ranks, lanes), |nodes|)
    ensures StartStands(GraphOf(nodes, edges).links, Seeds(GraphOf(nodes, edges).links, nodes)[i], i, ranks, lanes)
  {
    var n;
    ranks, lanes, n := Ending(nodes, edges, placed);
    StartLaneAndRank(nodes, edges, placed, ranks, lanes, n, i);
  }

  predicate StartStands(links: seq<Link>, start: LayoutNode, i: nat, ranks: map<string, nat>, lanes: map<string, int>) {
    && start.id in ranks && start.id in lanes
    && lanes[start.id] == (if start.kind == "startEvent" then 0 else i + 2)
    && (start.kind != "startEvent" || (forall e :: e in links ==> e.target != start.id) ==> ranks[start.id] == 0)
  }

  lemma StartLaneAndRank(nodes: seq<LayoutNode>, edges: seq<Link>, placed: seq<LayoutNode>,
                         ranks: map<string, nat>, lanes: map<string, int>, n: nat, i: nat)
    requires nodes != [] && DistinctNodes(nodes) && EndsWith(nodes, edges, placed, ranks, lanes, n)
    requires i < |Seeds(GraphOf(nodes, edges).links, nodes)|
    ensures
      var g := GraphOf(nodes, edges);
      StartStands(g.links, Seeds(g.links, nodes)[i], i, ranks, lanes)
  {
    var g := GraphOf(nodes, edges);
    var seeds := Seeds(g.links, nodes);
    EndIsKnown(nodes, edges, placed, ranks, lanes, n);
    OnlyStartEventsAreEntered(nodes, edges);
    assert IsStartLane(seeds, i, lanes[seeds[i].id]);
    StartIsRanked(g, seeds, ranks, i);
    if seeds[i].kind != "startEvent" || forall e :: e in g.links ==> e.target != seeds[i].id {
      StartHasRankZero(g, seeds, ranks, i);
    }
  }

  lemma StartIsRanked(g: Graph, seeds: seq<LayoutNode>, ranks: map<string, nat>, i: nat)
    requires LongestWalks(g, ranks) && i < |seeds| && g.roots == Ids(seeds)
    ensures seeds[i].id in ranks
  {
    var v := seeds[i].id;
    assert g.roots[i] == v && g.IsRootWalk([v]) && [v][0] == v;
  }

  /**
   In any graph on which the loop ends, the height of a reached node is that of a way of branches from a start, and
   every other node stands at the middle height.
   */
  lemma HeightsAreThoseOfWays(nodes: seq<LayoutNode>, edges: seq<Link>, placed: seq<LayoutNode>, a: nat)
    requires nodes != [] && DistinctNodes(nodes) && LaidOut(nodes, edges, placed) && a < |nodes| == |placed|
    requires nodes[a].kind != "boundaryEvent"
    ensures
      var links := GraphOf(nodes, edges).links;
      if GraphOf(nodes, edges).Reachable(nodes[a].id)
      then exists lane ::
        IsSomeLane(links, Seeds(links, nodes), nodes[a].id, lane) && placed[a].y == (260 + 190 * lane) as real
      else placed[a].y == 260.0
  {
    var g, v := GraphOf(nodes, edges), nodes[a].id;
    var ranks, lanes, n := Ending(nodes, edges, placed);
    EndIsKnown(nodes, edges, placed, ranks, lanes, n);
    PlacedAt(nodes, ranks, lanes, a);
    if g.Reachable(v) {
      ReachedIsRanked(g, ranks, lanes, v);
      LanesAreThoseOfWays(nodes, edges, n, v);
      assert IsSomeLane(g.links, Seeds(g.links, nodes), v, lanes[v]);
    }
    if v in ranks {
      RankedIsReached(g, ranks, v);
    }
  }

  lemma RankedIsReached(g: Graph, ranks: map<string, nat>, v: string)
    requires LongestWalks(g, ranks) && v in ranks
    ensures g.Reachable(v)
  {
    var w :| g.IsRootWalk(w) && w[|w| - 1] == v && |w| == ranks[v] + 1;
  }

  // ---- Nodes that are not reached ----

  lemma {:induction false} FilledInOrder(
      ids: seq<string>, ranks: map<string, nat>, lanes: map<string, int>, k: nat, i: nat)
    requires i < k <= |ids| && ids[i] !in ranks && forall j :: 0 <= j < i ==> ids[j] != ids[i]
    ensures
      var r := Fill(ids, ranks, lanes, k).0;
      ids[i] in r && r[ids[i]] == MaxRank(ids, ranks) + i + 1
  {
    if i == k - 1 {
      FilledLane(ids, ranks, lanes, k - 1, ids[i]);
      assert forall j :: 0 <= j < k - 1 ==> ids[..k - 1][j] == ids[j];
    } else {
      FilledInOrder(ids, ranks, lanes, k - 1, i);
    }
  }

  lemma {:induction false} MaxRankIsTaken(ids: seq<string>, ranks: map<string, nat>)
    requires exists id :: id in ids && id in ranks
    ensures exists id :: id in ids && id in ranks && ranks[id] == MaxRank(ids, ranks)
  {
    if exists id :: id in ids[1..] && id in ranks {
      MaxRankIsTaken(ids[1..], ranks);
      var id :| id in ids[1..] && id in ranks && ranks[id] == MaxRank(ids[1..], ranks);
      assert id in ids && ids[0] in ids;
    } else {
      assert ids[0] in ids && ids[0] in ranks;
      NoneIsRanked(ids[1..], ranks);
    }
  }

  lemma {:induction false} NoneIsRanked(ids: seq<string>, ranks: map<string, nat>)
    requires forall id :: id in ids ==> id !in ranks
    ensures MaxRank(ids, ranks) == 0
  {
    if ids != [] {
      assert ids[0] in ids;
      NoneIsRanked(ids[1..], ranks);
    }
  }

  lemma UnreachedX(nodes: seq<LayoutNode>, ranks: map<string, nat>, lanes: map<string, int>, i: nat)
    requires DistinctNodes(nodes) && i < |nodes| && nodes[i].id !in ranks && nodes[i].kind != "boundaryEvent"
    ensures
      var max := MaxRank(Ids(nodes), ranks);
      Snap(Arrange(nodes, ranks, lanes), |nodes|)[i].x == (100 + 240 * (max + i + 1)) as real
  {
    var ids := Ids(nodes);
    assert forall j :: 0 <= j < |nodes| ==> ids[j] == nodes[j].id;
    FilledInOrder(ids, ranks, lanes, |ids|, i);
    SnapTouchesOnlyBoundaryEvents(Arrange(nodes, ranks, lanes), |nodes|);
  }

  /** Node `h` is reached, and no reached node stands further right. */
  ghost predicate IsRightmost(nodes: seq<LayoutNode>, edges: seq<Link>, ranks: map<string, nat>, h: nat)
    requires nodes != []
  {
    && h < |nodes| && nodes[h].id in ranks
    && forall i :: 0 <= i < |nodes| && nodes[i].id in ranks ==> ranks[nodes[i].id] <= ranks[nodes[h].id]
  }

  /**
   Nodes that are not reached stand in a row, in the order of the list: `i` and one more gaps right of the rightmost
   nodes that are, so that no two of them stand at the same place.
   */
  lemma UnreachedStandInRow(
      nodes: seq<LayoutNode>, edges: seq<Link>, placed: seq<LayoutNode>, i: nat, h: nat, ranks: map<string, nat>)
    requires nodes != [] && DistinctNodes(nodes) && LaidOut(nodes, edges, placed) && |placed| == |nodes|
    requires i < |nodes| && !GraphOf(nodes, edges).Reachable(nodes[i].id) && nodes[i].kind != "boundaryEvent"
    requires LongestWalks(GraphOf(nodes, edges), ranks) && IsRightmost(nodes, edges, ranks, h)
    requires nodes[h].kind != "boundaryEvent"
    ensures placed[i].x == placed[h].x + (240 * (i + 1)) as real && placed[i].y == 260.0
  {
    var found, lanes, n := Ending(nodes, edges, placed);
    var g := GraphOf(nodes, edges);
    SameWalksSameRanks(g, ranks, found);
    if nodes[i].id in found {
      RankedIsReached(g, found, nodes[i].id);
    }
    EndIsKnown(nodes, edges, placed, found, lanes, n);
    assert NodeInv(g, Ranking([], found, lanes), nodes[h].id);
    RightmostIsMax(nodes, edges, found, h);
    UnreachedX(nodes, found, lanes, i);
    PlacedAt(nodes, found, lanes, i);
    PlacedAt(nodes, found, lanes, h);
  }

  lemma RightmostIsMax(nodes: seq<LayoutNode>, edges: seq<Link>, ranks: map<string, nat>, h: nat)
    requires nodes != [] && IsRightmost(nodes, edges, ranks, h)
    ensures MaxRank(Ids(nodes), ranks) == ranks[nodes[h].id]
  {
    var ids := Ids(nodes);
    IdIsKnown(nodes, h);
    MaxRankIsTaken(ids, ranks);
    var id :| id in ids && id in ranks && ranks[id] == MaxRank(ids, ranks);
    var j :| 0 <= j < |ids| && ids[j] == id;
    assert nodes[j].id in ranks;
  }

  /** Longest walks leave no choice of ranks. */
  lemma SameWalksSameRanks(g: Graph, a: map<string, nat>, b: map<string, nat>)
    requires LongestWalks(g, a) && LongestWalks(g, b)
    ensures a == b
  {
    forall v | v in a ensures v in b && a[v] <= b[v] {
      RankIsNoLonger(g, a, b, v);
    }
    forall v | v in b ensures v in a && b[v] <= a[v] {
      RankIsNoLonger(g, b, a, v);
    }
  }

  lemma RankIsNoLonger(g: Graph, a: map<string, nat>, b: map<string, nat>, v: string)
    requires LongestWalks(g, a) && LongestWalks(g, b) && v in a
    ensures v in b && a[v] <= b[v]
  {
    var w :| g.IsRootWalk(w) && w[|w| - 1] == v && |w| == a[v] + 1;
  }

  /** A start event with two targets: one straight on, the other one gap above. */
  lemma TwoTargets(nodes: seq<LayoutNode>, edges: seq<Link>, placed: seq<LayoutNode>)
    requires |nodes| == |placed| == 3 && DistinctNodes(nodes) && LaidOut(nodes, edges, placed)
    requires edges == [Link(nodes[0].id, nodes[1].id), Link(nodes[0].id, nodes[2].id)]
    requires nodes[0].kind == "startEvent" && nodes[1].kind == nodes[2].kind == "userTask"
    ensures placed[0].x == 100.0 && placed[0].y == 260.0
    ensures placed[1].x == 340.0 && placed[1].y == 260.0
    ensures placed[2].x == 340.0 && placed[2].y == 70.0
  {
    TwoBranches(nodes, edges);
    FirstIsStart(nodes, edges, placed);
    BranchesFanOut(nodes, edges, placed, 0, 0, 1);
    BranchesFanOut(nodes, edges, placed, 1, 0, 2);
    TwoPlaces(nodes, edges, placed);
  }

  lemma TwoPlaces(nodes: seq<LayoutNode>, edges: seq<Link>, placed: seq<LayoutNode>)
    requires |nodes| == |placed| == 3 && |edges| == 2 && placed[0].x == 100.0 && placed[0].y == 260.0
    requires BranchesBefore(Ids(nodes), edges, 0, nodes[0].id) == 0
    requires BranchesBefore(Ids(nodes), edges, 1, nodes[0].id) == 1
    requires IsFannedOut(nodes, edges, placed, 0, 0, 1) && IsFannedOut(nodes, edges, placed, 1, 0, 2)
    ensures placed[1].x == 340.0 && placed[1].y == 260.0 && placed[2].x == 340.0 && placed[2].y == 70.0
  {
  }

  /** A start event at the head of the list that no edge leads into. */
  lemma FirstIsStart(nodes: seq<LayoutNode>, edges: seq<Link>, placed: seq<LayoutNode>)
    requires nodes != [] && DistinctNodes(nodes) && LaidOut(nodes, edges, placed) && |placed| == |nodes|
    requires nodes[0].kind == "startEvent" && forall e :: e in edges ==> e.target != nodes[0].id
    ensures GraphOf(nodes, edges).Reachable(nodes[0].id) && placed[0].x == 100.0 && placed[0].y == 260.0
  {
    var g := GraphOf(nodes, edges);
    var i := FirstIsSeed(nodes, edges);
    StartIsReached(g, Seeds(g.links, nodes), i);
    StartsStand(nodes, edges, placed, i, 0);
  }

  lemma FirstIsSeed(nodes: seq<LayoutNode>, edges: seq<Link>) returns (i: nat)
    requires nodes != [] && nodes[0].kind == "startEvent"
    ensures
      var seeds := Seeds(GraphOf(nodes, edges).links, nodes);
      i < |seeds| && seeds[i] == nodes[0]
  {
    var links := GraphOf(nodes, edges).links;
    assert nodes[0] in Roots(links, nodes);
    i :| i < |Seeds(links, nodes)| && Seeds(links, nodes)[i] == nodes[0];
  }

  lemma StartIsReached(g: Graph, seeds: seq<LayoutNode>, i: nat)
    requires i < |seeds| && g.roots == Ids(seeds)
    ensures g.Reachable(seeds[i].id)
  {
    assert g.roots[i] == seeds[i].id && g.IsRootWalk([seeds[i].id]) && [seeds[i].id][0] == seeds[i].id;
  }

  lemma TwoBranches(nodes: seq<LayoutNode>, edges: seq<Link>)
    requires |nodes| == 3 && DistinctNodes(nodes)
    requires edges == [Link(nodes[0].id, nodes[1].id), Link(nodes[0].id, nodes[2].id)]
    ensures BranchesBefore(Ids(nodes), edges, 0, nodes[0].id) == 0
    ensures BranchesBefore(Ids(nodes), edges, 1, nodes[0].id) == 1
    ensures IsForest(Ids(nodes), edges) && forall e :: e in edges ==> e.target != nodes[0].id
  {
    IdIsKnown(nodes, 0);
    IdIsKnown(nodes, 1);
    assert BranchesBefore(Ids(nodes), edges, 0, nodes[0].id) == 0;
  }
}
