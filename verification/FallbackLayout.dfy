/**
 The automatic layout used for diagrams without coordinates: a queue-driven longest-path ranking
 without a visited set. One turn of its loop is the function `Step`; the loop itself is
 the method `RankNodes`.
 */
module FallbackLayout {
  import opened Options
  import opened LayoutGraph

  const X_GAP := 240
  const Y_GAP := 190
  const START_X := 100
  const CENTER_Y := 260

  datatype LayoutNode = LayoutNode(
    id: string, kind: string, attachedTo: Option<string>,
    x: real, y: real, width: real, height: real)

  /** The loop's variables. */
  datatype Ranking = Ranking(queue: seq<string>, ranks: map<string, nat>, lanes: map<string, int>)

  function Ids(nodes: seq<LayoutNode>): (ids: seq<string>)
    ensures |ids| == |nodes| && forall i :: 0 <= i < |nodes| ==> ids[i] == nodes[i].id
  {
    seq(|nodes|, i requires 0 <= i < |nodes| => nodes[i].id)
  }

  /** Edges with an unknown end are ignored. */
  function Kept(ids: seq<string>, edges: seq<Link>): (kept: seq<Link>)
    ensures forall e :: e in kept <==> e in edges && e.source in ids && e.target in ids
  {
    if edges == [] then []
    else
      var last := edges[|edges| - 1];
      var before := Kept(ids, edges[..|edges| - 1]);
      assert forall e :: e in edges <==> e in edges[..|edges| - 1] || e == last;
      if last.source in ids && last.target in ids then before + [last] else before
  }

  function Targets(links: seq<Link>, id: string): (targets: seq<string>)
    ensures forall v :: v in targets <==> Link(id, v) in links
  {
    if links == [] then []
    else
      var last := links[|links| - 1];
      var before := Targets(links[..|links| - 1], id);
      assert forall e :: e in links <==> e in links[..|links| - 1] || e == last;
      if last.source == id then before + [last.target] else before
  }

  predicate HasIncoming(links: seq<Link>, id: string) {
    exists e :: e in links && e.target == id
  }

  predicate IsRoot(links: seq<Link>, node: LayoutNode) {
    node.kind == "startEvent" || !HasIncoming(links, node.id)
  }

  function Roots(links: seq<Link>, nodes: seq<LayoutNode>): (roots: seq<LayoutNode>)
    ensures forall n :: n in roots <==> n in nodes && IsRoot(links, n)
  {
    if nodes == [] then []
    else
      var last := nodes[|nodes| - 1];
      var before := Roots(links, nodes[..|nodes| - 1]);
      assert forall n :: n in nodes <==> n in nodes[..|nodes| - 1] || n == last;
      if IsRoot(links, last) then before + [last] else before
  }

  /** The initial queue: every root, or the first node when there is none. */
  function Seeds(links: seq<Link>, nodes: seq<LayoutNode>): (seeds: seq<LayoutNode>)
    requires |nodes| > 0
    ensures |seeds| > 0 && forall n :: n in seeds ==> n in nodes
  {
    var roots := Roots(links, nodes);
    if |roots| > 0 then roots else [nodes[0]]
  }

  function GraphOf(nodes: seq<LayoutNode>, edges: seq<Link>): (g: Graph)
    requires |nodes| > 0
    ensures g.Valid()
  {
    var links := Kept(Ids(nodes), edges);
    var seeds := Seeds(links, nodes);
    var g := Graph(Ids(nodes), Ids(seeds), links);
    assert forall r :: r in g.roots ==> r in g.ids by {
      forall r | r in g.roots ensures r in g.ids {
        var i :| 0 <= i < |seeds| && seeds[i].id == r;
        assert seeds[i] in nodes;
        var j :| 0 <= j < |nodes| && nodes[j] == seeds[i];
        assert g.ids[j] == r;
      }
    }
    g
  }

  function Abs(i: int): nat {
    if i < 0 then -i else i
  }

  /** 0, -1, 1, -2, 2, ... */
  function BranchLaneOffset(index: nat): int {
    if index == 0 then 0
    else
      var distance := (index + 1) / 2;
      if index % 2 == 1 then -distance else distance
  }

  function InitialLane(node: LayoutNode, index: nat): int {
    if node.kind == "startEvent" then 0 else index + 2
  }

  function InitialLanes(seeds: seq<LayoutNode>): (lanes: map<string, int>) {
    if seeds == [] then map[]
    else
      var last := |seeds| - 1;
      InitialLanes(seeds[..last])[seeds[last].id := InitialLane(seeds[last], last)]
  }

  function Init(seeds: seq<LayoutNode>): Ranking {
    Ranking(Ids(seeds), map id | id in Ids(seeds) :: 0, InitialLanes(seeds))
  }

  /** What one edge into `target` does. */
  function RelaxEdge(s: Ranking, target: string, lane: int, rank: nat): Ranking {
    var s1 :=
      if target !in s.lanes || Abs(lane) < Abs(s.lanes[target]) then s.(lanes := s.lanes[target := lane]) else s;
    if target !in s.ranks || rank > s.ranks[target] then
      s1.(ranks := s1.ranks[target := rank], queue := s1.queue + [target])
    else s1
  }

  /** The first `k` edges of a node. */
  function RelaxEdges(s: Ranking, targets: seq<string>, lane: int, rank: nat, k: nat): Ranking
    requires k <= |targets|
  {
    if k == 0 then s
    else
      RelaxEdge(RelaxEdges(s, targets, lane, rank, k - 1), targets[k - 1], lane + BranchLaneOffset(k - 1), rank)
  }

  function RankOf(s: Ranking, id: string): nat {
    if id in s.ranks then s.ranks[id] else 0
  }

  function LaneOf(s: Ranking, id: string): int {
    if id in s.lanes then s.lanes[id] else 0
  }

  /** One turn of the loop. */
  function Step(links: seq<Link>, s: Ranking): Ranking
    requires s.queue != []
  {
    Visit(Ranking(s.queue[1..], s.ranks, s.lanes), Targets(links, s.queue[0]),
          LaneOf(s, s.queue[0]), RankOf(s, s.queue[0]) + 1)
  }

  /** All edges of a node. */
  function Visit(s: Ranking, targets: seq<string>, lane: int, rank: nat): Ranking {
    RelaxEdges(s, targets, lane, rank, |targets|)
  }

  /** The state after `n` turns, or after the last one when the loop has stopped before. */
  function Run(links: seq<Link>, s: Ranking, n: nat): Ranking {
    if n == 0 then s
    else
      var before := Run(links, s, n - 1);
      if before.queue == [] then before else Step(links, before)
  }

  // ---- What every turn keeps ----

  /** Every rank is the length of a real walk; edges out of nodes that are not queued are satisfied. */
  ghost predicate Inv(g: Graph, s: Ranking) {
    (forall v :: NodeInv(g, s, v)) && (forall e :: e in g.links ==> EdgeInv(s, e))
  }

  ghost predicate NodeInv(g: Graph, s: Ranking, v: string) {
    && (v in s.queue || v in g.roots ==> v in s.ranks)
    && (v in s.ranks ==> g.Reaches(v, s.ranks[v]) && v in s.lanes)
  }

  ghost predicate EdgeInv(s: Ranking, e: Link) {
    e.source in s.ranks && e.source !in s.queue ==> Satisfied(s, e)
  }

  ghost predicate Satisfied(s: Ranking, e: Link) {
    e.source in s.ranks && e.target in s.ranks && s.ranks[e.target] >= s.ranks[e.source] + 1
  }

  /** `t` is `s` after some edges: what is queued stays queued, and ranks and lanes are never taken away. */
  ghost predicate Extends(s: Ranking, t: Ranking) {
    |s.queue| <= |t.queue| && forall v :: ExtendsAt(s, t, v)
  }

  ghost predicate ExtendsAt(s: Ranking, t: Ranking, v: string) {
    && (v in s.queue ==> v in t.queue)
    && (v in s.ranks ==> v in t.ranks && t.ranks[v] >= s.ranks[v])
    && (v in s.lanes ==> v in t.lanes)
  }

  /** Only targets of the node at hand change: they get the new rank and are queued. */
  ghost predicate Changes(s: Ranking, t: Ranking, targets: seq<string>, rank: nat) {
    && (forall v :: ChangesAt(s, t, targets, rank, v))
    && (|t.queue| > |s.queue| ==> exists v :: Risen(s, t, v))
  }

  ghost predicate ChangesAt(s: Ranking, t: Ranking, targets: seq<string>, rank: nat, v: string) {
    && (v in t.ranks ==> Unchanged(s, t, v) || Raised(t, v, targets, rank))
    && (v in t.queue ==> v in s.queue || Raised(t, v, targets, rank))
  }

  ghost predicate Unchanged(s: Ranking, t: Ranking, v: string) {
    v in s.ranks && v in t.ranks && t.ranks[v] == s.ranks[v]
  }

  ghost predicate Risen(s: Ranking, t: Ranking, v: string) {
    v in t.ranks && (v !in s.ranks || t.ranks[v] > s.ranks[v])
  }

  ghost predicate Raised(t: Ranking, v: string, targets: seq<string>, rank: nat) {
    v in t.queue && v in targets && v in t.ranks && t.ranks[v] == rank && v in t.lanes
  }

  ghost predicate Relaxed(t: Ranking, v: string, rank: nat) {
    v in t.ranks && t.ranks[v] >= rank
  }

  lemma RelaxEdgeGrows(s: Ranking, targets: seq<string>, target: string, lane: int, rank: nat)
    requires target in targets
    ensures Extends(s, RelaxEdge(s, target, lane, rank))
    ensures Changes(s, RelaxEdge(s, target, lane, rank), targets, rank)
    ensures Relaxed(RelaxEdge(s, target, lane, rank), target, rank)
  {
    var t := RelaxEdge(s, target, lane, rank);
    if t.queue != s.queue {
      assert Risen(s, t, target);
    }
  }

  lemma ChangesCompose(s: Ranking, m: Ranking, t: Ranking, targets: seq<string>, rank: nat)
    requires Extends(s, m) && Changes(s, m, targets, rank)
    requires Extends(m, t) && Changes(m, t, targets, rank)
    ensures Extends(s, t) && Changes(s, t, targets, rank)
  {
    forall v ensures ExtendsAt(s, t, v) && ChangesAt(s, t, targets, rank, v) {
      assert ExtendsAt(s, m, v) && ExtendsAt(m, t, v);
      assert ChangesAt(s, m, targets, rank, v) && ChangesAt(m, t, targets, rank, v);
    }
    if |m.queue| > |s.queue| {
      var v :| Risen(s, m, v);
      assert ExtendsAt(m, t, v);
      assert Risen(s, t, v);
    } else if |t.queue| > |s.queue| {
      var v :| Risen(m, t, v);
      assert ExtendsAt(s, m, v);
      assert Risen(s, t, v);
    }
  }

  ghost predicate AllRelaxed(t: Ranking, targets: seq<string>, rank: nat) {
    forall v :: v in targets ==> Relaxed(t, v, rank)
  }

  lemma RelaxedStaysRelaxed(m: Ranking, t: Ranking, targets: seq<string>, last: string, rank: nat)
    requires AllRelaxed(m, targets, rank) && Extends(m, t) && Relaxed(t, last, rank)
    ensures AllRelaxed(t, targets + [last], rank)
  {
    forall v | v in targets + [last] ensures Relaxed(t, v, rank) {
      if v != last { assert v in targets && Relaxed(m, v, rank) && ExtendsAt(m, t, v); }
    }
  }

  lemma {:induction false} RelaxEdgesGrow(s: Ranking, targets: seq<string>, lane: int, rank: nat, k: nat)
    requires k <= |targets|
    ensures Extends(s, RelaxEdges(s, targets, lane, rank, k))
    ensures Changes(s, RelaxEdges(s, targets, lane, rank, k), targets, rank)
    ensures AllRelaxed(RelaxEdges(s, targets, lane, rank, k), targets[..k], rank)
  {
    if k == 0 {
    } else {
      RelaxEdgesGrow(s, targets, lane, rank, k - 1);
      var m := RelaxEdges(s, targets, lane, rank, k - 1);
      var v := targets[k - 1];
      var t := RelaxEdge(m, v, lane + BranchLaneOffset(k - 1), rank);
      RelaxEdgeGrows(m, targets, v, lane + BranchLaneOffset(k - 1), rank);
      ChangesCompose(s, m, t, targets, rank);
      RelaxedStaysRelaxed(m, t, targets[..k - 1], v, rank);
      assert targets[..k] == targets[..k - 1] + [v];
    }
  }

  /** What is known of the state `t` after a turn that took `s.queue[0]` from the queue. */
  ghost predicate Turned(links: seq<Link>, s: Ranking, t: Ranking)
    requires s.queue != []
  {
    var id, popped := s.queue[0], s.(queue := s.queue[1..]);
    && Extends(popped, t) && Changes(popped, t, Targets(links, id), RankOf(s, id) + 1)
    && AllRelaxed(t, Targets(links, id), RankOf(s, id) + 1)
  }

  lemma StepTurns(links: seq<Link>, s: Ranking)
    requires s.queue != []
    ensures Turned(links, s, Step(links, s))
  {
    var id, popped := s.queue[0], s.(queue := s.queue[1..]);
    var targets := Targets(links, id);
    RelaxEdgesGrow(popped, targets, LaneOf(s, id), RankOf(s, id) + 1, |targets|);
    assert targets[..|targets|] == targets;
  }

  lemma ReachesNext(g: Graph, u: string, length: nat, v: string)
    requires g.Reaches(u, length) && g.Linked(u, v)
    ensures g.Reaches(v, length + 1)
  {
    var w :| g.IsRootWalk(w) && w[|w| - 1] == u && |w| == length + 1;
    WalkExtend(g, w, v);
    var longer := w + [v];
    assert g.IsRootWalk(longer) && longer[|longer| - 1] == v;
  }

  lemma TurnKeepsNodeInv(g: Graph, s: Ranking, t: Ranking, v: string)
    requires Inv(g, s) && s.queue != [] && Turned(g.links, s, t)
    ensures NodeInv(g, t, v)
  {
    var id, popped := s.queue[0], s.(queue := s.queue[1..]);
    assert ChangesAt(popped, t, Targets(g.links, id), RankOf(s, id) + 1, v) && ExtendsAt(popped, t, v);
    assert NodeInv(g, s, v) && NodeInv(g, s, id);
    assert v in popped.queue ==> v in s.queue;
    if v in t.ranks && !Unchanged(popped, t, v) {
      assert g.Linked(id, v);
      ReachesNext(g, id, s.ranks[id], v);
    }
  }

  lemma TurnKeepsEdgeInv(g: Graph, s: Ranking, t: Ranking, e: Link)
    requires Inv(g, s) && s.queue != [] && Turned(g.links, s, t) && e in g.links
    ensures EdgeInv(t, e)
  {
    var id, popped := s.queue[0], s.(queue := s.queue[1..]);
    assert ChangesAt(popped, t, Targets(g.links, id), RankOf(s, id) + 1, e.source);
    assert ExtendsAt(popped, t, e.source) && ExtendsAt(popped, t, e.target);
    if e.source == id {
      assert e.target in Targets(g.links, id);
      assert Relaxed(t, e.target, RankOf(s, id) + 1);
    } else {
      assert s.queue == [id] + popped.queue;
      assert EdgeInv(s, e);
    }
  }

  lemma TurnKeepsInv(g: Graph, s: Ranking, t: Ranking)
    requires Inv(g, s) && s.queue != [] && Turned(g.links, s, t)
    ensures Inv(g, t)
  {
    forall v ensures NodeInv(g, t, v) {
      TurnKeepsNodeInv(g, s, t, v);
    }
    forall e | e in g.links ensures EdgeInv(t, e) {
      TurnKeepsEdgeInv(g, s, t, e);
    }
  }

  lemma StepKeepsInv(g: Graph, s: Ranking)
    requires g.Valid() && Inv(g, s) && s.queue != []
    ensures Inv(g, Step(g.links, s))
  {
    var t := Step(g.links, s);
    StepTurns(g.links, s);
    TurnKeepsInv(g, s, t);
  }

  lemma InitHoldsInv(nodes: seq<LayoutNode>, edges: seq<Link>)
    requires |nodes| > 0
    ensures Inv(GraphOf(nodes, edges), Init(Seeds(GraphOf(nodes, edges).links, nodes)))
  {
    var g := GraphOf(nodes, edges);
    var seeds := Seeds(g.links, nodes);
    InitialLanesCover(seeds);
    forall v | v in g.roots ensures g.Reaches(v, 0) {
      var w := [v];
      assert g.IsRootWalk(w) && w[|w| - 1] == v;
    }
  }

  lemma {:induction false} InitialLanesCover(seeds: seq<LayoutNode>)
    ensures forall n :: n in seeds ==> n.id in InitialLanes(seeds)
    ensures forall i :: 0 <= i < |seeds| ==> Ids(seeds)[i] in InitialLanes(seeds)
  {
    if seeds == [] {
    } else {
      var last := |seeds| - 1;
      InitialLanesCover(seeds[..last]);
      forall i | 0 <= i < |seeds| ensures seeds[i].id in InitialLanes(seeds) {
        if i < last { assert seeds[i] == seeds[..last][i] && seeds[i] in seeds[..last]; }
      }
    }
  }

  // ---- Termination ----

  /** How far the ranks of the listed ids are below `bound`; an unranked id counts one more. */
  ghost function Remaining(ids: seq<string>, ranks: map<string, nat>, bound: nat): int {
    if ids == [] then 0
    else
      (if ids[0] in ranks then bound - ranks[ids[0]] else bound + 1) + Remaining(ids[1..], ranks, bound)
  }

  lemma {:induction false} RemainingIsNonNegative(ids: seq<string>, ranks: map<string, nat>, bound: nat)
    requires forall v :: v in ranks ==> ranks[v] <= bound
    ensures Remaining(ids, ranks, bound) >= 0
  {
    if ids == [] {
    } else {
      RemainingIsNonNegative(ids[1..], ranks, bound);
    }
  }

  lemma {:induction false} RaisingLowersRemaining(
      ids: seq<string>, ranks: map<string, nat>, raised: map<string, nat>, bound: nat)
    requires forall v :: v in raised ==> raised[v] <= bound
    requires forall v :: v in ranks ==> v in raised && raised[v] >= ranks[v]
    ensures Remaining(ids, raised, bound) <= Remaining(ids, ranks, bound)
    ensures (exists v :: v in ids && v in raised && (v !in ranks || raised[v] > ranks[v])) ==>
      Remaining(ids, raised, bound) < Remaining(ids, ranks, bound)
  {
    if ids == [] {
    } else {
      RaisingLowersRemaining(ids[1..], ranks, raised, bound);
      if v :| v in ids && v in raised && (v !in ranks || raised[v] > ranks[v]) {
        assert v == ids[0] || v in ids[1..];
      }
    }
  }

  ghost function Bound(g: Graph): nat {
    |Elements(g.ids)|
  }

  lemma RanksAreBounded(g: Graph, s: Ranking)
    requires g.Valid() && g.NoReachableCycle() && Inv(g, s)
    ensures forall v :: v in s.ranks ==> s.ranks[v] <= Bound(g) && v in g.ids
  {
    forall v | v in s.ranks ensures s.ranks[v] <= Bound(g) && v in g.ids {
      assert NodeInv(g, s, v);
      var w :| g.IsRootWalk(w) && w[|w| - 1] == v && |w| == s.ranks[v] + 1;
      RootWalkIsShort(g, w);
      WalkStaysInside(g, w);
    }
  }

  /** A turn raises some rank, or leaves the ranks alone and shortens the queue. */
  lemma TurnMakesProgress(g: Graph, s: Ranking, t: Ranking)
    requires g.Valid() && g.NoReachableCycle() && Inv(g, s) && s.queue != [] && Turned(g.links, s, t)
    ensures
      var before, after := Remaining(g.ids, s.ranks, Bound(g)), Remaining(g.ids, t.ranks, Bound(g));
      0 <= after <= before && (after < before || |t.queue| < |s.queue|)
  {
    var popped := s.(queue := s.queue[1..]);
    TurnKeepsInv(g, s, t);
    RanksAreBounded(g, t);
    forall v | v in s.ranks ensures v in t.ranks && t.ranks[v] >= s.ranks[v] {
      assert ExtendsAt(popped, t, v);
    }
    RaisingLowersRemaining(g.ids, s.ranks, t.ranks, Bound(g));
    if |t.queue| > |popped.queue| {
      var v :| Risen(popped, t, v);
      assert v in g.ids;
    }
    RemainingIsNonNegative(g.ids, t.ranks, Bound(g));
  }

  lemma {:induction false} RunKeepsInv(g: Graph, s: Ranking, n: nat)
    requires g.Valid() && Inv(g, s)
    ensures Inv(g, Run(g.links, s, n))
  {
    if n == 0 {
    } else {
      RunKeepsInv(g, s, n - 1);
      var before := Run(g.links, s, n - 1);
      if before.queue != [] { StepKeepsInv(g, before); }
    }
  }

  lemma {:induction false} RunFromState(g: Graph, s: Ranking, n: nat) returns (m: nat)
    requires g.Valid() && g.NoReachableCycle() && Inv(g, s)
    ensures m >= n && Run(g.links, s, m).queue == []
    decreases
      Remaining(g.ids, Run(g.links, s, n).ranks, Bound(g)), |Run(g.links, s, n).queue|
  {
    RunKeepsInv(g, s, n);
    var now := Run(g.links, s, n);
    if now.queue == [] {
      m := n;
    } else {
      RanksAreBounded(g, now);
      RemainingIsNonNegative(g.ids, now.ranks, Bound(g));
      StepTurns(g.links, now);
      TurnMakesProgress(g, now, Step(g.links, now));
      assert Run(g.links, s, n + 1) == Step(g.links, now);
      m := RunFromState(g, s, n + 1);
    }
  }

  // ---- What the ranks mean once the queue is empty ----

  /** Every node that a walk from the roots enters has a rank, and the rank is the longest such walk. */
  ghost predicate LongestWalks(g: Graph, ranks: map<string, nat>) {
    && (forall v :: v in ranks ==> g.Reaches(v, ranks[v]))
    && (forall w :: g.IsRootWalk(w) ==> w[|w| - 1] in ranks && |w| - 1 <= ranks[w[|w| - 1]])
  }

  lemma {:induction false} WalkIsWithinRank(g: Graph, s: Ranking, w: seq<string>)
    requires Inv(g, s) && s.queue == [] && g.IsRootWalk(w)
    ensures w[|w| - 1] in s.ranks && |w| - 1 <= s.ranks[w[|w| - 1]]
  {
    if |w| == 1 {
      assert NodeInv(g, s, w[0]);
    } else {
      WalkSlice(g, w, 0, |w| - 1);
      var shorter := w[0..|w| - 1];
      WalkIsWithinRank(g, s, shorter);
      assert g.Linked(w[|w| - 2], w[|w| - 1]);
      assert EdgeInv(s, Link(w[|w| - 2], w[|w| - 1]));
    }
  }

  lemma ExitGivesLongestWalks(g: Graph, s: Ranking)
    requires Inv(g, s) && s.queue == []
    ensures LongestWalks(g, s.ranks)
  {
    forall v | v in s.ranks ensures g.Reaches(v, s.ranks[v]) {
      assert NodeInv(g, s, v);
    }
    forall w | g.IsRootWalk(w) ensures w[|w| - 1] in s.ranks && |w| - 1 <= s.ranks[w[|w| - 1]] {
      WalkIsWithinRank(g, s, w);
    }
  }

  lemma {:induction false} RanksRiseAlong(g: Graph, s: Ranking, w: seq<string>)
    requires Inv(g, s) && s.queue == [] && g.IsWalk(w) && w[0] in s.ranks
    ensures w[|w| - 1] in s.ranks && s.ranks[w[|w| - 1]] >= s.ranks[w[0]] + |w| - 1
  {
    if |w| == 1 {
    } else {
      WalkSlice(g, w, 0, |w| - 1);
      var shorter := w[0..|w| - 1];
      RanksRiseAlong(g, s, shorter);
      assert g.Linked(w[|w| - 2], w[|w| - 1]);
      assert EdgeInv(s, Link(w[|w| - 2], w[|w| - 1]));
    }
  }

  /** The loop ends if and only if no cycle can be entered from the nodes it starts with. */
  lemma LoopEndsIffNoReachableCycle(nodes: seq<LayoutNode>, edges: seq<Link>)
    requires |nodes| > 0
    ensures
      var g := GraphOf(nodes, edges);
      (exists n: nat :: Run(g.links, Init(Seeds(g.links, nodes)), n).queue == []) <==> g.NoReachableCycle()
  {
    var g := GraphOf(nodes, edges);
    var s := Init(Seeds(g.links, nodes));
    InitHoldsInv(nodes, edges);
    if g.NoReachableCycle() {
      var m := RunFromState(g, s, 0);
    }
    if n: nat :| Run(g.links, s, n).queue == [] {
      var last := Run(g.links, s, n);
      RunKeepsInv(g, s, n);
      ExitGivesLongestWalks(g, last);
      forall w | g.IsCycle(w) && g.Reachable(w[0]) ensures false {
        RanksRiseAlong(g, last, w);
      }
    }
  }

  /** A start event that leads into a cycle of two is enough for the loop never to end. */
  lemma CycleNeverEnds(nodes: seq<LayoutNode>, edges: seq<Link>, n: nat)
    requires Ids(nodes) == ["s", "a", "b"] && edges == [Link("s", "a"), Link("a", "b"), Link("b", "a")]
    requires nodes[0].kind == "startEvent"
    ensures
      var g := GraphOf(nodes, edges);
      Run(g.links, Init(Seeds(g.links, nodes)), n).queue != []
  {
    var g := GraphOf(nodes, edges);
    assert nodes[0].id == "s" && nodes[0] in Roots(g.links, nodes);
    var seeds := Seeds(g.links, nodes);
    var r :| 0 <= r < |seeds| && seeds[r] == nodes[0];
    assert g.roots[r] == "s";
    assert Link("s", "a") in g.links && Link("a", "b") in g.links && Link("b", "a") in g.links by {
      assert edges[0] in edges && edges[1] in edges && edges[2] in edges;
      assert Ids(nodes)[0] == "s" && Ids(nodes)[1] == "a" && Ids(nodes)[2] == "b";
    }
    assert g.IsRootWalk(["s", "a"]);
    assert g.IsCycle(["a", "b", "a"]);
    LoopEndsIffNoReachableCycle(nodes, edges);
  }

  /** On an acyclic graph each node is entered from a node without predecessors. */
  lemma AcyclicReachesEveryNode(nodes: seq<LayoutNode>, edges: seq<Link>)
    requires |nodes| > 0 && GraphOf(nodes, edges).Acyclic()
    ensures forall n :: n in nodes ==> GraphOf(nodes, edges).Reachable(n.id)
  {
    var g := GraphOf(nodes, edges);
    forall n | n in nodes ensures g.Reachable(n.id) {
      var i :| 0 <= i < |nodes| && nodes[i] == n;
      assert n.id == g.ids[i];
      var w := [n.id];
      assert g.IsWalk(w);
      var full := WalkFromSource(g, w);
      var j :| 0 <= j < |nodes| && g.ids[j] == full[0];
      assert !HasIncoming(g.links, nodes[j].id) by {
        forall e | e in g.links ensures e.target != full[0] {
          assert !g.Linked(e.source, full[0]);
        }
      }
      var roots := Roots(g.links, nodes);
      assert nodes[j] in roots;
      var r :| 0 <= r < |roots| && roots[r] == nodes[j];
      assert g.roots[r] == full[0];
      assert g.IsRootWalk(full);
    }
  }

  /** The queue is empty and each node has the length of the longest walk to it as its rank. */
  ghost predicate RanksAll(nodes: seq<LayoutNode>, g: Graph, last: Ranking) {
    && last.queue == [] && LongestWalks(g, last.ranks)
    && forall n :: n in nodes ==> n.id in last.ranks
  }

  /** So on an acyclic graph the loop ends, and every node has a rank. */
  lemma AcyclicRanksEveryNode(nodes: seq<LayoutNode>, edges: seq<Link>)
    requires |nodes| > 0 && GraphOf(nodes, edges).Acyclic()
    ensures
      var g := GraphOf(nodes, edges);
      exists n: nat :: RanksAll(nodes, g, Run(g.links, Init(Seeds(g.links, nodes)), n))
  {
    var g := GraphOf(nodes, edges);
    var s := Init(Seeds(g.links, nodes));
    LoopEndsIffNoReachableCycle(nodes, edges);
    AcyclicReachesEveryNode(nodes, edges);
    var n: nat :| Run(g.links, s, n).queue == [];
    var last := Run(g.links, s, n);
    InitHoldsInv(nodes, edges);
    RunKeepsInv(g, s, n);
    ExitGivesLongestWalks(g, last);
    forall v | v in nodes ensures v.id in last.ranks {
      WalkedAreRanked(g, last.ranks, v.id);
    }
    assert RanksAll(nodes, g, last);
  }

  lemma WalkedAreRanked(g: Graph, ranks: map<string, nat>, id: string)
    requires LongestWalks(g, ranks) && g.Reachable(id)
    ensures id in ranks
  {
  }

  // ---- The loops ----

  ghost predicate Indexed(
      links: seq<Link>, incoming: map<string, nat>, outgoing: map<string, seq<string>>, id: string)
  {
    && id in incoming && (incoming[id] == 0 <==> !HasIncoming(links, id))
    && id in outgoing && outgoing[id] == Targets(links, id)
  }

  lemma KeptNext(ids: seq<string>, edges: seq<Link>, i: nat)
    requires i < |edges|
    ensures Kept(ids, edges[..i + 1]) ==
      Kept(ids, edges[..i]) + if edges[i].source in ids && edges[i].target in ids then [edges[i]] else []
  {
    assert edges[..i + 1][..i] == edges[..i];
  }

  lemma IndexNext(links: seq<Link>, e: Link, id: string)
    ensures Targets(links + [e], id) == Targets(links, id) + if e.source == id then [e.target] else []
    ensures HasIncoming(links + [e], id) <==> HasIncoming(links, id) || e.target == id
  {
    assert (links + [e])[..|links|] == links;
    assert e in links + [e];
    assert forall l :: l in links ==> l in links + [e];
  }

  ghost predicate AllIndexed(ids: seq<string>, links: seq<Link>, incoming: map<string, nat>,
                             outgoing: map<string, seq<string>>) {
    forall id :: id in ids ==> Indexed(links, incoming, outgoing, id)
  }

  lemma IndexGrows(ids: seq<string>, links: seq<Link>, incoming: map<string, nat>,
                   outgoing: map<string, seq<string>>, e: Link)
    requires AllIndexed(ids, links, incoming, outgoing) && e.source in ids && e.target in ids
    ensures e.source in outgoing && e.target in incoming
    ensures AllIndexed(ids, links + [e], incoming[e.target := incoming[e.target] + 1],
                       outgoing[e.source := outgoing[e.source] + [e.target]])
  {
    assert Indexed(links, incoming, outgoing, e.source) && Indexed(links, incoming, outgoing, e.target);
    forall id | id in ids
      ensures Indexed(links + [e], incoming[e.target := incoming[e.target] + 1],
                      outgoing[e.source := outgoing[e.source] + [e.target]], id)
    {
      assert Indexed(links, incoming, outgoing, id);
      IndexNext(links, e, id);
    }
  }

  /** `incomingCount` and `outgoing` after all edges have been looked at. */
  method IndexEdges(ids: seq<string>, edges: seq<Link>)
    returns (incoming: map<string, nat>, outgoing: map<string, seq<string>>)
    ensures AllIndexed(ids, Kept(ids, edges), incoming, outgoing)
  {
    incoming := map id | id in ids :: 0;
    outgoing := map id | id in ids :: [];
    ghost var links: seq<Link> := [];
    for i := 0 to |edges|
      invariant links == Kept(ids, edges[..i])
      invariant AllIndexed(ids, links, incoming, outgoing)
    {
      var e := edges[i];
      KeptNext(ids, edges, i);
      if e.source in ids && e.target in ids {
        IndexGrows(ids, links, incoming, outgoing, e);
        outgoing := outgoing[e.source := outgoing[e.source] + [e.target]];
        incoming := incoming[e.target := incoming[e.target] + 1];
        links := links + [e];
      }
    }
    assert edges[..|edges|] == edges;
  }

  method FindSeeds(nodes: seq<LayoutNode>, ghost links: seq<Link>, incoming: map<string, nat>,
                   ghost outgoing: map<string, seq<string>>)
    returns (seeds: seq<LayoutNode>)
    requires |nodes| > 0
    requires forall i :: 0 <= i < |nodes| ==> Indexed(links, incoming, outgoing, nodes[i].id)
    ensures seeds == Seeds(links, nodes)
  {
    var roots: seq<LayoutNode> := [];
    for i := 0 to |nodes|
      invariant roots == Roots(links, nodes[..i])
    {
      assert nodes[..i + 1][..i] == nodes[..i];
      assert Indexed(links, incoming, outgoing, nodes[i].id);
      if nodes[i].kind == "startEvent" || incoming[nodes[i].id] == 0 {
        roots := roots + [nodes[i]];
      }
    }
    assert nodes[..|nodes|] == nodes;
    seeds := if |roots| > 0 then roots else [nodes[0]];
  }

  method StartRanking(seeds: seq<LayoutNode>)
    returns (queue: seq<string>, ranks: map<string, nat>, lanes: map<string, int>)
    ensures Ranking(queue, ranks, lanes) == Init(seeds)
  {
    queue, ranks, lanes := [], map[], map[];
    for i := 0 to |seeds|
      invariant queue == Ids(seeds)[..i]
      invariant ranks == map id | id in queue :: 0
      invariant lanes == InitialLanes(seeds[..i])
    {
      assert seeds[..i + 1][..i] == seeds[..i];
      queue := queue + [seeds[i].id];
      ranks := ranks[seeds[i].id := 0];
      lanes := lanes[seeds[i].id := InitialLane(seeds[i], i)];
    }
    assert seeds[..|seeds|] == seeds;
  }

  method VisitTargets(queue0: seq<string>, ranks0: map<string, nat>, lanes0: map<string, int>,
                      targets: seq<string>, sourceLane: int, nextRank: nat)
    returns (queue: seq<string>, ranks: map<string, nat>, lanes: map<string, int>)
    ensures Ranking(queue, ranks, lanes) ==
            Visit(Ranking(queue0, ranks0, lanes0), targets, sourceLane, nextRank)
  {
    queue, ranks, lanes := queue0, ranks0, lanes0;
    for k := 0 to |targets|
      invariant Ranking(queue, ranks, lanes) ==
                RelaxEdges(Ranking(queue0, ranks0, lanes0), targets, sourceLane, nextRank, k)
    {
      var target := targets[k];
      var proposedLane := sourceLane + BranchLaneOffset(k);
      if target !in lanes || Abs(proposedLane) < Abs(lanes[target]) {
        lanes := lanes[target := proposedLane];
      }
      if target !in ranks || nextRank > ranks[target] {
        ranks := ranks[target := nextRank];
        queue := queue + [target];
      }
    }
  }

  /** What the loop needs to know about a turn. */
  lemma TurnOfLoop(g: Graph, s: Ranking, t: Ranking)
    requires g.Valid() && g.NoReachableCycle() && Inv(g, s) && s.queue != [] && t == Step(g.links, s)
    ensures Inv(g, t)
    ensures s.queue[0] in s.ranks && s.queue[0] in s.lanes && s.queue[0] in g.ids
    ensures 0 <= Remaining(g.ids, t.ranks, Bound(g)) <= Remaining(g.ids, s.ranks, Bound(g))
    ensures Remaining(g.ids, t.ranks, Bound(g)) < Remaining(g.ids, s.ranks, Bound(g)) || |t.queue| < |s.queue|
  {
    assert NodeInv(g, s, s.queue[0]);
    RanksAreBounded(g, s);
    StepTurns(g.links, s);
    TurnKeepsInv(g, s, t);
    TurnMakesProgress(g, s, t);
  }

  lemma LoopStarts(nodes: seq<LayoutNode>, edges: seq<Link>)
    requires |nodes| > 0 && GraphOf(nodes, edges).NoReachableCycle()
    ensures
      var g := GraphOf(nodes, edges);
      var start := Init(Seeds(g.links, nodes));
      InLoop(g, start)
  {
    var g := GraphOf(nodes, edges);
    var start := Init(Seeds(g.links, nodes));
    InitHoldsInv(nodes, edges);
    RanksAreBounded(g, start);
    RemainingIsNonNegative(g.ids, start.ranks, Bound(g));
  }

  lemma LoopExits(g: Graph, s: Ranking)
    requires g.Valid() && g.NoReachableCycle() && Inv(g, s) && s.queue == []
    ensures LongestWalks(g, s.ranks)
    ensures forall v :: v in s.ranks ==> v in g.ids && v in s.lanes
  {
    ExitGivesLongestWalks(g, s);
    RanksAreBounded(g, s);
    forall v | v in s.ranks ensures v in s.lanes {
      assert NodeInv(g, s, v);
    }
  }

  /** One turn of the queue loop. */
  method TakeTurn(ghost g: Graph, queue0: seq<string>, ranks0: map<string, nat>, lanes0: map<string, int>,
                  outgoing: map<string, seq<string>>)
    returns (queue: seq<string>, ranks: map<string, nat>, lanes: map<string, int>)
    requires queue0 != [] && queue0[0] in ranks0 && queue0[0] in lanes0
    requires queue0[0] in outgoing && outgoing[queue0[0]] == Targets(g.links, queue0[0])
    ensures Ranking(queue, ranks, lanes) == Step(g.links, Ranking(queue0, ranks0, lanes0))
  {
    var id := queue0[0];
    queue, ranks, lanes := VisitTargets(queue0[1..], ranks0, lanes0, outgoing[id], lanes0[id], ranks0[id] + 1);
  }

  ghost predicate InLoop(g: Graph, s: Ranking) {
    Inv(g, s) && Remaining(g.ids, s.ranks, Bound(g)) >= 0
  }

  /** The queue loop. `start` is the state before its first turn. */
  method DrainQueue(ghost g: Graph, ghost start: Ranking, queue0: seq<string>, ranks0: map<string, nat>,
                    lanes0: map<string, int>, outgoing: map<string, seq<string>>)
    returns (ranks: map<string, nat>, lanes: map<string, int>, ghost turns: nat)
    requires g.Valid() && g.NoReachableCycle() && start == Ranking(queue0, ranks0, lanes0) && InLoop(g, start)
    requires forall id :: id in g.ids ==> id in outgoing && outgoing[id] == Targets(g.links, id)
    ensures Inv(g, Ranking([], ranks, lanes))
    ensures Run(g.links, start, turns) == Ranking([], ranks, lanes)
  {
    turns := 0;
    var queue := queue0;
    ranks, lanes := ranks0, lanes0;
    ghost var s := start;
    while queue != []
      invariant s == Ranking(queue, ranks, lanes) && Run(g.links, start, turns) == s
      invariant InLoop(g, s)
      decreases Remaining(g.ids, ranks, Bound(g)), |queue|
    {
      TurnOfLoop(g, s, Step(g.links, s));
      s := Step(g.links, s);
      queue, ranks, lanes := TakeTurn(g, queue, ranks, lanes, outgoing);
      turns := turns + 1;
    }
  }

  /** Ranks and lanes of every node the queue reaches. */
  method RankNodes(nodes: seq<LayoutNode>, edges: seq<Link>)
    returns (ranks: map<string, nat>, lanes: map<string, int>)
    requires |nodes| > 0 && GraphOf(nodes, edges).NoReachableCycle()
    ensures LongestWalks(GraphOf(nodes, edges), ranks)
    ensures
      var links := GraphOf(nodes, edges).links;
      exists n: nat :: Run(links, Init(Seeds(links, nodes)), n) == Ranking([], ranks, lanes)
  {
    ghost var g := GraphOf(nodes, edges);
    var incoming, outgoing := IndexEdges(Ids(nodes), edges);
    assert AllIndexed(g.ids, g.links, incoming, outgoing);
    forall i | 0 <= i < |nodes| ensures Indexed(g.links, incoming, outgoing, nodes[i].id) {
      assert Ids(nodes)[i] == nodes[i].id;
    }
    var seeds := FindSeeds(nodes, g.links, incoming, outgoing);
    var queue, ranks0, lanes0 := StartRanking(seeds);
    LoopStarts(nodes, edges);
    assert forall id :: id in g.ids ==> Indexed(g.links, incoming, outgoing, id);
    ghost var turns;
    ranks, lanes, turns := DrainQueue(g, Init(seeds), queue, ranks0, lanes0, outgoing);
    LoopExits(g, Ranking([], ranks, lanes));
  }

  // ---- Coordinates ----

  function MaxRank(ids: seq<string>, ranks: map<string, nat>): (max: nat)
    ensures forall id :: id in ids && id in ranks ==> ranks[id] <= max
  {
    if ids == [] then 0
    else
      var rest := MaxRank(ids[1..], ranks);
      if ids[0] in ranks && ranks[ids[0]] > rest then ranks[ids[0]] else rest
  }

  /** Nodes the queue never reached get ranks after all the others, by their position in the list. */
  function Fill(ids: seq<string>, ranks: map<string, nat>, lanes: map<string, int>, k: nat)
    : (map<string, nat>, map<string, int>)
    requires k <= |ids|
  {
    if k == 0 then (ranks, lanes)
    else
      var (r, l) := Fill(ids, ranks, lanes, k - 1);
      if ids[k - 1] in r then (r, l)
      else (r[ids[k - 1] := MaxRank(ids, ranks) + k], l[ids[k - 1] := 0])
  }

  lemma {:induction false} FilledRank(
      ids: seq<string>, ranks: map<string, nat>, lanes: map<string, int>, k: nat, i: nat)
    requires i < k <= |ids|
    ensures
      var r := Fill(ids, ranks, lanes, k).0;
      ids[i] in r && if ids[i] in ranks then r[ids[i]] == ranks[ids[i]] else r[ids[i]] > MaxRank(ids, ranks)
  {
    if i == k - 1 {
      FillKeepsRanks(ids, ranks, lanes, k - 1, ids[i]);
    } else {
      FilledRank(ids, ranks, lanes, k - 1, i);
    }
  }

  lemma {:induction false} FillKeepsRanks(
      ids: seq<string>, ranks: map<string, nat>, lanes: map<string, int>, k: nat, v: string)
    requires k <= |ids|
    ensures
      var r := Fill(ids, ranks, lanes, k).0;
      && (v in ranks ==> v in r && r[v] == ranks[v])
      && (v in r && v !in ranks ==> r[v] > MaxRank(ids, ranks))
  {
    if k == 0 {
    } else {
      FillKeepsRanks(ids, ranks, lanes, k - 1, v);
    }
  }

  function PlaceNode(node: LayoutNode, rank: nat, lane: int): LayoutNode {
    node.(x := (START_X + rank * X_GAP) as real, y := (CENTER_Y + lane * Y_GAP) as real)
  }

  function Place(nodes: seq<LayoutNode>, ranks: map<string, nat>, lanes: map<string, int>): (placed: seq<LayoutNode>)
    ensures |placed| == |nodes|
  {
    seq(|nodes|, i requires 0 <= i < |nodes| =>
      PlaceNode(nodes[i],
                if nodes[i].id in ranks then ranks[nodes[i].id] else 0,
                if nodes[i].id in lanes then lanes[nodes[i].id] else 0))
  }

  /** The node a repeated id stands for is the last one. */
  function LastWithId(nodes: seq<LayoutNode>, id: string): (i: int)
    ensures -1 <= i < |nodes|
    ensures i >= 0 ==> nodes[i].id == id
    ensures forall j :: i < j < |nodes| ==> nodes[j].id != id
  {
    if nodes == [] then -1
    else if nodes[|nodes| - 1].id == id then |nodes| - 1
    else LastWithId(nodes[..|nodes| - 1], id)
  }

  function WidthOf(node: LayoutNode): real {
    if node.width != 0.0 then node.width else 100.0
  }

  function HeightOf(node: LayoutNode): real {
    if node.height != 0.0 then node.height else 80.0
  }

  /** A boundary event sits on the lower right corner of the node it is attached to. */
  function Snapped(nodes: seq<LayoutNode>, i: nat): (node: LayoutNode)
    requires i < |nodes|
    ensures node.id == nodes[i].id && node.kind == nodes[i].kind && node.attachedTo == nodes[i].attachedTo
  {
    if nodes[i].kind != "boundaryEvent" || nodes[i].attachedTo.None? then nodes[i]
    else
      var host := LastWithId(nodes, nodes[i].attachedTo.value);
      if host < 0 then nodes[i]
      else
        nodes[i].(x := nodes[host].x + WidthOf(nodes[host]) - 18.0, y := nodes[host].y + HeightOf(nodes[host]) - 18.0)
  }

  function Snap(nodes: seq<LayoutNode>, k: nat): (snapped: seq<LayoutNode>)
    requires k <= |nodes|
    ensures |snapped| == |nodes|
  {
    if k == 0 then nodes
    else
      var before := Snap(nodes, k - 1);
      before[k - 1 := Snapped(before, k - 1)]
  }

  /** The coordinates given to nodes with these ranks and lanes, before boundary events are moved. */
  function Arrange(nodes: seq<LayoutNode>, ranks: map<string, nat>, lanes: map<string, int>): (placed: seq<LayoutNode>)
    ensures |placed| == |nodes|
  {
    var ids := Ids(nodes);
    var (filledRanks, filledLanes) := Fill(ids, ranks, lanes, |ids|);
    Place(nodes, filledRanks, filledLanes)
  }

  ghost predicate HasPositions(nodes: seq<LayoutNode>) {
    exists i :: 0 <= i < |nodes| && (nodes[i].x != 0.0 || nodes[i].y != 0.0)
  }

  ghost predicate NeedsLayout(nodes: seq<LayoutNode>, force: bool) {
    nodes != [] && (force || !HasPositions(nodes))
  }

  lemma RankRisesOnLink(g: Graph, ranks: map<string, nat>, u: string, v: string)
    requires LongestWalks(g, ranks) && g.Reachable(u) && g.Linked(u, v)
    ensures u in ranks && v in ranks && ranks[v] >= ranks[u] + 1
  {
    var w :| g.IsRootWalk(w) && w[|w| - 1] == u;
    assert u in ranks && g.Reaches(u, ranks[u]);
    ReachesNext(g, u, ranks[u], v);
    var longest :| g.IsRootWalk(longest) && longest[|longest| - 1] == v && |longest| == ranks[u] + 2;
  }

  lemma ArrangedX(nodes: seq<LayoutNode>, ranks: map<string, nat>, lanes: map<string, int>, i: nat)
    requires i < |nodes|
    ensures
      var x := Arrange(nodes, ranks, lanes)[i].x;
      if nodes[i].id in ranks then x == (START_X + ranks[nodes[i].id] * X_GAP) as real
      else x >= (START_X + (MaxRank(Ids(nodes), ranks) + 1) * X_GAP) as real
  {
    var ids := Ids(nodes);
    assert ids[i] == nodes[i].id;
    FilledRank(ids, ranks, lanes, |ids|, i);
  }

  /** Every edge out of a node that the queue reached points right by at least one gap. */
  lemma ReachedEdgesPointRight(
      nodes: seq<LayoutNode>, edges: seq<Link>, ranks: map<string, nat>, lanes: map<string, int>, i: nat, j: nat)
    requires |nodes| > 0 && LongestWalks(GraphOf(nodes, edges), ranks)
    requires i < |nodes| && j < |nodes| && Link(nodes[i].id, nodes[j].id) in edges
    requires GraphOf(nodes, edges).Reachable(nodes[i].id)
    ensures Arrange(nodes, ranks, lanes)[j].x >= Arrange(nodes, ranks, lanes)[i].x + X_GAP as real
  {
    var u, v := nodes[i].id, nodes[j].id;
    assert u == Ids(nodes)[i] && v == Ids(nodes)[j];
    RankRisesOnLink(GraphOf(nodes, edges), ranks, u, v);
    ArrangedX(nodes, ranks, lanes, i);
    ArrangedX(nodes, ranks, lanes, j);
  }

  /** On an acyclic graph this holds of every edge between known nodes. */
  lemma AcyclicEdgesPointRight(
      nodes: seq<LayoutNode>, edges: seq<Link>, ranks: map<string, nat>, lanes: map<string, int>)
    requires |nodes| > 0 && GraphOf(nodes, edges).Acyclic()
    requires LongestWalks(GraphOf(nodes, edges), ranks)
    ensures forall i, j :: 0 <= i < |nodes| && 0 <= j < |nodes| && Link(nodes[i].id, nodes[j].id) in edges ==>
      Arrange(nodes, ranks, lanes)[j].x >= Arrange(nodes, ranks, lanes)[i].x + X_GAP as real
  {
    AcyclicReachesEveryNode(nodes, edges);
    forall i, j | 0 <= i < |nodes| && 0 <= j < |nodes| && Link(nodes[i].id, nodes[j].id) in edges
      ensures Arrange(nodes, ranks, lanes)[j].x >= Arrange(nodes, ranks, lanes)[i].x + X_GAP as real
    {
      assert nodes[i] in nodes;
      ReachedEdgesPointRight(nodes, edges, ranks, lanes, i, j);
    }
  }

  /** Nodes that no walk from the roots enters stand to the right of all the others. */
  lemma UnreachedStandRight(nodes: seq<LayoutNode>, ranks: map<string, nat>, lanes: map<string, int>, i: nat, j: nat)
    requires i < |nodes| && j < |nodes| && nodes[i].id in ranks && nodes[j].id !in ranks
    ensures Arrange(nodes, ranks, lanes)[j].x >= Arrange(nodes, ranks, lanes)[i].x + X_GAP as real
  {
    var ids := Ids(nodes);
    assert ids[i] == nodes[i].id;
    ArrangedX(nodes, ranks, lanes, i);
    ArrangedX(nodes, ranks, lanes, j);
  }

  lemma {:induction false} SnapTouchesOnlyBoundaryEvents(nodes: seq<LayoutNode>, k: nat)
    requires k <= |nodes|
    ensures forall i :: 0 <= i < |nodes| ==>
      Snap(nodes, k)[i].(x := nodes[i].x, y := nodes[i].y) == nodes[i]
      && (nodes[i].kind != "boundaryEvent" || i >= k ==> Snap(nodes, k)[i] == nodes[i])
  {
    if k == 0 {
    } else {
      SnapTouchesOnlyBoundaryEvents(nodes, k - 1);
    }
  }

  lemma {:induction false} LastWithDistinctIds(nodes: seq<LayoutNode>, h: nat)
    requires h < |nodes| && forall i, j :: 0 <= i < j < |nodes| ==> nodes[i].id != nodes[j].id
    ensures LastWithId(nodes, nodes[h].id) == h
  {
    var i := LastWithId(nodes, nodes[h].id);
    if i < h {
    } else if i > h {
    }
  }

  /** A boundary event attached to another kind of node ends up on that node's lower right corner. */
  lemma BoundaryEventsSit(nodes: seq<LayoutNode>, b: nat, h: nat, k: nat)
    requires b < k <= |nodes| && h < |nodes|
    requires forall i, j :: 0 <= i < j < |nodes| ==> nodes[i].id != nodes[j].id
    requires nodes[b].kind == "boundaryEvent" && nodes[b].attachedTo == Some(nodes[h].id)
    requires nodes[h].kind != "boundaryEvent"
    ensures Snap(nodes, k)[b].x == nodes[h].x + (if nodes[h].width != 0.0 then nodes[h].width else 100.0) - 18.0
    ensures Snap(nodes, k)[b].y == nodes[h].y + (if nodes[h].height != 0.0 then nodes[h].height else 80.0) - 18.0
  {
    if k == b + 1 {
      var before := Snap(nodes, b);
      SnapTouchesOnlyBoundaryEvents(nodes, b);
      assert forall i :: 0 <= i < |nodes| ==> before[i].id == nodes[i].id;
      LastWithDistinctIds(before, h);
    } else {
      BoundaryEventsSit(nodes, b, h, k - 1);
    }
  }

  method FillUnreached(ids: seq<string>, ranks0: map<string, nat>, lanes0: map<string, int>)
    returns (ranks: map<string, nat>, lanes: map<string, int>)
    ensures (ranks, lanes) == Fill(ids, ranks0, lanes0, |ids|)
  {
    ranks, lanes := ranks0, lanes0;
    var max := MaxRank(ids, ranks);
    for i := 0 to |ids|
      invariant (ranks, lanes) == Fill(ids, ranks0, lanes0, i)
    {
      if ids[i] !in ranks {
        ranks, lanes := ranks[ids[i] := max + i + 1], lanes[ids[i] := 0];
      }
    }
  }

  method PlaceAll(nodes: array<LayoutNode>, ranks: map<string, nat>, lanes: map<string, int>)
    modifies nodes
    ensures nodes[..] == Place(old(nodes[..]), ranks, lanes)
  {
    ghost var was := nodes[..];
    for i := 0 to nodes.Length
      invariant forall j :: 0 <= j < i ==> nodes[j] == Place(was, ranks, lanes)[j]
      invariant forall j :: i <= j < nodes.Length ==> nodes[j] == was[j]
    {
      var n := nodes[i];
      nodes[i] := PlaceNode(n, if n.id in ranks then ranks[n.id] else 0, if n.id in lanes then lanes[n.id] else 0);
    }
  }

  method SnapAll(nodes: array<LayoutNode>)
    modifies nodes
    ensures nodes[..] == Snap(old(nodes[..]), nodes.Length)
  {
    ghost var placed := nodes[..];
    for i := 0 to nodes.Length
      invariant nodes[..] == Snap(placed, i)
    {
      var moved := Snapped(nodes[..], i);
      nodes[i] := moved;
    }
  }

  method FindPositions(nodes: seq<LayoutNode>) returns (found: bool)
    ensures found <==> HasPositions(nodes)
  {
    for i := 0 to |nodes|
      invariant forall j :: 0 <= j < i ==> nodes[j].x == 0.0 && nodes[j].y == 0.0
    {
      if nodes[i].x != 0.0 || nodes[i].y != 0.0 {
        return true;
      }
    }
    found := false;
  }

  /** `placed` is what the layout makes of `was`. */
  ghost predicate LaidOut(was: seq<LayoutNode>, edges: seq<Link>, placed: seq<LayoutNode>)
    requires was != []
  {
    var links := GraphOf(was, edges).links;
    exists ranks, lanes, n: nat ::
      && Run(links, Init(Seeds(links, was)), n) == Ranking([], ranks, lanes)
      && LongestWalks(GraphOf(was, edges), ranks)
      && placed == Snap(Arrange(was, ranks, lanes), |was|)
  }

  /** The whole layout, in place. Without coordinates, or when forced, it arranges the nodes by longest walk. */
  method ApplyFallbackLayout(nodes: array<LayoutNode>, edges: seq<Link>, force: bool)
    requires NeedsLayout(nodes[..], force) ==> GraphOf(nodes[..], edges).NoReachableCycle()
    modifies nodes
    ensures !old(NeedsLayout(nodes[..], force)) ==> nodes[..] == old(nodes[..])
    ensures old(NeedsLayout(nodes[..], force)) ==> LaidOut(old(nodes[..]), edges, nodes[..])
  {
    if nodes.Length == 0 {
      return;
    }
    ghost var was := nodes[..];
    var placedByDiagram := FindPositions(nodes[..]);
    if placedByDiagram && !force {
      return;
    }
    var ranks, lanes := RankNodes(nodes[..], edges);
    var filledRanks, filledLanes := FillUnreached(Ids(nodes[..]), ranks, lanes);
    PlaceAll(nodes, filledRanks, filledLanes);
    assert nodes[..] == Arrange(was, ranks, lanes);
    SnapAll(nodes);
  }
}
