/**
 Parent links: adding up positions along them comes to an end exactly when it does so within as many links as there
 are nodes, and then the bound in `Position` makes no difference.
 */
module DiagramLinks {
  import opened Options
  import opened Diagram
  import opened DiagramGenerator

  /** At most `links` parent links lead from this id to a node without one, or to no node. */
  predicate LinkEnds(nodes: seq<Node>, id: string, links: nat)
    decreases links
  {
    match Find(nodes, id)
    case None => true
    case Some(n) => n.parent == "" || (links > 0 && LinkEnds(nodes, n.parent, links - 1))
  }

  ghost predicate EndsSomewhere(nodes: seq<Node>, id: string) {
    exists links: nat :: LinkEnds(nodes, id, links)
  }

  /** No node is its own ancestor. */
  ghost predicate LinksEnd(nodes: seq<Node>) {
    forall n :: n in nodes ==> EndsSomewhere(nodes, n.id)
  }

  ghost function Ending(nodes: seq<Node>, links: nat): set<string> {
    set id | id in IdSet(nodes) && LinkEnds(nodes, id, links)
  }

  lemma {:induction false} ListSize<T>(list: seq<T>)
    ensures |set x | x in list| <= |list|
  {
    if list == [] {
    } else {
      ListSize(list[1..]);
      assert (set x | x in list) == (set x | x in list[1..]) + {list[0]};
    }
  }

  lemma StrictSubsetIsSmaller<T>(a: set<T>, b: set<T>)
    requires a <= b
    ensures |a| <= |b| && (a != b ==> |a| < |b|)
  {
    assert |b - a| == |b| - |a|;
    if a != b { assert b - a != {}; }
  }

  lemma {:induction false} IdsAreFew(nodes: seq<Node>)
    ensures |IdSet(nodes)| <= |nodes|
  {
    if nodes == [] {
    } else {
      IdsAreFew(nodes[1..]);
      assert IdSet(nodes) == IdSet(nodes[1..]) + {nodes[0].id};
    }
  }

  lemma {:induction false} EndsGrow(nodes: seq<Node>, id: string, k: nat, m: nat)
    requires k <= m && LinkEnds(nodes, id, k)
    ensures LinkEnds(nodes, id, m)
    decreases k
  {
    var found := Find(nodes, id);
    if found.Some? && found.value.parent != "" {
      EndsGrow(nodes, found.value.parent, k - 1, m - 1);
    }
  }

  /** Once one more link ends no further chain, longer ones do not either. */
  lemma {:induction false} SettledEnds(nodes: seq<Node>, j: nat, id: string, k: nat)
    requires Ending(nodes, j) == Ending(nodes, j + 1) && LinkEnds(nodes, id, k)
    ensures LinkEnds(nodes, id, j)
    decreases k
  {
    var found := Find(nodes, id);
    if k <= j {
      EndsGrow(nodes, id, k, j);
    } else if found.Some? {
      if found.value.parent != "" {
        SettledEnds(nodes, j, found.value.parent, k - 1);
      }
      assert found.value.id in IdSet(nodes);
      assert id in Ending(nodes, j + 1);
    }
  }

  lemma {:induction false} EndingGrowsOrSettles(nodes: seq<Node>, k: nat) returns (j: nat)
    ensures |Ending(nodes, k)| >= k || (j < k && Ending(nodes, j) == Ending(nodes, j + 1))
  {
    j := 0;
    if k > 0 {
      j := EndingGrowsOrSettles(nodes, k - 1);
      if !(j < k - 1 && Ending(nodes, j) == Ending(nodes, j + 1)) {
        j := k - 1;
        forall id | id in Ending(nodes, j) ensures id in Ending(nodes, k) {
          EndsGrow(nodes, id, j, k);
        }
        StrictSubsetIsSmaller(Ending(nodes, j), Ending(nodes, k));
      }
    }
  }

  /** A chain of links ends within as many links as there are nodes, or never. */
  lemma EndsWithinList(nodes: seq<Node>, id: string)
    ensures EndsSomewhere(nodes, id) <==> LinkEnds(nodes, id, |nodes|)
  {
    if k: nat :| LinkEnds(nodes, id, k) {
      var j := EndingGrowsOrSettles(nodes, |nodes| + 1);
      IdsAreFew(nodes);
      StrictSubsetIsSmaller(Ending(nodes, |nodes| + 1), IdSet(nodes));
      SettledEnds(nodes, j, id, k);
      EndsGrow(nodes, id, j, |nodes|);
    }
  }

  lemma {:induction false} PositionSettles(nodes: seq<Node>, id: string, k: nat, m: nat)
    requires LinkEnds(nodes, id, k) && k <= m
    ensures Position(nodes, id, m) == Position(nodes, id, k)
    decreases k
  {
    var found := Find(nodes, id);
    if found.Some? && found.value.parent != "" {
      PositionSettles(nodes, found.value.parent, k - 1, m - 1);
    }
  }

  /** The unbounded recursion: when links end, absolute positions satisfy its equation. */
  lemma PositionsAddUp(nodes: seq<Node>, n: Node)
    requires LinksEnd(nodes) && Find(nodes, n.id) == Some(n)
    ensures
      var up := if n.parent == "" then Point(0.0, 0.0) else AbsolutePosition(nodes, n.parent);
      AbsolutePosition(nodes, n.id) == Point(n.x + up.x, n.y + up.y)
  {
    EndsWithinList(nodes, n.id);
    if n.parent != "" {
      PositionSettles(nodes, n.parent, |nodes| - 1, |nodes|);
    }
  }

  /** Without links there is nothing to follow. */
  lemma UnlinkedEnd(nodes: seq<Node>)
    requires forall n :: n in nodes ==> n.parent == ""
    ensures LinksEnd(nodes)
  {
    forall n | n in nodes ensures EndsSomewhere(nodes, n.id) {
      assert LinkEnds(nodes, n.id, 0);
    }
  }
}
