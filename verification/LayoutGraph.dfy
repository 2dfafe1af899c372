/**
 Walks in the graph that the fallback layout ranks. A walk is a non-empty sequence of node ids
 in which every two neighbours are joined by an edge; its length is its number of edges.
 */
module LayoutGraph {
  datatype Link = Link(source: string, target: string)

  /** The nodes the layout starts from, every known id, and the edges whose two ends are known. */
  datatype Graph = Graph(ids: seq<string>, roots: seq<string>, links: seq<Link>) {
    ghost predicate Valid() {
      && (forall r :: r in roots ==> r in ids)
      && (forall e :: e in links ==> e.source in ids && e.target in ids)
    }

    ghost predicate Linked(u: string, v: string) {
      Link(u, v) in links
    }

    ghost predicate IsWalk(w: seq<string>) {
      |w| > 0 && forall i :: 0 < i < |w| ==> Linked(w[i - 1], w[i])
    }

    ghost predicate IsRootWalk(w: seq<string>) {
      IsWalk(w) && w[0] in roots
    }

    ghost predicate Reaches(v: string, length: nat) {
      exists w :: IsRootWalk(w) && w[|w| - 1] == v && |w| == length + 1
    }

    ghost predicate Reachable(v: string) {
      exists w :: IsRootWalk(w) && w[|w| - 1] == v
    }

    /** A closed walk with at least one edge. */
    ghost predicate IsCycle(w: seq<string>) {
      IsWalk(w) && |w| > 1 && w[0] == w[|w| - 1]
    }

    /** The part of `w` from position `i` to position `j` is a cycle. */
    ghost predicate ClosesAt(w: seq<string>, i: int, j: int) {
      0 <= i < j < |w| && IsCycle(w[i..j + 1])
    }

    ghost predicate Acyclic() {
      forall w :: !IsCycle(w)
    }

    /** No cycle can be entered from the roots; cycles elsewhere do no harm. */
    ghost predicate NoReachableCycle() {
      forall w :: IsCycle(w) ==> !Reachable(w[0])
    }
  }

  ghost predicate Distinct(w: seq<string>) {
    forall i, j :: 0 <= i < j < |w| ==> w[i] != w[j]
  }

  ghost function Elements(w: seq<string>): set<string> {
    set x | x in w
  }

  lemma {:induction false} DistinctSize(w: seq<string>)
    requires Distinct(w)
    ensures |Elements(w)| == |w|
  {
    if |w| == 0 {
    } else {
      var rest := w[..|w| - 1];
      DistinctSize(rest);
      assert Elements(w) == Elements(rest) + {w[|w| - 1]};
    }
  }

  lemma SubsetSize(a: set<string>, b: set<string>)
    requires a <= b
    ensures |a| <= |b|
  {
    assert |b - a| == |b| - |a|;
  }

  /** A stretch of a walk is a walk. */
  lemma WalkSlice(g: Graph, w: seq<string>, i: nat, j: nat)
    requires g.IsWalk(w) && i < j <= |w|
    ensures g.IsWalk(w[i..j])
  {
    var s := w[i..j];
    forall k | 0 < k < |s| ensures g.Linked(s[k - 1], s[k]) {
      assert g.Linked(w[i + k - 1], w[i + k]);
    }
  }

  lemma WalkExtend(g: Graph, w: seq<string>, v: string)
    requires g.IsWalk(w) && g.Linked(w[|w| - 1], v)
    ensures g.IsWalk(w + [v])
  {
    var s := w + [v];
    forall k | 0 < k < |s| ensures g.Linked(s[k - 1], s[k]) {
      if k < |w| { assert g.Linked(w[k - 1], w[k]); }
    }
  }

  lemma {:induction false} WalkStaysInside(g: Graph, w: seq<string>)
    requires g.Valid() && g.IsWalk(w) && w[0] in g.ids
    ensures forall i :: 0 <= i < |w| ==> w[i] in g.ids
  {
    forall i | 0 <= i < |w| ensures w[i] in g.ids {
      if i > 0 { assert g.Linked(w[i - 1], w[i]); }
    }
  }

  /** Without a cycle on it, a walk visits each id at most once and so is no longer than their number. */
  lemma WalkWithoutCycleIsShort(g: Graph, w: seq<string>)
    requires g.Valid() && g.IsWalk(w) && w[0] in g.ids
    requires forall i, j :: !g.ClosesAt(w, i, j)
    ensures Distinct(w) && |w| <= |Elements(g.ids)|
  {
    forall i, j | 0 <= i < j < |w| ensures w[i] != w[j] {
      WalkSlice(g, w, i, j + 1);
      assert !g.ClosesAt(w, i, j);
    }
    WalkStaysInside(g, w);
    DistinctSize(w);
    SubsetSize(Elements(w), Elements(g.ids));
  }

  lemma RootWalkIsShort(g: Graph, w: seq<string>)
    requires g.Valid() && g.NoReachableCycle() && g.IsRootWalk(w)
    ensures |w| <= |Elements(g.ids)|
  {
    forall i, j | 0 <= i < j < |w| ensures !g.ClosesAt(w, i, j) {
      WalkSlice(g, w, 0, i + 1);
      var prefix := w[0..i + 1];
      assert g.IsRootWalk(prefix) && prefix[|prefix| - 1] == w[i];
      assert g.Reachable(w[i]);
      assert w[i..j + 1][0] == w[i];
    }
    WalkWithoutCycleIsShort(g, w);
  }

  /** Every walk of an acyclic graph can be continued backwards until it starts at a node without predecessors. */
  lemma {:induction false} WalkFromSource(g: Graph, w: seq<string>) returns (full: seq<string>)
    requires g.Valid() && g.Acyclic() && g.IsWalk(w) && w[0] in g.ids
    ensures g.IsWalk(full) && full[|full| - 1] == w[|w| - 1]
    ensures full[0] in g.ids && forall u :: !g.Linked(u, full[0])
    decreases |Elements(g.ids)| - |w|
  {
    if u :| g.Linked(u, w[0]) {
      var longer := [u] + w;
      forall k | 0 < k < |longer| ensures g.Linked(longer[k - 1], longer[k]) {
        if k > 1 { assert g.Linked(w[k - 2], w[k - 1]); }
      }
      assert g.IsWalk(longer);
      WalkWithoutCycleIsShort(g, longer);
      full := WalkFromSource(g, longer);
    } else {
      full := w;
    }
  }
}
