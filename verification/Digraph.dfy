/** Finite directed graphs given by lists of successors: paths, reachability, cycles. */
module Digraph {

  type Graph = map<string, seq<string>>

  /** Every successor is a node itself. */
  predicate Closed(g: Graph) {
    forall x, y :: x in g && y in g[x] ==> y in g
  }

  predicate Edge(g: Graph, x: string, y: string) {
    x in g && y in g[x]
  }

  /** A walk along edges; a single node is a path of length zero. */
  predicate IsPath(g: Graph, p: seq<string>) {
    p != [] && forall i :: 0 <= i < |p| - 1 ==> Edge(g, p[i], p[i+1])
  }

  ghost predicate PathBetween(g: Graph, p: seq<string>, x: string, y: string) {
    IsPath(g, p) && p[0] == x && p[|p|-1] == y
  }

  ghost predicate Reaches(g: Graph, x: string, y: string) {
    exists p :: PathBetween(g, p, x, y)
  }

  /** Reached along at least one edge. */
  ghost predicate Descends(g: Graph, x: string, y: string) {
    exists p :: PathBetween(g, p, x, y) && |p| > 1
  }

  ghost predicate Acyclic(g: Graph) {
    forall x :: !Descends(g, x, x)
  }

  lemma ReachesItself(g: Graph, x: string)
    ensures Reaches(g, x, x)
  {
    assert PathBetween(g, [x], x, x);
  }

  lemma EdgeDescends(g: Graph, x: string, y: string)
    requires Edge(g, x, y)
    ensures Descends(g, x, y)
  {
    assert PathBetween(g, [x, y], x, y);
  }

  lemma PathsJoin(g: Graph, p: seq<string>, q: seq<string>, x: string, y: string, z: string)
    requires PathBetween(g, p, x, y) && PathBetween(g, q, y, z)
    ensures PathBetween(g, p + q[1..], x, z)
  {
    var r := p + q[1..];
    forall i | 0 <= i < |r| - 1 ensures Edge(g, r[i], r[i+1]) {
      if i < |p| - 1 {
        assert Edge(g, p[i], p[i+1]);
      } else {
        assert Edge(g, q[i-|p|+1], q[i-|p|+2]);
      }
    }
  }

  lemma ReachesTransitive(g: Graph, x: string, y: string, z: string)
    requires Reaches(g, x, y) && Reaches(g, y, z)
    ensures Reaches(g, x, z)
    ensures Descends(g, x, y) || Descends(g, y, z) ==> Descends(g, x, z)
  {
    var p :| PathBetween(g, p, x, y) && (Descends(g, x, y) ==> |p| > 1);
    var q :| PathBetween(g, q, y, z) && (Descends(g, y, z) ==> |q| > 1);
    PathsJoin(g, p, q, x, y, z);
  }

  lemma ReachesEdge(g: Graph, x: string, y: string, z: string)
    requires Reaches(g, x, y) && Edge(g, y, z)
    ensures Reaches(g, x, z) && Descends(g, x, z)
  {
    EdgeDescends(g, y, z);
    assert Reaches(g, y, z);
    ReachesTransitive(g, x, y, z);
  }

  /** Whatever contains a node and is closed under edges contains everything reached from it. */
  lemma {:induction false} ClosedContainsReached(g: Graph, s: set<string>, p: seq<string>)
    requires IsPath(g, p) && p[0] in s
    requires forall x, y :: x in s && Edge(g, x, y) ==> y in s
    ensures p[|p|-1] in s
  {
    if |p| > 1 {
      assert Edge(g, p[0], p[1]);
      forall i | 0 <= i < |p[1..]| - 1 ensures Edge(g, p[1..][i], p[1..][i+1]) {
        assert Edge(g, p[i+1], p[i+2]);
      }
      ClosedContainsReached(g, s, p[1..]);
    }
  }

  lemma PathTail(g: Graph, p: seq<string>)
    requires IsPath(g, p) && |p| > 1
    ensures IsPath(g, p[1..]) && Edge(g, p[0], p[1])
  {
    forall i | 0 <= i < |p[1..]| - 1 ensures Edge(g, p[1..][i], p[1..][i+1]) {
      assert Edge(g, p[i+1], p[i+2]);
    }
  }
}
