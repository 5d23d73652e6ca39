/** The graph in which resolved dependencies are kept: edges that would close a cycle are refused. */
module DependencyGraph {
  import opened Digraph

  datatype EdgeResult = Added | Cyclic | Missing

  /** No node of the path lies in the given set. */
  predicate Avoids(p: seq<string>, s: set<string>) {
    forall i :: 0 <= i < |p| ==> p[i] !in s
  }

  ghost predicate ReachesAvoiding(g: Graph, s: set<string>, x: string, y: string) {
    exists p :: PathBetween(g, p, x, y) && Avoids(p, s)
  }

  /** A path can be cut to leave its first node for good. */
  lemma {:induction false} LeaveForGood(g: Graph, s: set<string>, x: string, y: string, p: seq<string>) returns (q: seq<string>)
    requires PathBetween(g, p, x, y) && Avoids(p, s)
    ensures PathBetween(g, q, x, y) && Avoids(q, s) && Avoids(q[1..], s + {x})
  {
    if i :| 0 < i < |p| && p[i] == x {
      var r := p[i..];
      forall j | 0 <= j < |r| - 1 ensures Edge(g, r[j], r[j+1]) {
        assert Edge(g, p[i+j], p[i+j+1]);
      }
      q := LeaveForGood(g, s, x, y, r);
    } else {
      q := p;
    }
  }

  lemma FirstStep(g: Graph, s: set<string>, x: string, y: string)
    requires ReachesAvoiding(g, s, x, y) && x != y
    ensures exists c :: Edge(g, x, c) && c !in s + {x} && ReachesAvoiding(g, s + {x}, c, y)
  {
    var p :| PathBetween(g, p, x, y) && Avoids(p, s);
    var q := LeaveForGood(g, s, x, y, p);
    PathTail(g, q);
    assert PathBetween(g, q[1..], q[1], y) && q[1..][0] == q[1];
  }

  lemma PrependEdge(g: Graph, s: set<string>, x: string, c: string, y: string)
    requires Edge(g, x, c) && x !in s && ReachesAvoiding(g, s + {x}, c, y)
    ensures ReachesAvoiding(g, s, x, y)
  {
    var p :| PathBetween(g, p, c, y) && Avoids(p, s + {x});
    var q := [x] + p;
    forall j | 0 <= j < |q| - 1 ensures Edge(g, q[j], q[j+1]) {
      assert j > 0 ==> Edge(g, p[j-1], p[j]);
    }
    forall j | 0 <= j < |q| ensures q[j] !in s {
      assert j > 0 ==> p[j-1] !in s + {x};
    }
    assert PathBetween(g, q, x, y);
  }

  /** The search unmarks a node when it leaves it, so it looks along all simple paths. */
  method FindFirstPathRecursive(g: Graph, u: string, d: string, isVisited: set<string>) returns (found: bool)
    requires Closed(g) && u in g && u !in isVisited && isVisited <= g.Keys
    ensures found <==> ReachesAvoiding(g, isVisited, u, d)
    decreases g.Keys - isVisited
  {
    var visited := isVisited + {u};
    if u == d {
      assert PathBetween(g, [u], u, d) && Avoids([u], isVisited);
      return true;
    }
    for i := 0 to |g[u]|
      invariant forall j :: 0 <= j < i ==> g[u][j] in visited || !ReachesAvoiding(g, visited, g[u][j], d)
    {
      var child := g[u][i];
      if child !in visited {
        var below := FindFirstPathRecursive(g, child, d, visited);
        if below {
          assert Edge(g, u, child);
          PrependEdge(g, isVisited, u, child, d);
          return true;
        }
      }
    }
    found := false;
    if ReachesAvoiding(g, isVisited, u, d) {
      FirstStep(g, isVisited, u, d);
    }
  }

  lemma AvoidNothing(g: Graph, x: string, y: string)
    ensures ReachesAvoiding(g, {}, x, y) <==> Reaches(g, x, y)
  {
    if Reaches(g, x, y) {
      var p :| PathBetween(g, p, x, y);
      assert Avoids(p, {});
    }
  }

  // ---------------------------------------------------------------------------------------------
  // Adding an edge
  // ---------------------------------------------------------------------------------------------

  function WithEdge(g: Graph, from: string, to: string): Graph
    requires from in g
  {
    g[from := g[from] + [to]]
  }

  lemma WithEdgeEdges(g: Graph, from: string, to: string, x: string, y: string)
    requires from in g
    ensures Edge(WithEdge(g, from, to), x, y) <==> Edge(g, x, y) || (x == from && y == to)
  {
  }

  /** A path of the extended graph is a path of the old one, or goes through the new edge. */
  lemma {:induction false} PathWithEdge(g: Graph, from: string, to: string, p: seq<string>)
    requires from in g && IsPath(WithEdge(g, from, to), p)
    ensures IsPath(g, p) || (Reaches(g, p[0], from) && Reaches(g, to, p[|p|-1]))
  {
    var g' := WithEdge(g, from, to);
    if |p| > 1 {
      PathTail(g', p);
      PathWithEdge(g, from, to, p[1..]);
      WithEdgeEdges(g, from, to, p[0], p[1]);
      var last := p[|p|-1];
      assert p[1..][|p[1..]|-1] == last;
      if IsPath(g, p[1..]) {
        if Edge(g, p[0], p[1]) {
          forall i | 0 <= i < |p| - 1 ensures Edge(g, p[i], p[i+1]) {
            assert i > 0 ==> Edge(g, p[1..][i-1], p[1..][i]);
          }
        } else {
          ReachesItself(g, from);
          assert PathBetween(g, p[1..], to, last);
        }
      } else if Edge(g, p[0], p[1]) {
        EdgeDescends(g, p[0], p[1]);
        assert Reaches(g, p[0], p[1]);
        ReachesTransitive(g, p[0], p[1], from);
      } else {
        ReachesItself(g, from);
      }
    }
  }

  lemma StaysAcyclic(g: Graph, from: string, to: string)
    requires Acyclic(g) && from in g && !Reaches(g, to, from)
    ensures Acyclic(WithEdge(g, from, to))
  {
    forall x ensures !Descends(WithEdge(g, from, to), x, x) {
      assert !Descends(g, x, x);
      forall p | PathBetween(WithEdge(g, from, to), p, x, x) ensures |p| <= 1 {
        PathWithEdge(g, from, to, p);
        if Reaches(g, x, from) && Reaches(g, to, x) {
          ReachesTransitive(g, to, x, from);
        }
        assert IsPath(g, p) ==> PathBetween(g, p, x, x);
      }
    }
  }

  lemma KeepsPaths(g: Graph, g': Graph, x: string, y: string)
    requires Reaches(g, x, y)
    requires forall a, b :: Edge(g, a, b) ==> Edge(g', a, b)
    ensures Reaches(g', x, y)
  {
    var p :| PathBetween(g, p, x, y);
    assert PathBetween(g', p, x, y);
  }

  // ---------------------------------------------------------------------------------------------
  // The graph as it is kept while resolving
  // ---------------------------------------------------------------------------------------------

  /** Closed under edges, without cycles, and every node is reached from the root. */
  ghost predicate Rooted(g: Graph, root: string) {
    root in g && Closed(g) && Acyclic(g) && forall x {:trigger Reaches(g, root, x)} :: x in g ==> Reaches(g, root, x)
  }

  lemma EdgeKeepsRooted(g: Graph, root: string, from: string, to: string)
    requires Rooted(g, root) && from in g && to in g && !Reaches(g, to, from)
    ensures Rooted(WithEdge(g, from, to), root)
  {
    var g' := WithEdge(g, from, to);
    StaysAcyclic(g, from, to);
    forall x, y | x in g' && y in g'[x] ensures y in g' {
      WithEdgeEdges(g, from, to, x, y);
    }
    forall x | x in g' ensures Reaches(g', root, x) {
      forall a, b | Edge(g, a, b) ensures Edge(g', a, b) {
        WithEdgeEdges(g, from, to, a, b);
      }
      KeepsPaths(g, g', root, x);
    }
  }

  lemma NewNodeKeepsRooted(g: Graph, root: string, from: string, id: string)
    requires Rooted(g, root) && from in g && id !in g
    ensures Rooted(WithEdge(g[id := []], from, id), root)
  {
    var h := g[id := []];
    forall x, y ensures Edge(h, x, y) <==> Edge(g, x, y) {
    }
    forall x, p | PathBetween(h, p, x, x) && |p| > 1 ensures Descends(g, x, x) {
      assert PathBetween(g, p, x, x);
    }
    forall p | PathBetween(h, p, id, from) ensures false {
      if |p| > 1 {
        PathTail(h, p);
      }
    }
    StaysAcyclic(h, from, id);
    var g' := WithEdge(h, from, id);
    forall x, y | x in g' && y in g'[x] ensures y in g' {
      WithEdgeEdges(h, from, id, x, y);
    }
    forall x, y | Edge(g, x, y) ensures Edge(g', x, y) {
      WithEdgeEdges(h, from, id, x, y);
    }
    forall x | x in g' ensures Reaches(g', root, x) {
      if x in g {
        KeepsPaths(g, g', root, x);
      } else {
        KeepsPaths(g, g', root, from);
        WithEdgeEdges(h, from, id, from, id);
        ReachesEdge(g', root, from, id);
      }
    }
  }

  class NodeGraph {
    const root: string
    var childs: Graph

    constructor (root: string)
      ensures this.root == root && childs == map[root := []] && Valid()
    {
      this.root := root;
      childs := map[root := []];
      new;
      ReachesItself(childs, root);
      forall x, p | PathBetween(childs, p, x, x) ensures |p| <= 1 {
        if |p| > 1 { PathTail(childs, p); }
      }
    }

    ghost predicate Valid()
      reads this
    {
      Rooted(childs, root)
    }

    /** Adds an edge unless it would close a cycle. */
    method AddEdge(fromID: string, toID: string) returns (r: EdgeResult)
      requires Valid()
      modifies this
      ensures Valid()
      ensures r.Missing? <==> fromID !in old(childs) || toID !in old(childs)
      ensures r.Cyclic? <==> fromID in old(childs) && toID in old(childs) && Reaches(old(childs), toID, fromID)
      ensures !r.Added? ==> childs == old(childs)
      ensures r.Added? ==>
                childs == if toID in old(childs)[fromID] then old(childs)
                          else old(childs)[fromID := old(childs)[fromID] + [toID]]
    {
      if fromID !in childs || toID !in childs {
        return Missing;
      }
      AvoidNothing(childs, toID, fromID);
      var path := FindFirstPathRecursive(childs, toID, fromID, {});
      if path {
        return Cyclic;
      }
      r := Added;
      if toID !in childs[fromID] {
        EdgeKeepsRooted(childs, root, fromID, toID);
        childs := WithEdge(childs, fromID, toID);
      }
    }

    /** Adds a node below a parent; for an existing node only the edge. */
    method InsertNodeAt(parentID: string, id: string) returns (r: EdgeResult)
      requires Valid()
      modifies this
      ensures Valid()
      ensures parentID !in old(childs) ==> r.Missing? && childs == old(childs)
      ensures parentID in old(childs) && id !in old(childs) ==>
                r.Added? && childs == old(childs)[id := []][parentID := old(childs)[parentID] + [id]]
      ensures parentID in old(childs) && id in old(childs) ==>
                if Reaches(old(childs), id, parentID) then r.Cyclic? && childs == old(childs)
                else r.Added? && childs == if id in old(childs)[parentID] then old(childs)
                                           else old(childs)[parentID := old(childs)[parentID] + [id]]
    {
      if parentID !in childs {
        return Missing;
      }
      if id in childs {
        r := AddEdge(parentID, id);
        return;
      }
      NewNodeKeepsRooted(childs, root, parentID, id);
      childs := WithEdge(childs[id := []], parentID, id);
      r := Added;
    }
  }
}
