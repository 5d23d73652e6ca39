/** The paths by which a depth-first search that follows lists in order first enters the nodes of a graph. */
module FirstPaths {
  import opened Digraph
  import opened Sequences

  /** What has been entered after going through `nodes`, reached by `base`, with `entered` having been entered before. */
  function Visit(g: Graph, base: seq<string>, nodes: seq<string>, entered: map<string, seq<string>>)
    : (r: map<string, seq<string>>)
    requires Closed(g) && entered.Keys <= g.Keys && forall d :: d in nodes ==> d in g
    ensures entered.Keys <= r.Keys <= g.Keys && forall x :: x in entered ==> r[x] == entered[x]
    decreases g.Keys - entered.Keys, |nodes|
  {
    if nodes == [] then entered
    else
      var d, rest := nodes[0], nodes[1..];
      if d in entered then Visit(g, base, rest, entered)
      else
        var next := entered[d := base + [d]];
        assert d in next.Keys && d !in entered.Keys;
        Visit(g, base, rest, Visit(g, base + [d], g[d], next))
  }

  /** One step of the search. */
  function VisitOne(g: Graph, base: seq<string>, d: string, entered: map<string, seq<string>>)
    : (r: map<string, seq<string>>)
    requires Closed(g) && entered.Keys <= g.Keys && d in g
    ensures entered.Keys <= r.Keys <= g.Keys && d in r && forall x :: x in entered ==> r[x] == entered[x]
  {
    if d in entered then entered else Visit(g, base + [d], g[d], entered[d := base + [d]])
  }

  lemma VisitFirst(g: Graph, base: seq<string>, nodes: seq<string>, entered: map<string, seq<string>>)
    requires Closed(g) && entered.Keys <= g.Keys && nodes != [] && forall d :: d in nodes ==> d in g
    ensures Visit(g, base, nodes, entered) == Visit(g, base, nodes[1..], VisitOne(g, base, nodes[0], entered))
  {
  }

  /** What is entered through the first nodes stays. */
  lemma {:induction false} VisitPrefix(g: Graph, base: seq<string>, nodes: seq<string>, k: nat, entered: map<string, seq<string>>)
    requires Closed(g) && entered.Keys <= g.Keys && k <= |nodes| && forall d :: d in nodes ==> d in g
    ensures var before, after := Visit(g, base, nodes[..k], entered), Visit(g, base, nodes, entered);
            forall x :: x in before ==> x in after && after[x] == before[x]
    decreases |nodes|
  {
    if k < |nodes| {
      var rest, last := nodes[..|nodes|-1], nodes[|nodes|-1];
      assert nodes == rest + [last] && nodes[..k] == rest[..k];
      VisitPrefix(g, base, rest, k, entered);
      VisitLast(g, base, rest, last, entered);
    } else {
      assert nodes[..k] == nodes;
    }
  }

  /** The last of the nodes is looked at after the others. */
  lemma {:induction false} VisitLast(g: Graph, base: seq<string>, nodes: seq<string>, d: string, entered: map<string, seq<string>>)
    requires Closed(g) && entered.Keys <= g.Keys && d in g && forall x :: x in nodes ==> x in g
    ensures Visit(g, base, nodes + [d], entered) == VisitOne(g, base, d, Visit(g, base, nodes, entered))
    decreases |nodes|
  {
    VisitFirst(g, base, nodes + [d], entered);
    if nodes == [] {
      assert (nodes + [d])[1..] == [];
    } else {
      assert (nodes + [d])[1..] == nodes[1..] + [d];
      VisitLast(g, base, nodes[1..], d, VisitOne(g, base, nodes[0], entered));
      VisitFirst(g, base, nodes, entered);
    }
  }

  /** Everything newly entered has its successors entered as well, and so have the given nodes. */
  lemma {:induction false} VisitCloses(g: Graph, base: seq<string>, nodes: seq<string>, entered: map<string, seq<string>>)
    requires Closed(g) && entered.Keys <= g.Keys && forall d :: d in nodes ==> d in g
    ensures var r := Visit(g, base, nodes, entered);
            (forall d :: d in nodes ==> d in r) && forall x, y :: x in r && x !in entered && Edge(g, x, y) ==> y in r
    decreases g.Keys - entered.Keys, |nodes|
  {
    if nodes != [] {
      var d, rest := nodes[0], nodes[1..];
      assert nodes == [d] + rest;
      if d in entered {
        VisitCloses(g, base, rest, entered);
      } else {
        var next := entered[d := base + [d]];
        assert d in next.Keys && d !in entered.Keys;
        VisitCloses(g, base + [d], g[d], next);
        VisitCloses(g, base, rest, Visit(g, base + [d], g[d], next));
      }
    }
  }

  /** A path from one of the nodes to `x` without repetitions that avoids what was entered before. */
  ghost predicate FreshPath(g: Graph, nodes: seq<string>, taken: set<string>, p: seq<string>, x: string) {
    IsPath(g, p) && p[0] in nodes && p[|p|-1] == x && Distinct(p) && forall y :: y in p ==> y !in taken
  }

  lemma FreshTail(g: Graph, nodes: seq<string>, taken: set<string>, p: seq<string>, x: string)
    requires FreshPath(g, nodes, taken, p, x) && |p| > 1
    ensures p[0] in g && FreshPath(g, g[p[0]], taken + {p[0]}, p[1..], x)
  {
    PathTail(g, p);
  }

  lemma FreshLonger(g: Graph, nodes: seq<string>, taken: set<string>, d: string, p: seq<string>, x: string)
    requires d in nodes && d in g && d !in taken && FreshPath(g, g[d], taken + {d}, p, x)
    ensures FreshPath(g, nodes, taken, [d] + p, x)
  {
    var q := [d] + p;
    forall i | 0 <= i < |q| - 1 ensures Edge(g, q[i], q[i+1]) {
      assert i > 0 ==> Edge(g, p[i-1], p[i]);
    }
    assert forall y :: y in q <==> y == d || y in p;
  }

  lemma FreshLess(
    g: Graph, nodes: seq<string>, rest: seq<string>, more: set<string>, taken: set<string>, p: seq<string>, x: string)
    requires taken <= more && (forall d :: d in rest ==> d in nodes) && FreshPath(g, rest, more, p, x)
    ensures FreshPath(g, nodes, taken, p, x)
  {
  }

  /** A fresh path to something that was not entered meets nothing that was. */
  lemma {:induction false} StaysFresh(g: Graph, taken: set<string>, more: set<string>, p: seq<string>)
    requires IsPath(g, p) && p[|p|-1] !in more && forall y :: y in p ==> y !in taken
    requires forall x, y :: x in more && x !in taken && Edge(g, x, y) ==> y in more
    ensures forall y :: y in p ==> y !in more
  {
    if |p| > 1 {
      PathTail(g, p);
      StaysFresh(g, taken, more, p[1..]);
      assert p == [p[0]] + p[1..] && p[0] in p && p[1] in p[1..];
    }
  }

  lemma {:induction false} EnteredThrough(
    g: Graph, base: seq<string>, nodes: seq<string>, entered: map<string, seq<string>>, d: string, x: string)
    returns (p: seq<string>)
    requires Closed(g) && entered.Keys <= g.Keys && d in nodes && d in g && d !in entered && x !in entered && x != d
    requires x in Visit(g, base + [d], g[d], entered[d := base + [d]])
    ensures Visit(g, base + [d], g[d], entered[d := base + [d]])[x] == base + p && FreshPath(g, nodes, entered.Keys, p, x)
    decreases g.Keys - entered.Keys, 0
  {
    var next := entered[d := base + [d]];
    assert d in next.Keys && d !in entered.Keys && next.Keys == entered.Keys + {d};
    var q := EnteredByPath(g, base + [d], g[d], next, x);
    FreshLonger(g, nodes, entered.Keys, d, q, x);
    p := [d] + q;
    assert base + [d] + q == base + p;
  }

  lemma SameEnd(base: seq<string>, p: seq<string>, q: seq<string>)
    requires base + p == base + q
    ensures p == q
  {
    assert p == (base + p)[|base|..] && q == (base + q)[|base|..];
  }

  // ---------------------------------------------------------------------------------------------
  // First in the order of the lists
  // ---------------------------------------------------------------------------------------------

  function FirstIndex(nodes: seq<string>, d: string): (i: nat)
    requires d in nodes
    ensures i < |nodes| && nodes[i] == d && d !in nodes[..i]
  {
    if nodes[0] == d then 0
    else
      var i := FirstIndex(nodes[1..], d);
      assert nodes[..i+1] == [nodes[0]] + nodes[1..][..i];
      i + 1
  }

  /** Where the paths part, `p` follows an earlier entry of the list; or it is the shorter one. */
  ghost predicate NotAfter(g: Graph, nodes: seq<string>, p: seq<string>, q: seq<string>)
    decreases |p|
  {
    && p != [] && q != [] && p[0] in nodes && q[0] in nodes
    && if p[0] == q[0] then
         |p| == 1 || (|q| > 1 && p[0] in g && NotAfter(g, g[p[0]], p[1..], q[1..]))
       else
         FirstIndex(nodes, p[0]) < FirstIndex(nodes, q[0])
  }

  lemma NotAfterOthers(g: Graph, nodes: seq<string>, p: seq<string>, q: seq<string>)
    requires nodes != [] && NotAfter(g, nodes[1..], p, q) && p[0] != nodes[0] && q[0] != nodes[0]
    ensures NotAfter(g, nodes, p, q)
  {
    assert nodes == [nodes[0]] + nodes[1..];
  }

  /** Whatever the search newly enters, it enters by a fresh path. */
  lemma {:induction false} EnteredByPath(g: Graph, base: seq<string>, nodes: seq<string>, entered: map<string, seq<string>>, x: string)
    returns (p: seq<string>)
    requires Closed(g) && entered.Keys <= g.Keys && forall d :: d in nodes ==> d in g
    requires x in Visit(g, base, nodes, entered) && x !in entered
    ensures Visit(g, base, nodes, entered)[x] == base + p && FreshPath(g, nodes, entered.Keys, p, x)
    decreases g.Keys - entered.Keys, |nodes|
  {
    var d, rest := nodes[0], nodes[1..];
    assert nodes == [d] + rest;
    if d in entered {
      p := EnteredByPath(g, base, rest, entered, x);
    } else {
      var next := entered[d := base + [d]];
      assert d in next.Keys && d !in entered.Keys;
      var inner := Visit(g, base + [d], g[d], next);
      if x == d {
        p := [d];
      } else if x in inner {
        p := EnteredThrough(g, base, nodes, entered, d, x);
      } else {
        p := EnteredByPath(g, base, rest, inner, x);
        FreshLess(g, nodes, rest, inner.Keys, entered.Keys, p, x);
      }
    }
  }

  /** Main result: the path by which a node is entered is the first one without repetitions, in the order of the lists. */
  lemma {:induction false} EnteredByFirst(
    g: Graph, base: seq<string>, nodes: seq<string>, entered: map<string, seq<string>>, p: seq<string>, q: seq<string>, x: string)
    requires Closed(g) && entered.Keys <= g.Keys && forall d :: d in nodes ==> d in g
    requires FreshPath(g, nodes, entered.Keys, q, x)
    requires x in Visit(g, base, nodes, entered) && Visit(g, base, nodes, entered)[x] == base + p
    ensures NotAfter(g, nodes, p, q)
    decreases g.Keys - entered.Keys, |nodes|
  {
    var d, rest := nodes[0], nodes[1..];
    assert nodes == [d] + rest;
    assert x !in entered by {
      assert x in q;
    }
    if d in entered {
      assert q[0] in q;
      FirstAmongRest(g, base, nodes, entered, p, q, x);
    } else {
      var next := entered[d := base + [d]];
      assert d in next.Keys && d !in entered.Keys && next.Keys == entered.Keys + {d};
      var inner := Visit(g, base + [d], g[d], next);
      if x in inner {
        FirstThrough(g, base, nodes, entered, p, q, x);
      } else {
        VisitCloses(g, base + [d], g[d], next);
        StaysFresh(g, entered.Keys, inner.Keys, q);
        assert q[0] in q;
        FirstAmongRest(g, base, nodes, inner, p, q, x);
      }
    }
  }

  lemma {:induction false} FirstAmongRest(
    g: Graph, base: seq<string>, nodes: seq<string>, entered: map<string, seq<string>>, p: seq<string>, q: seq<string>, x: string)
    requires Closed(g) && entered.Keys <= g.Keys && (forall d :: d in nodes ==> d in g) && nodes != [] && nodes[0] in entered
    requires FreshPath(g, nodes, entered.Keys, q, x) && q[0] != nodes[0]
    requires x in Visit(g, base, nodes[1..], entered) && Visit(g, base, nodes[1..], entered)[x] == base + p
    ensures NotAfter(g, nodes, p, q)
    decreases g.Keys - entered.Keys, |nodes|, 0
  {
    assert nodes == [nodes[0]] + nodes[1..];
    assert x in q && x !in entered;
    EnteredByFirst(g, base, nodes[1..], entered, p, q, x);
    var p' := EnteredByPath(g, base, nodes[1..], entered, x);
    SameEnd(base, p, p');
    assert p[0] in p;
    NotAfterOthers(g, nodes, p, q);
  }

  lemma {:induction false} FirstThrough(
    g: Graph, base: seq<string>, nodes: seq<string>, entered: map<string, seq<string>>, p: seq<string>, q: seq<string>, x: string)
    requires Closed(g) && entered.Keys <= g.Keys && (forall d :: d in nodes ==> d in g) && nodes != [] && nodes[0] !in entered
    requires FreshPath(g, nodes, entered.Keys, q, x)
    requires var d := nodes[0]; var inner := Visit(g, base + [d], g[d], entered[d := base + [d]]);
             x in inner && inner[x] == base + p
    ensures NotAfter(g, nodes, p, q)
    decreases g.Keys - entered.Keys, |nodes|, 0
  {
    var d := nodes[0];
    var next := entered[d := base + [d]];
    assert d in next.Keys && d !in entered.Keys && next.Keys == entered.Keys + {d};
    if x == d {
      SameEnd(base, p, [d]);
    } else {
      var p' := EnteredByPath(g, base + [d], g[d], next, x);
      assert base + [d] + p' == base + ([d] + p');
      SameEnd(base, p, [d] + p');
      if q[0] == d {
        FreshTail(g, nodes, entered.Keys, q, x);
        EnteredByFirst(g, base + [d], g[d], next, p', q[1..], x);
        assert p[1..] == p';
      }
    }
  }

  /** No other path without repetitions, and avoiding what is taken, comes before this one. */
  ghost predicate FirstPath(g: Graph, nodes: seq<string>, taken: set<string>, p: seq<string>, x: string) {
    FreshPath(g, nodes, taken, p, x) && forall q :: FreshPath(g, nodes, taken, q, x) ==> NotAfter(g, nodes, p, q)
  }

  lemma {:induction false} OnlyOneFirst(g: Graph, nodes: seq<string>, p: seq<string>, q: seq<string>, x: string)
    requires NotAfter(g, nodes, p, q) && NotAfter(g, nodes, q, p) && Distinct(p) && Distinct(q)
    requires p[|p|-1] == x == q[|q|-1]
    ensures p == q
    decreases |p|
  {
    assert p == [p[0]] + p[1..] && q == [q[0]] + q[1..];
    if |p| > 1 && |q| > 1 {
      OnlyOneFirst(g, g[p[0]], p[1..], q[1..], x);
    }
  }

  lemma FreshIsEntered(g: Graph, nodes: seq<string>, entered: map<string, seq<string>>, p: seq<string>, x: string)
    requires Closed(g) && entered.Keys <= g.Keys && (forall d :: d in nodes ==> d in g)
    requires FreshPath(g, nodes, entered.Keys, p, x)
    ensures x in Visit(g, [], nodes, entered)
  {
    var r := Visit(g, [], nodes, entered);
    VisitCloses(g, [], nodes, entered);
    assert p[0] in p && p[0] in r.Keys;
    if x !in r {
      StaysFresh(g, entered.Keys, r.Keys, p);
    }
  }

  /** There is exactly one first path to each node that is newly entered, and the node is entered by it. */
  lemma FirstPathEntered(g: Graph, nodes: seq<string>, entered: map<string, seq<string>>, p: seq<string>, x: string)
    requires Closed(g) && entered.Keys <= g.Keys && (forall d :: d in nodes ==> d in g)
    requires FreshPath(g, nodes, entered.Keys, p, x)
    ensures x in Visit(g, [], nodes, entered)
    ensures FirstPath(g, nodes, entered.Keys, p, x) <==> p == Visit(g, [], nodes, entered)[x]
  {
    FreshIsEntered(g, nodes, entered, p, x);
    var r := Visit(g, [], nodes, entered);
    assert x in p && x !in entered;
    var e := EnteredByPath(g, [], nodes, entered, x);
    assert [] + e == e == r[x];
    forall q | FreshPath(g, nodes, entered.Keys, q, x) ensures NotAfter(g, nodes, e, q) {
      EnteredByFirst(g, [], nodes, entered, e, q, x);
    }
    if FirstPath(g, nodes, entered.Keys, p, x) {
      OnlyOneFirst(g, nodes, p, e, x);
    }
  }
}
