/** Resolving and executing in a row: on which names the action runs, in terms of the configs. */
module DependencyActions {
  import opened Digraph
  import opened DependencyGraph
  import opened DependencyManager
  import opened DependencyResolver
  import opened Sequences
  import opened Wrappers

  // ---------------------------------------------------------------------------------------------
  // The graph that is executed
  // ---------------------------------------------------------------------------------------------

  /** Every node with its recorded children. The root, and nodes resolved without their dependencies, have none. */
  function ResolvedGraph(childs: Graph, children: Children): Graph {
    map x | x in childs :: if x in children then children[x] else []
  }

  /** The action runs on `x`: something other than a mere entry of the root for itself asks for it. */
  ghost predicate AskedFor(w: World, x: string)
    requires w.Valid()
  {
    if x != w.root then Reaches(w.Targets(), w.root, x)
    else exists y :: y != w.root && Reaches(w.Targets(), w.root, y) && Edge(w.Targets(), y, w.root)
  }

  ghost predicate Resolved(w: World, direct: seq<string>, childs: Graph, children: Children, loads: seq<string>)
    requires w.Valid()
  {
    Outcome(w, direct, childs, children, loads, {}) && forall x :: x in childs <==> Reaches(w.Targets(), w.root, x)
  }

  lemma NothingWasIgnored(w: World, direct: seq<string>, childs: Graph, children: Children, loads: seq<string>, ignored: set<string>)
    requires w.Valid() && NothingIgnored(w) && Outcome(w, direct, childs, children, loads, ignored)
    ensures ignored == {}
  {
    forall x ensures x !in ignored {
      assert !w.AskedWithout(x);
    }
  }

  /** An edge of the executed graph is an edge of the configs, and the other way round unless it starts at the root. */
  lemma ResolvedEdges(w: World, direct: seq<string>, childs: Graph, children: Children, loads: seq<string>, x: string, y: string)
    requires w.Valid() && Resolved(w, direct, childs, children, loads)
    ensures Edge(ResolvedGraph(childs, children), x, y) <==> x in childs && x != w.root && Edge(w.Targets(), x, y)
  {
    if x in childs && x != w.root {
      assert x in loads;
      if w.configs[x] == map[] {
        EmptyConfig(w, x);
      }
    }
  }

  lemma ResolvedClosed(w: World, direct: seq<string>, childs: Graph, children: Children, loads: seq<string>, ignored: set<string>)
    requires w.Valid() && Outcome(w, direct, childs, children, loads, ignored)
    ensures Closed(ResolvedGraph(childs, children))
    ensures forall d :: d in direct ==> d in childs
  {
    WithoutRootNames(w.Target(w.root), w.root);
    forall x | x in children ensures x in childs && children[x] == w.Target(x) {
      assert x in loads;
    }
  }

  lemma ExecutedAreAskedFor(w: World, direct: seq<string>, childs: Graph, children: Children, loads: seq<string>, x: string)
    requires w.Valid() && Resolved(w, direct, childs, children, loads)
    requires ReachedFrom(ResolvedGraph(childs, children), direct, x)
    ensures AskedFor(w, x)
  {
    var g, t := ResolvedGraph(childs, children), w.Targets();
    var asked := set a | a in childs && AskedFor(w, a);
    WithoutRootNames(w.Target(w.root), w.root);
    var d :| d in direct && Reaches(g, d, x);
    ReachesItself(t, w.root);
    ReachesEdge(t, w.root, w.root, d);
    forall a, b | a in asked && Edge(g, a, b) ensures b in asked {
      ResolvedEdges(w, direct, childs, children, loads, a, b);
      ReachesEdge(t, w.root, a, b);
    }
    var p :| PathBetween(g, p, d, x);
    ClosedContainsReached(g, asked, p);
  }

  lemma ReachedAlong(g: Graph, from: seq<string>, a: string, b: string)
    requires ReachedFrom(g, from, a) && Edge(g, a, b)
    ensures ReachedFrom(g, from, b)
  {
    var d :| d in from && Reaches(g, d, a);
    ReachesEdge(g, d, a, b);
  }

  lemma ReachedAreExecuted(w: World, direct: seq<string>, childs: Graph, children: Children, loads: seq<string>, x: string)
    requires w.Valid() && Resolved(w, direct, childs, children, loads) && x != w.root && Reaches(w.Targets(), w.root, x)
    ensures ReachedFrom(ResolvedGraph(childs, children), direct, x)
  {
    var g, t := ResolvedGraph(childs, children), w.Targets();
    var executed := set a | a in childs && (a == w.root || ReachedFrom(g, direct, a));
    WithoutRootNames(w.Target(w.root), w.root);
    forall a, b | a in executed && Edge(t, a, b) ensures b in executed {
      ReachesEdge(t, w.root, a, b);
      ResolvedEdges(w, direct, childs, children, loads, a, b);
      if a != w.root {
        ReachedAlong(g, direct, a, b);
      } else if b != w.root {
        ReachesItself(g, b);
        assert b in direct;
      }
    }
    ReachesItself(t, w.root);
    var p :| PathBetween(t, p, w.root, x);
    ClosedContainsReached(t, executed, p);
  }

  lemma ExecutedExactly(w: World, direct: seq<string>, childs: Graph, children: Children, loads: seq<string>, x: string)
    requires w.Valid() && Resolved(w, direct, childs, children, loads)
    ensures ReachedFrom(ResolvedGraph(childs, children), direct, x) <==> AskedFor(w, x)
  {
    if ReachedFrom(ResolvedGraph(childs, children), direct, x) {
      ExecutedAreAskedFor(w, direct, childs, children, loads, x);
    } else if AskedFor(w, x) {
      if x != w.root {
        ReachedAreExecuted(w, direct, childs, children, loads, x);
      } else {
        var y :| y != w.root && Reaches(w.Targets(), w.root, y) && Edge(w.Targets(), y, w.root);
        ReachedAreExecuted(w, direct, childs, children, loads, y);
        ResolvedEdges(w, direct, childs, children, loads, y, x);
        ReachedAlong(ResolvedGraph(childs, children), direct, y, x);
      }
    }
  }

  // ---------------------------------------------------------------------------------------------
  // Both in a row
  // ---------------------------------------------------------------------------------------------

  /** Each name comes after the dependencies that its config asks for, except for those that depend on it in turn. */
  ghost predicate DependenciesFirst(w: World, log: seq<string>)
    requires w.Valid()
  {
    forall i, y :: 0 <= i < |log| && log[i] != w.root && Edge(w.Targets(), log[i], y) ==>
      y in log[..i] || Reaches(w.Targets(), y, log[i])
  }

  lemma OrderInConfigs(w: World, direct: seq<string>, childs: Graph, children: Children, loads: seq<string>, order: seq<string>)
    requires w.Valid() && Resolved(w, direct, childs, children, loads)
    requires ExecutionOrder(ResolvedGraph(childs, children), direct, order)
    ensures DependenciesFirst(w, order)
  {
    var g, t := ResolvedGraph(childs, children), w.Targets();
    forall i, y | 0 <= i < |order| && order[i] != w.root && Edge(t, order[i], y) ensures y in order[..i] || Reaches(t, y, order[i]) {
      assert order[i] in order;
      ExecutedExactly(w, direct, childs, children, loads, order[i]);
      ResolvedEdges(w, direct, childs, children, loads, order[i], y);
      if Reaches(g, y, order[i]) {
        forall a, b | Edge(g, a, b) ensures Edge(t, a, b) {
          ResolvedEdges(w, direct, childs, children, loads, a, b);
        }
        KeepsPaths(g, t, y, order[i]);
      }
    }
  }

  lemma NothingAsked(w: World)
    requires w.Valid() && w.configs[w.root] == map[]
    ensures w.Target(w.root) == [] && !w.Broken() && !CannotResolve(w) && forall x :: !AskedFor(w, x)
  {
    var t := w.Targets();
    EmptyConfig(w, w.root);
    forall c | Reaches(t, w.root, c) ensures c == w.root {
      var p :| PathBetween(t, p, w.root, c);
      if |p| > 1 {
        PathTail(t, p);
      }
    }
    if CannotResolve(w) {
      BrokenInIsBroken(w, OwnExplored(w, w.root, map[w.root := false]));
    }
  }

  /** What the action has run on, without filters. */
  ghost predicate RanOnAll(w: World, log: seq<string>)
    requires w.Valid()
  {
    Distinct(log) && (forall x :: x in log <==> AskedFor(w, x)) && DependenciesFirst(w, log)
  }

  /** Main result: resolving and then executing, without filters, runs the action exactly once on every name that the configs
      ask for, each after its own dependencies; it fails if and only if something that is asked for is missing, or an action on it
      fails. */
  method ResolveAndExecute(w: World, failing: set<string>) returns (r: Result<seq<string>>, log: seq<string>)
    requires w.Valid()
    ensures CannotResolve(w) ==> r.Err?
    ensures r.Err? ==> CannotResolve(w) || failing != {}
    ensures w.options == ResolveOptions([], []) && NothingIgnored(w) ==>
              (r.Err? <==> w.Broken() || exists x :: x in failing && AskedFor(w, x))
    ensures r.Ok? && w.options == ResolveOptions([], []) ==> Distinct(log) && r.value == WithoutRoot(w.Target(w.root), w.root)
    ensures r.Ok? && w.options == ResolveOptions([], []) && NothingIgnored(w) ==> RanOnAll(w, log)
  {
    log := [];
    if w.configs[w.root] == map[] {
      NothingAsked(w);
      return Ok([]), [];
    }
    var direct, childs, children, loads := Resolve(w);
    if direct.Err? {
      return direct, [];
    }
    ghost var ignored :| Outcome(w, direct.value, childs, children, loads, ignored);
    ResolvedClosed(w, direct.value, childs, children, loads, ignored);
    ghost var order;
    r, log, order := HandleDependencies(ResolvedGraph(childs, children), failing, direct.value, w.options);
    if NothingIgnored(w) {
      NothingWasIgnored(w, direct.value, childs, children, loads, ignored);
      FailingAskedFor(w, direct.value, childs, children, loads, failing);
      if r.Ok? {
        ExecutedOnAll(w, direct.value, childs, children, loads, order);
      }
    }
  }

  /** Without filters the action is to run on everything that is asked for. */
  lemma FailingAskedFor(w: World, direct: seq<string>, childs: Graph, children: Children, loads: seq<string>, failing: set<string>)
    requires w.Valid() && Resolved(w, direct, childs, children, loads)
    requires Closed(ResolvedGraph(childs, children)) && forall d :: d in direct ==> d in ResolvedGraph(childs, children)
    ensures (exists x :: x in failing && LetThrough(ResolvedGraph(childs, children), direct, ResolveOptions([], []), x))
            <==> exists x :: x in failing && AskedFor(w, x)
  {
    var g := ResolvedGraph(childs, children);
    forall x ensures LetThrough(g, direct, ResolveOptions([], []), x) <==> AskedFor(w, x) {
      EnteredIsReached(g, direct, x);
      ExecutedExactly(w, direct, childs, children, loads, x);
    }
  }

  lemma ExecutedOnAll(w: World, direct: seq<string>, childs: Graph, children: Children, loads: seq<string>, order: seq<string>)
    requires w.Valid() && Resolved(w, direct, childs, children, loads)
    requires ExecutionOrder(ResolvedGraph(childs, children), direct, order)
    ensures RanOnAll(w, order)
  {
    OrderInConfigs(w, direct, childs, children, loads, order);
    forall x ensures x in order <==> AskedFor(w, x) {
      ExecutedExactly(w, direct, childs, children, loads, x);
    }
  }

  /** Main result: if the configs have no cycle, everything comes after all that it depends on, directly or not. */
  lemma {:induction false} DescendantsRanBefore(w: World, log: seq<string>, i: nat, p: seq<string>)
    requires w.Valid() && RanOnAll(w, log) && forall x :: Reaches(w.Targets(), w.root, x) ==> !Descends(w.Targets(), x, x)
    requires i < |log| && IsPath(w.Targets(), p) && p[0] == log[i] && |p| > 1
    ensures p[|p|-1] in log[..i]
  {
    var t := w.Targets();
    PathTail(t, p);
    assert log[i] in log;
    NotTheRoot(w, log[i]);
    assert p[1] in log[..i] by {
      if Reaches(t, p[1], log[i]) {
        EdgeDescends(t, log[i], p[1]);
        assert Reaches(t, log[i], p[1]);
        ReachesTransitive(t, log[i], p[1], log[i]);
      }
    }
    if |p| > 2 {
      var j :| 0 <= j < i && log[j] == p[1];
      DescendantsRanBefore(w, log, j, p[1..]);
    }
  }

  lemma NotTheRoot(w: World, x: string)
    requires w.Valid() && AskedFor(w, x) && !Descends(w.Targets(), w.root, w.root)
    ensures x != w.root && Reaches(w.Targets(), w.root, x)
  {
    if x == w.root {
      var y :| y != w.root && Reaches(w.Targets(), w.root, y) && Edge(w.Targets(), y, w.root);
      ReachesEdge(w.Targets(), w.root, y, w.root);
    }
  }
}
