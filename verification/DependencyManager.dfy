/** Running an action on every dependency, after the dependencies it has itself. */
module DependencyManager {
  import opened Digraph
  import opened FirstPaths
  import opened Paths
  import opened Sequences
  import opened Wrappers

  datatype ResolveOptions = ResolveOptions(skipDependencies: seq<string>, dependencies: seq<string>)

  predicate FoundDependency(name: string, dependencies: seq<string>) {
    |dependencies| == 0 || name in dependencies
  }

  predicate SkipDependency(name: string, skipDependencies: seq<string>) {
    name in skipDependencies
  }

  /** Each entry comes after its children, except for those from which it can be reached again. */
  ghost predicate ChildrenFirst(g: Graph, order: seq<string>) {
    forall i, y :: 0 <= i < |order| && Edge(g, order[i], y) ==> y in order[..i] || Reaches(g, y, order[i])
  }

  /** Reached from one of the given nodes. */
  ghost predicate ReachedFrom(g: Graph, from: seq<string>, x: string) {
    exists d :: d in from && Reaches(g, d, x)
  }

  /** Each of the active nodes reaches each of the given ones. */
  ghost predicate AllReach(g: Graph, active: set<string>, to: seq<string>) {
    forall a, d :: a in active && d in to ==> Reaches(g, a, d)
  }

  lemma AllReachChildren(g: Graph, active: set<string>, to: seq<string>, d: string)
    requires AllReach(g, active, to) && d in to && d in g
    ensures AllReach(g, active + {d}, g[d]) && forall a :: a in active + {d} ==> Reaches(g, a, d)
  {
    ReachesItself(g, d);
    forall a, y | a in active + {d} && y in g[d] ensures Reaches(g, a, y) {
      ReachesEdge(g, a, d, y);
    }
  }

  lemma ReachedThrough(g: Graph, from: seq<string>, d: string, x: string)
    requires d in from && d in g && ReachedFrom(g, g[d], x)
    ensures ReachedFrom(g, from, x)
  {
    var y :| y in g[d] && Reaches(g, y, x);
    EdgeDescends(g, d, y);
    ReachesTransitive(g, d, y, x);
  }

  /** The name by which the options refer to a dependency that is reached by this path: its parts, joined by dots. */
  function Dotted(path: seq<string>): string {
    if path == [] then "" else Qualified(Dotted(path[..|path|-1]), path[|path|-1])
  }

  function Qualified(base: string, name: string): string {
    if base != "" then base + "." + name else name
  }

  lemma DottedStep(path: seq<string>, name: string)
    ensures Dotted(path + [name]) == Qualified(Dotted(path), name)
  {
    assert (path + [name])[..|path|] == path;
  }

  lemma {:induction false} DottedIsJoined(path: seq<string>)
    requires path != [] && path[0] != ""
    ensures Dotted(path) == Join(path, '.') && Dotted(path) != ""
  {
    var before, last := path[..|path|-1], path[|path|-1];
    if before != [] {
      DottedIsJoined(before);
      JoinLast(before, last, '.');
      assert path == before + [last];
    }
  }

  /** The filters let the action run on a dependency that was entered by this path. */
  predicate Passes(options: ResolveOptions, path: seq<string>) {
    FoundDependency(Dotted(path), options.dependencies) && !SkipDependency(Dotted(path), options.skipDependencies)
  }

  /** Those of the dependencies that an execution returns, in order: entered before their turn, or let through here. */
  function Returned(
    g: Graph, base: seq<string>, nodes: seq<string>, entered: map<string, seq<string>>, options: ResolveOptions): seq<string>
    requires Closed(g) && entered.Keys <= g.Keys && forall d :: d in nodes ==> d in g
  {
    if nodes == [] then []
    else
      var before, d := nodes[..|nodes|-1], nodes[|nodes|-1];
      Returned(g, base, before, entered, options)
      + if d in Visit(g, base, before, entered) || Passes(options, base + [d]) then [d] else []
  }

  lemma ReturnedStep(
    g: Graph, base: seq<string>, nodes: seq<string>, i: nat, entered: map<string, seq<string>>, options: ResolveOptions)
    requires Closed(g) && entered.Keys <= g.Keys && i < |nodes| && forall d :: d in nodes ==> d in g
    ensures var now := Visit(g, base, nodes[..i], entered);
            && Visit(g, base, nodes[..i+1], entered) == VisitOne(g, base, nodes[i], now)
            && Returned(g, base, nodes[..i+1], entered, options) == Returned(g, base, nodes[..i], entered, options)
                 + if nodes[i] in now || Passes(options, base + [nodes[i]]) then [nodes[i]] else []
  {
    assert nodes[..i+1] == nodes[..i] + [nodes[i]];
    VisitLast(g, base, nodes[..i], nodes[i], entered);
  }

  lemma {:induction false} AllReturned(g: Graph, base: seq<string>, nodes: seq<string>, entered: map<string, seq<string>>)
    requires Closed(g) && entered.Keys <= g.Keys && forall d :: d in nodes ==> d in g
    ensures Returned(g, base, nodes, entered, ResolveOptions([], [])) == nodes
  {
    if nodes != [] {
      AllReturned(g, base, nodes[..|nodes|-1], entered);
      assert nodes == nodes[..|nodes|-1] + [nodes[|nodes|-1]];
    }
  }

  /** Those of the dependencies on which the action runs, in order. */
  function ActedOn(s: seq<string>, entered: map<string, seq<string>>, options: ResolveOptions): seq<string> {
    if s == [] then []
    else
      var last := s[|s|-1];
      ActedOn(s[..|s|-1], entered, options) + if last in entered && Passes(options, entered[last]) then [last] else []
  }

  lemma {:induction false} ActedOnSame(
    s: seq<string>, entered: map<string, seq<string>>, entered': map<string, seq<string>>, options: ResolveOptions)
    requires forall x :: x in s ==> x in entered && x in entered' && entered[x] == entered'[x]
    ensures ActedOn(s, entered, options) == ActedOn(s, entered', options)
  {
    if s != [] {
      assert s == s[..|s|-1] + [s[|s|-1]] && s[|s|-1] in s;
      ActedOnSame(s[..|s|-1], entered, entered', options);
    }
  }

  lemma {:induction false} ActedOnExactly(s: seq<string>, entered: map<string, seq<string>>, options: ResolveOptions, x: string)
    ensures x in ActedOn(s, entered, options) <==> x in s && x in entered && Passes(options, entered[x])
  {
    if s != [] {
      assert s == s[..|s|-1] + [s[|s|-1]];
      ActedOnExactly(s[..|s|-1], entered, options, x);
    }
  }

  ghost function Elements(s: seq<string>): set<string> {
    set x | x in s
  }

  /** `entered` are the dependencies entered, each with the path it was entered by, `active` those whose own dependencies
      are being executed, `finished` those that are through, acted on or not, and `log` those the action ran on. */
  ghost predicate Consistent(
    g: Graph, entered: map<string, seq<string>>, active: set<string>, finished: seq<string>, options: ResolveOptions,
    log: seq<string>)
  {
    && Closed(g) && entered.Keys <= g.Keys
    && entered.Keys == Elements(finished) + active && active !! Elements(finished)
    && Distinct(finished) && ChildrenFirst(g, finished)
    && (forall x, y :: x in finished && Edge(g, x, y) ==> y in entered)
    && log == ActedOn(finished, entered, options)
  }

  lemma Enter(
    g: Graph, entered: map<string, seq<string>>, active: set<string>, finished: seq<string>, options: ResolveOptions,
    log: seq<string>, d: string, path: seq<string>)
    requires Consistent(g, entered, active, finished, options, log) && d in g && d !in entered
    ensures Consistent(g, entered[d := path], active + {d}, finished, options, log)
  {
    assert d !in Elements(finished);
    forall x | x in finished ensures x in entered && x != d {
      assert x in Elements(finished);
    }
    ActedOnSame(finished, entered, entered[d := path], options);
  }

  lemma LeaveOrder(g: Graph, entered: set<string>, active: set<string>, finished: seq<string>, d: string)
    requires ChildrenFirst(g, finished) && entered == Elements(finished) + active + {d}
    requires d in g && (forall y :: y in g[d] ==> y in entered) && forall a :: a in active + {d} ==> Reaches(g, a, d)
    ensures ChildrenFirst(g, finished + [d])
  {
    var after := finished + [d];
    forall i, y | 0 <= i < |after| && Edge(g, after[i], y) ensures y in after[..i] || Reaches(g, y, after[i]) {
      if i < |finished| {
        assert after[i] == finished[i] && after[..i] == finished[..i];
      } else {
        assert after[..i] == finished && after[i] == d;
        assert y in entered;
      }
    }
  }

  lemma Leave(
    g: Graph, entered: map<string, seq<string>>, active: set<string>, finished: seq<string>, options: ResolveOptions,
    log: seq<string>, d: string)
    requires Consistent(g, entered, active + {d}, finished, options, log) && d in g && d !in active
    requires forall y :: y in g[d] ==> y in entered
    requires forall a :: a in active + {d} ==> Reaches(g, a, d)
    ensures d in entered
    ensures Consistent(g, entered, active, finished + [d], options, log + if Passes(options, entered[d]) then [d] else [])
  {
    var after := finished + [d];
    assert d in active + {d} && d in entered.Keys;
    assert d !in Elements(finished) && Elements(after) == Elements(finished) + {d};
    LeaveOrder(g, entered.Keys, active, finished, d);
    assert after[..|after|-1] == finished;
  }

  /** The action is to run on something on which it fails. */
  ghost predicate FailsOn(failing: set<string>, entered: map<string, seq<string>>, options: ResolveOptions) {
    exists x :: x in failing && x in entered && Passes(options, entered[x])
  }

  lemma FailsLater(failing: set<string>, a: map<string, seq<string>>, b: map<string, seq<string>>, options: ResolveOptions)
    requires FailsOn(failing, a, options) && forall x :: x in a ==> x in b && b[x] == a[x]
    ensures FailsOn(failing, b, options)
  {
  }

  /** Runs of the action: `log` lists the dependencies it ran on, `failing` those on which it fails. */
  class Manager {
    const graph: Graph
    const failing: set<string>
    var executedIDs: set<string>
    var log: seq<string>
    ghost var entered: map<string, seq<string>> // by which path each dependency was entered
    ghost var finished: seq<string> // all dependencies that are through, acted on or not

    constructor (graph: Graph, failing: set<string>)
      requires Closed(graph)
      ensures this.graph == graph && this.failing == failing
      ensures executedIDs == {} && log == [] && finished == [] && entered == map[]
      ensures forall options :: Valid({}, options)
    {
      this.graph := graph;
      this.failing := failing;
      executedIDs, log, finished, entered := {}, [], [], map[];
    }

    /** `active` are the dependencies whose own dependencies are being executed. */
    ghost predicate Valid(active: set<string>, options: ResolveOptions)
      reads this
    {
      && executedIDs == entered.Keys && Consistent(graph, entered, active, finished, options, log)
      && forall d :: d in log ==> d !in failing
    }

    method ExecuteDependenciesRecursive(
      base: string, dependencies: seq<string>, options: ResolveOptions, ghost path: seq<string>, ghost active: set<string>)
      returns (r: Result<seq<string>>)
      requires Valid(active, options) && AllReach(graph, active, dependencies) && base == Dotted(path)
      requires forall d :: d in dependencies ==> d in graph
      modifies this
      ensures r.Ok? ==> Valid(active, options) && entered == Visit(graph, path, dependencies, old(entered))
      ensures r.Ok? ==> r.value == Returned(graph, path, dependencies, old(entered), options)
      ensures r.Err? ==> FailsOn(failing, Visit(graph, path, dependencies, old(entered)), options)
      decreases graph.Keys - executedIDs, 1
    {
      var i := 0;
      var executedDependencies: seq<string> := [];
      while i >= 0 && i < |dependencies|
        invariant 0 <= i <= |dependencies|
        invariant Valid(active, options) && entered == Visit(graph, path, dependencies[..i], old(entered))
        invariant executedDependencies == Returned(graph, path, dependencies[..i], old(entered), options)
        decreases |dependencies| - i
      {
        var dependency := dependencies[i];
        ReturnedStep(graph, path, dependencies, i, old(entered), options);
        i := i + 1;

        // each dependency is executed only once
        if dependency in executedIDs {
          executedDependencies := executedDependencies + [dependency];
          continue;
        }
        var one := ExecuteDependency(base, dependency, options, path, active);
        if one.Err? {
          VisitPrefix(graph, path, dependencies, i, old(entered));
          FailsLater(failing, Visit(graph, path, dependencies[..i], old(entered)),
                     Visit(graph, path, dependencies, old(entered)), options);
          return Err(one.error);
        } else if one.value {
          executedDependencies := executedDependencies + [dependency];
        }
      }
      assert dependencies[..|dependencies|] == dependencies;
      return Ok(executedDependencies);
    }

    /** The loop's body for a dependency that was not executed yet; the result tells whether the action ran on it. */
    method ExecuteDependency(
      base: string, dependency: string, options: ResolveOptions, ghost path: seq<string>, ghost active: set<string>)
      returns (r: Result<bool>)
      requires Valid(active, options) && AllReach(graph, active, [dependency]) && base == Dotted(path)
      requires dependency in graph && dependency !in executedIDs
      modifies this
      ensures r.Ok? ==> Valid(active, options) && entered == VisitOne(graph, path, dependency, old(entered))
      ensures r.Ok? ==> (r.value <==> Passes(options, path + [dependency]))
      ensures r.Err? ==> FailsOn(failing, VisitOne(graph, path, dependency, old(entered)), options)
      decreases graph.Keys - executedIDs, 0
    {
      // entered before its own dependencies, so that it is not entered again through them
      Enter(graph, entered, active, finished, options, log, dependency, path + [dependency]);
      executedIDs := executedIDs + {dependency};
      entered := entered[dependency := path + [dependency]];
      var dependencyName := if base != "" then base + "." + dependency else dependency;
      DottedStep(path, dependency);

      r := ExecuteOwnDependencies(dependencyName, dependency, options, path + [dependency], active);
      if r.Ok? {
        r := RunAction(dependency, dependencyName, options, active);
      }
    }

    /** The dependencies of the dependency come first. */
    method ExecuteOwnDependencies(
      dependencyName: string, dependency: string, options: ResolveOptions, ghost path: seq<string>, ghost active: set<string>)
      returns (r: Result<bool>)
      requires dependency in graph && Valid(active + {dependency}, options)
      requires AllReach(graph, active, [dependency]) && dependencyName == Dotted(path)
      modifies this
      ensures r.Ok? ==>
                && Valid(active + {dependency}, options)
                && entered == Visit(graph, path, graph[dependency], old(entered))
                && forall y :: y in graph[dependency] ==> y in executedIDs
      ensures r.Err? ==> FailsOn(failing, Visit(graph, path, graph[dependency], old(entered)), options)
      decreases graph.Keys - executedIDs, 2
    {
      AllReachChildren(graph, active, [dependency], dependency);
      VisitCloses(graph, path, graph[dependency], entered);
      if |graph[dependency]| > 0 {
        var nested := ExecuteDependenciesRecursive(
          dependencyName, graph[dependency], options, path, active + {dependency});
        if nested.Err? {
          return Err(nested.error);
        }
      }
      return Ok(true);
    }

    /** Act on a dependency whose own dependencies are through, unless it is filtered out. */
    method RunAction(dependency: string, dependencyName: string, options: ResolveOptions, ghost active: set<string>)
      returns (r: Result<bool>)
      requires Valid(active + {dependency}, options) && dependency in graph && dependency !in active
      requires dependency in entered && dependencyName == Dotted(entered[dependency])
      requires forall y :: y in graph[dependency] ==> y in executedIDs
      requires AllReach(graph, active, [dependency])
      modifies this`log, this`finished
      ensures r.Ok? ==> Valid(active, options) && (r.value <==> Passes(options, entered[dependency]))
      ensures r.Err? ==> dependency in failing && Passes(options, entered[dependency])
    {
      AllReachChildren(graph, active, [dependency], dependency);
      Leave(graph, entered, active, finished, options, log, dependency);
      finished := finished + [dependency];

      if !FoundDependency(dependencyName, options.dependencies) {
        return Ok(false);
      } else if SkipDependency(dependencyName, options.skipDependencies) {
        return Ok(false);
      }
      if dependency in failing {
        return Err("action");
      }
      log := log + [dependency];
      return Ok(true);
    }
  }

  // ---------------------------------------------------------------------------------------------
  // Whole executions
  // ---------------------------------------------------------------------------------------------

  /** `order` lists exactly what the given dependencies reach, each once, and children first. */
  ghost predicate ExecutionOrder(g: Graph, dependencies: seq<string>, order: seq<string>) {
    && Distinct(order) && ChildrenFirst(g, order)
    && (forall x :: x in order <==> ReachedFrom(g, dependencies, x))
  }

  lemma NoFilters(path: seq<string>)
    ensures Passes(ResolveOptions([], []), path)
  {
  }

  lemma {:induction false} AllActedOn(s: seq<string>, entered: map<string, seq<string>>)
    requires forall x :: x in s ==> x in entered
    ensures ActedOn(s, entered, ResolveOptions([], [])) == s
  {
    if s != [] {
      assert s == s[..|s|-1] + [s[|s|-1]] && s[|s|-1] in s;
      AllActedOn(s[..|s|-1], entered);
      NoFilters(entered[s[|s|-1]]);
    }
  }

  /** The action ran on `x` if and only if the filters let through the name of the path by which it was entered. */
  ghost predicate RanExactly(
    g: Graph, dependencies: seq<string>, options: ResolveOptions, order: seq<string>, log: seq<string>, x: string)
    requires Closed(g) && forall d :: d in dependencies ==> d in g
  {
    x in log <==> x in order && LetThrough(g, dependencies, options, x)
  }

  /** Its name in the options, which is that of the path by which it is entered, is asked for and not to be skipped. */
  ghost predicate LetThrough(g: Graph, dependencies: seq<string>, options: ResolveOptions, x: string)
    requires Closed(g) && forall d :: d in dependencies ==> d in g
  {
    var entered := Visit(g, [], dependencies, map[]);
    && x in entered
    && (options.dependencies == [] || Dotted(entered[x]) in options.dependencies)
    && Dotted(entered[x]) !in options.skipDependencies
  }

  lemma FailingLetThrough(g: Graph, dependencies: seq<string>, options: ResolveOptions, failing: set<string>)
    requires Closed(g) && forall d :: d in dependencies ==> d in g
    ensures FailsOn(failing, Visit(g, [], dependencies, map[]), options)
            <==> exists x :: x in failing && LetThrough(g, dependencies, options, x)
  {
    var entered := Visit(g, [], dependencies, map[]);
    forall x ensures LetThrough(g, dependencies, options, x) <==> x in entered && Passes(options, entered[x]) {
    }
  }

  lemma NothingFailed(
    failing: set<string>, entered: map<string, seq<string>>, order: seq<string>, options: ResolveOptions, log: seq<string>)
    requires log == ActedOn(order, entered, options) && Elements(order) == entered.Keys && forall d :: d in log ==> d !in failing
    ensures !FailsOn(failing, entered, options)
  {
    forall x | x in failing && x in entered ensures !Passes(options, entered[x]) {
      assert x in Elements(order);
      ActedOnExactly(order, entered, options, x);
    }
  }

  /** A dependency is returned if and only if it was entered before one of its turns or the filters let it through. */
  ghost predicate ReturnedIf(g: Graph, dependencies: seq<string>, options: ResolveOptions, returned: seq<string>, d: string)
    requires Closed(g) && forall d :: d in dependencies ==> d in g
  {
    d in returned <==> exists i :: KeptAtTurn(g, dependencies, options, i, d)
  }

  /** It is its turn, and it was entered before or the filters let it through. */
  ghost predicate KeptAtTurn(g: Graph, dependencies: seq<string>, options: ResolveOptions, i: int, d: string)
    requires Closed(g) && forall d :: d in dependencies ==> d in g
  {
    && 0 <= i < |dependencies| && dependencies[i] == d
    && (d in Visit(g, [], dependencies[..i], map[])
        || ((options.dependencies == [] || d in options.dependencies) && d !in options.skipDependencies))
  }

  /** Main result: on any finite graph, cyclic or not, execution terminates. If no action fails, everything reachable is
      dealt with once, children first; the action runs exactly on those dependencies that the filters let through by the
      path by which they are entered first. Without filters these are all, and the dependencies passed in are returned. */
  method HandleDependencies(graph: Graph, failing: set<string>, dependencies: seq<string>, options: ResolveOptions)
    returns (r: Result<seq<string>>, log: seq<string>, ghost order: seq<string>)
    requires Closed(graph) && forall d :: d in dependencies ==> d in graph
    ensures r.Ok? ==>
              && ExecutionOrder(graph, dependencies, order)
              && log == ActedOn(order, Visit(graph, [], dependencies, map[]), options)
    ensures r.Ok? ==> forall x :: RanExactly(graph, dependencies, options, order, log, x)
    ensures r.Ok? ==> r.value == Returned(graph, [], dependencies, map[], options)
    ensures r.Ok? ==> forall d :: ReturnedIf(graph, dependencies, options, r.value, d)
    ensures r.Ok? && options == ResolveOptions([], []) ==> r.value == dependencies && log == order
    ensures r.Ok? ==> forall d :: d in log ==> d !in failing
    ensures r.Err? <==> exists x :: x in failing && LetThrough(graph, dependencies, options, x)
  {
    var m := new Manager(graph, failing);
    r := m.ExecuteDependenciesRecursive("", dependencies, options, [], {});
    log, order := m.log, m.finished;
    FailingLetThrough(graph, dependencies, options, failing);
    if r.Ok? {
      NothingFailed(failing, m.entered, order, options, log);
      ExecutedInOrder(graph, dependencies, m.entered, order, options, log);
      forall x ensures RanExactly(graph, dependencies, options, order, log, x) {
        ActedOnExactly(order, m.entered, options, x);
      }
      forall d ensures ReturnedIf(graph, dependencies, options, r.value, d) {
        ReturnedExactly(graph, dependencies, options, d);
      }
      if options == ResolveOptions([], []) {
        AllActedOn(order, m.entered);
        AllReturned(graph, [], dependencies, map[]);
      }
    }
  }

  lemma {:induction false} ReturnedExactly(g: Graph, nodes: seq<string>, options: ResolveOptions, d: string)
    requires Closed(g) && forall x :: x in nodes ==> x in g
    ensures ReturnedIf(g, nodes, options, Returned(g, [], nodes, map[], options), d)
  {
    if nodes != [] {
      var before := nodes[..|nodes|-1];
      ReturnedExactly(g, before, options, d);
      forall i ensures i != |before| ==> (KeptAtTurn(g, nodes, options, i, d) <==> KeptAtTurn(g, before, options, i, d)) {
        assert 0 <= i < |before| ==> before[..i] == nodes[..i];
      }
      LastTurn(g, nodes, options, d);
    }
  }

  lemma LastTurn(g: Graph, nodes: seq<string>, options: ResolveOptions, d: string)
    requires Closed(g) && nodes != [] && forall x :: x in nodes ==> x in g
    ensures var before, last := nodes[..|nodes|-1], nodes[|nodes|-1];
            KeptAtTurn(g, nodes, options, |nodes| - 1, d) <==>
              d == last && (d in Visit(g, [], before, map[]) || Passes(options, [] + [last]))
  {
    var last := nodes[|nodes|-1];
    assert [] + [last] == [last] && Dotted([last]) == last;
  }

  lemma ExecutedInOrder(
    g: Graph, dependencies: seq<string>, entered: map<string, seq<string>>, order: seq<string>, options: ResolveOptions,
    log: seq<string>)
    requires Consistent(g, entered, {}, order, options, log) && forall d :: d in dependencies ==> d in g
    requires entered == Visit(g, [], dependencies, map[])
    ensures ExecutionOrder(g, dependencies, order) && Elements(order) == entered.Keys
  {
    forall x ensures x in order <==> ReachedFrom(g, dependencies, x) {
      assert x in Elements(order) <==> x in entered;
      EnteredIsReached(g, dependencies, x);
    }
  }

  lemma EnteredIsReached(g: Graph, dependencies: seq<string>, x: string)
    requires Closed(g) && forall d :: d in dependencies ==> d in g
    ensures x in Visit(g, [], dependencies, map[]) <==> ReachedFrom(g, dependencies, x)
  {
    var entered := Visit(g, [], dependencies, map[]);
    if x in entered {
      var p := EnteredByPath(g, [], dependencies, map[], x);
      assert PathBetween(g, p, p[0], x);
    }
    if ReachedFrom(g, dependencies, x) {
      var d :| d in dependencies && Reaches(g, d, x);
      var p :| PathBetween(g, p, d, x);
      VisitCloses(g, [], dependencies, map[]);
      ClosedContainsReached(g, entered.Keys, p);
    }
  }

  /** Main result: with filters, the action runs on a dependency if and only if they let it through by the first path to it,
      in the order of the dependency lists, that repeats no name; this is its name in the options. */
  lemma RunsByFirstPath(
    g: Graph, dependencies: seq<string>, order: seq<string>, options: ResolveOptions, x: string, p: seq<string>)
    requires Closed(g) && (forall d :: d in dependencies ==> d in g) && ExecutionOrder(g, dependencies, order)
    requires FirstPath(g, dependencies, {}, p, x) && p[0] != ""
    ensures x in ActedOn(order, Visit(g, [], dependencies, map[]), options) <==>
              var name := Join(p, '.');
              (options.dependencies == [] || name in options.dependencies) && name !in options.skipDependencies
  {
    FirstIsEntered(g, dependencies, x, p);
    ActedOnExactly(order, Visit(g, [], dependencies, map[]), options, x);
    DottedIsJoined(p);
    assert PathBetween(g, p, p[0], x);
    assert ReachedFrom(g, dependencies, x);
  }

  lemma FirstIsEntered(g: Graph, dependencies: seq<string>, x: string, p: seq<string>)
    requires Closed(g) && (forall d :: d in dependencies ==> d in g) && FirstPath(g, dependencies, {}, p, x)
    ensures x in Visit(g, [], dependencies, map[]) && Visit(g, [], dependencies, map[])[x] == p
  {
    var none: map<string, seq<string>> := map[];
    assert none.Keys == {};
    FirstPathEntered(g, dependencies, none, p, x);
  }

  /** Main result: every dependency comes after all its descendants exactly if no cycle can be reached. */
  lemma DescendantsFirst(g: Graph, dependencies: seq<string>, order: seq<string>)
    requires ExecutionOrder(g, dependencies, order)
    ensures (forall i, y :: 0 <= i < |order| && Descends(g, order[i], y) ==> y in order[..i])
            <==> (forall x :: ReachedFrom(g, dependencies, x) ==> !Descends(g, x, x))
  {
    if forall x :: ReachedFrom(g, dependencies, x) ==> !Descends(g, x, x) {
      forall i, y | 0 <= i < |order| && Descends(g, order[i], y) ensures y in order[..i] {
        var p :| PathBetween(g, p, order[i], y) && |p| > 1;
        assert order[i] in order;
        DescendantBefore(g, dependencies, order, i, p);
      }
    }
    forall i | 0 <= i < |order| ensures order[i] !in order[..i] {
    }
    if forall i, y :: 0 <= i < |order| && Descends(g, order[i], y) ==> y in order[..i] {
      forall x | ReachedFrom(g, dependencies, x) ensures !Descends(g, x, x) {
        var i :| 0 <= i < |order| && order[i] == x;
      }
    }
  }

  lemma {:induction false} DescendantBefore(g: Graph, dependencies: seq<string>, order: seq<string>, i: nat, p: seq<string>)
    requires ExecutionOrder(g, dependencies, order)
    requires forall x :: ReachedFrom(g, dependencies, x) ==> !Descends(g, x, x)
    requires i < |order| && IsPath(g, p) && p[0] == order[i] && |p| > 1
    ensures p[|p|-1] in order[..i]
  {
    PathTail(g, p);
    assert p[1] in order[..i] by {
      assert order[i] in order;
      EdgeDescends(g, order[i], p[1]);
      if Reaches(g, p[1], order[i]) {
        assert Reaches(g, order[i], p[1]);
        ReachesTransitive(g, order[i], p[1], order[i]);
      }
    }
    if |p| > 2 {
      var j :| 0 <= j < i && order[j] == p[1];
      DescendantBefore(g, dependencies, order, j, p[1..]);
    }
  }

  // ---------------------------------------------------------------------------------------------
  // Looking up a dependency by its path
  // ---------------------------------------------------------------------------------------------

  /** The dependency that a dotted path names: found exactly if its parts are a path of the graph that starts at one of the
      given dependencies. */
  method GetDependencyByPath(graph: Graph, dependencies: seq<string>, path: string) returns (r: Option<string>)
    requires Closed(graph) && forall d :: d in dependencies ==> d in graph
    ensures var segments := Split(path, '.');
            && (r.Some? <==> segments[0] in dependencies && IsPath(graph, segments))
            && (r.Some? ==> r.value == segments[|segments|-1])
  {
    var segments := Split(path, '.');
    r := None;
    var searchDependencies := dependencies;
    for i := 0 to |segments|
      invariant i > 0 ==> segments[0] in dependencies && r == Some(segments[i-1]) && segments[i-1] in graph
      invariant searchDependencies == if i == 0 then dependencies else graph[segments[i-1]]
      invariant forall d :: d in searchDependencies ==> d in graph
      invariant forall j :: 0 <= j < i - 1 ==> Edge(graph, segments[j], segments[j+1])
    {
      var found := false;
      for j := 0 to |searchDependencies|
        invariant !found && segments[i] !in searchDependencies[..j]
      {
        if searchDependencies[j] == segments[i] {
          found := true;
          break;
        }
      }
      if !found {
        assert i > 0 ==> !Edge(graph, segments[i-1], segments[i]);
        return None;
      }
      searchDependencies := graph[segments[i]];
      r := Some(segments[i]);
    }
  }

  /** The name by which the filters refer to a dependency is one by which it is looked up, if no name contains a dot. */
  lemma DottedIsLookedUp(path: seq<string>)
    requires path != [] && path[0] != "" && forall i :: 0 <= i < |path| ==> '.' !in path[i]
    ensures Split(Dotted(path), '.') == path
  {
    DottedIsJoined(path);
    SplitJoin(path, '.');
  }
}
