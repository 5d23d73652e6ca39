/** Dependencies that are asked for without their own: which they are, and that nothing is loaded through them. */
module IgnoredDependencies {
  import opened DependencyResolver
  import opened Digraph
  import opened FirstPaths

  /** Who asks for whom: a name that was loaded without its dependencies asks for nothing. */
  ghost function Asking(w: World, final: map<string, bool>): Graph
    requires w.Valid() && final.Keys <= w.configs.Keys
  {
    map x | x in final :: if final[x] then [] else w.Target(x)
  }

  /** The last but one of a path from the root, which is not in the path itself. */
  function Asker(w: World, p: seq<string>): string
    requires p != []
  {
    if |p| == 1 then w.root else p[|p|-2]
  }

  predicate AsksWithout(w: World, c: string, x: string) {
    c in w.configs && x in w.configs[c] && w.configs[c][x].ignoreDependencies
  }

  ghost predicate AskedBy(w: World, final: map<string, bool>, p: seq<string>, x: string) {
    p != [] && x in final && (final[x] <==> AsksWithout(w, Asker(w, p), x))
  }

  ghost predicate Agrees(part: map<string, bool>, final: map<string, bool>) {
    forall x :: x in part ==> x in final && final[x] == part[x]
  }

  ghost predicate Comes(w: World, base: seq<string>, parent: string) {
    if base == [] then parent == w.root else base[|base|-1] == parent
  }

  /** Loading goes the way of the search along who asks for whom, and the one by whom a name is entered decides. */
  ghost predicate InStep(
    w: World, final: map<string, bool>, explored: map<string, bool>, entered: map<string, seq<string>>,
    visited: map<string, seq<string>>)
  {
    explored.Keys == visited.Keys && forall x :: x in visited && x !in entered ==> AskedBy(w, final, visited[x], x)
  }

  lemma InStepTwice(
    w: World, final: map<string, bool>, entered: map<string, seq<string>>, now: map<string, seq<string>>,
    explored: map<string, bool>, visited: map<string, seq<string>>)
    requires forall x :: x in now && x !in entered ==> AskedBy(w, final, now[x], x)
    requires InStep(w, final, explored, now, visited) && forall x :: x in now ==> x in visited && visited[x] == now[x]
    ensures InStep(w, final, explored, entered, visited)
  {
    forall x | x in visited && x !in entered ensures AskedBy(w, final, visited[x], x) {
      if x in now {
        assert visited[x] == now[x];
      }
    }
  }

  ghost predicate Prepared(
    w: World, final: map<string, bool>, parent: string, base: seq<string>, loaded: map<string, bool>,
    entered: map<string, seq<string>>)
  {
    && w.Valid() && final.Keys <= w.configs.Keys && Closed(Asking(w, final)) && parent in w.configs
    && loaded.Keys <= w.configs.Keys && entered.Keys == loaded.Keys && Comes(w, base, parent)
  }

  lemma {:induction false} ExploresAsVisits(
    w: World, final: map<string, bool>, parent: string, base: seq<string>, names: seq<string>, loaded: map<string, bool>,
    entered: map<string, seq<string>>)
    requires Prepared(w, final, parent, base, loaded, entered)
    requires (forall x :: x in names ==> x in w.configs[parent] && x in final)
    requires Agrees(Explored(w, parent, names, loaded), final)
    ensures entered.Keys <= final.Keys
    ensures InStep(w, final, Explored(w, parent, names, loaded), entered, Visit(Asking(w, final), base, names, entered))
    decreases w.configs.Keys - loaded.Keys, |names|
  {
    AgreesBefore(loaded, Explored(w, parent, names, loaded), final);
    if names != [] {
      var rest, d := names[..|names|-1], names[|names|-1];
      assert names == rest + [d];
      ExploredStep(w, parent, rest, d, loaded);
      var before := Explored(w, parent, rest, loaded);
      AgreesBefore(before, Explored(w, parent, names, loaded), final);
      ExploresAsVisits(w, final, parent, base, rest, loaded, entered);
      OneMore(w, final, parent, base, rest, d, loaded, entered);
    }
  }

  lemma AgreesBefore(a: map<string, bool>, b: map<string, bool>, final: map<string, bool>)
    requires Agrees(b, final) && forall x :: x in a ==> x in b && b[x] == a[x]
    ensures Agrees(a, final) && a.Keys <= final.Keys
  {
  }

  lemma {:induction false} OneMore(
    w: World, final: map<string, bool>, parent: string, base: seq<string>, rest: seq<string>, d: string,
    loaded: map<string, bool>, entered: map<string, seq<string>>)
    requires Prepared(w, final, parent, base, loaded, entered) && entered.Keys <= final.Keys
    requires (forall x :: x in rest + [d] ==> x in w.configs[parent] && x in final)
    requires d in w.configs[parent] && d in final && forall x :: x in rest ==> x in w.configs[parent] && x in final
    requires Agrees(ExploredOne(w, parent, d, Explored(w, parent, rest, loaded)), final)
    requires InStep(w, final, Explored(w, parent, rest, loaded), entered, Visit(Asking(w, final), base, rest, entered))
    ensures InStep(w, final, ExploredOne(w, parent, d, Explored(w, parent, rest, loaded)), entered,
                   Visit(Asking(w, final), base, rest + [d], entered))
    decreases w.configs.Keys - loaded.Keys, |rest|, 1
  {
    var g := Asking(w, final);
    var before, now := Explored(w, parent, rest, loaded), Visit(g, base, rest, entered);
    VisitLast(g, base, rest, d, entered);
    if d !in before {
      assert w.configs.Keys - before.Keys <= w.configs.Keys - loaded.Keys;
      OneExploredAsVisited(w, final, parent, base, d, before, now);
      InStepTwice(w, final, entered, now, ExploredOne(w, parent, d, before), VisitOne(g, base, d, now));
    }
  }

  lemma {:induction false} OneExploredAsVisited(
    w: World, final: map<string, bool>, parent: string, base: seq<string>, d: string, before: map<string, bool>,
    now: map<string, seq<string>>)
    requires Prepared(w, final, parent, base, before, now) && now.Keys <= final.Keys
    requires d in w.configs[parent] && d in final && d !in before && Agrees(ExploredOne(w, parent, d, before), final)
    ensures InStep(w, final, ExploredOne(w, parent, d, before), now, VisitOne(Asking(w, final), base, d, now))
    decreases w.configs.Keys - before.Keys, 0, 0
  {
    FlagKept(w, final, parent, d, before);
    assert d in before[d := false].Keys && d !in before.Keys;
    EnteredBy(w, final, parent, base, d);
    if final[d] {
      LeafVisited(Asking(w, final), base, d, now);
    } else {
      AsksForTarget(w, final, d);
      InsideExploredAsVisited(w, final, base, d, before[d := false], now);
    }
  }

  lemma {:induction false} InsideExploredAsVisited(
    w: World, final: map<string, bool>, base: seq<string>, d: string, next: map<string, bool>, now: map<string, seq<string>>)
    requires Prepared(w, final, d, base + [d], next, now[d := base + [d]]) && now.Keys <= final.Keys && d !in now
    requires AskedBy(w, final, base + [d], d) && d in Asking(w, final) && Asking(w, final)[d] == w.Target(d)
    requires (forall x :: x in w.Target(d) ==> x in w.configs[d] && x in final)
    requires Agrees(Explored(w, d, w.Target(d), next), final)
    ensures InStep(w, final, Explored(w, d, w.Target(d), next), now, VisitOne(Asking(w, final), base, d, now))
    decreases w.configs.Keys - next.Keys, |w.Target(d)| + 1
  {
    var entered := now[d := base + [d]];
    ExploresAsVisits(w, final, d, base + [d], w.Target(d), next, entered);
    InStepTwice(w, final, now, entered, Explored(w, d, w.Target(d), next), Visit(Asking(w, final), base + [d], w.Target(d), entered));
  }

  lemma FlagKept(w: World, final: map<string, bool>, parent: string, d: string, before: map<string, bool>)
    requires w.Valid() && before.Keys <= w.configs.Keys && parent in w.configs && d in w.configs[parent] && d in w.configs
    requires d !in before && Agrees(ExploredOne(w, parent, d, before), final)
    ensures d in final && final[d] == w.configs[parent][d].ignoreDependencies
    ensures final[d] ==> ExploredOne(w, parent, d, before) == before[d := true]
    ensures !final[d] ==> forall x :: x in w.Target(d) ==> x in w.configs[d]
    ensures !final[d] ==> ExploredOne(w, parent, d, before) == Explored(w, d, w.Target(d), before[d := false])
  {
    TargetInConfig(w, d);
    var explored := ExploredOne(w, parent, d, before);
    assert d in explored && explored[d] == w.configs[parent][d].ignoreDependencies;
  }

  lemma LeafVisited(g: Graph, base: seq<string>, d: string, now: map<string, seq<string>>)
    requires Closed(g) && now.Keys <= g.Keys && d in g && d !in now && g[d] == []
    ensures VisitOne(g, base, d, now) == now[d := base + [d]]
  {
  }

  lemma AsksForTarget(w: World, final: map<string, bool>, d: string)
    requires w.Valid() && final.Keys <= w.configs.Keys && Closed(Asking(w, final)) && d in final && !final[d]
    ensures d in Asking(w, final) && Asking(w, final)[d] == w.Target(d)
    ensures forall x :: x in w.Target(d) ==> x in w.configs[d] && x in final
  {
    var g := Asking(w, final);
    TargetInConfig(w, d);
    forall x | x in w.Target(d) ensures x in w.configs[d] && x in final {
      assert Edge(g, d, x) && x in g;
    }
  }

  lemma EnteredBy(w: World, final: map<string, bool>, parent: string, base: seq<string>, d: string)
    requires parent in w.configs && d in w.configs[parent] && Comes(w, base, parent)
    requires d in final && final[d] == w.configs[parent][d].ignoreDependencies
    ensures AskedBy(w, final, base + [d], d)
  {
    assert base != [] ==> (base + [d])[|base|-1] == base[|base|-1];
  }

  // ---------------------------------------------------------------------------------------------
  // What this means for the outcome of a resolution
  // ---------------------------------------------------------------------------------------------

  /** Who has asked for whom in a resolution that is through. */
  ghost function Asked(w: World, nodes: set<string>, ignored: set<string>): Graph
    requires w.Valid() && nodes <= w.configs.Keys
  {
    Asking(w, Loaded(nodes, ignored))
  }

  lemma AskedIsClosed(
    w: World, direct: seq<string>, childs: Graph, children: Children, loads: seq<string>, ignored: set<string>)
    requires w.Valid() && Outcome(w, direct, childs, children, loads, ignored)
    ensures Closed(Asked(w, childs.Keys, ignored)) && forall y :: y in w.Target(w.root) ==> y in childs
  {
    var g := Asked(w, childs.Keys, ignored);
    forall x, y | x in g && y in g[x] ensures y in g {
      assert x in childs && x !in ignored && y in w.Target(x);
    }
  }

  /** Everything that is loaded is what the search enters, each name with the one who asked for it first. */
  lemma LoadedAsEntered(
    w: World, direct: seq<string>, childs: Graph, children: Children, loads: seq<string>, ignored: set<string>)
    requires w.Valid() && Outcome(w, direct, childs, children, loads, ignored)
    ensures Closed(Asked(w, childs.Keys, ignored)) && w.root in childs && forall y :: y in w.Target(w.root) ==> y in childs
    ensures InStep(w, Loaded(childs.Keys, ignored), Loaded(childs.Keys, ignored), map[w.root := []],
                   Visit(Asked(w, childs.Keys, ignored), [], w.Target(w.root), map[w.root := []]))
  {
    AskedIsClosed(w, direct, childs, children, loads, ignored);
    var first: map<string, bool> := map[w.root := false];
    var entered: map<string, seq<string>> := map[w.root := []];
    assert first.Keys == entered.Keys == {w.root};
    ExploresAsVisits(w, Loaded(childs.Keys, ignored), w.root, [], w.Target(w.root), first, entered);
  }

  /** Main result: a name is loaded without its dependencies if and only if the config that asks for it first, in the order
      of the lists, says so. */
  lemma FirstAskerDecides(
    w: World, direct: seq<string>, childs: Graph, children: Children, loads: seq<string>, ignored: set<string>,
    p: seq<string>, x: string)
    requires w.Valid() && Outcome(w, direct, childs, children, loads, ignored)
    requires FirstPath(Asked(w, childs.Keys, ignored), w.Target(w.root), {w.root}, p, x)
    ensures x in loads && (x in ignored <==> AsksWithout(w, Asker(w, p), x))
  {
    LoadedAsEntered(w, direct, childs, children, loads, ignored);
    var entered: map<string, seq<string>> := map[w.root := []];
    assert entered.Keys == {w.root} && x in p;
    FirstPathEntered(Asked(w, childs.Keys, ignored), w.Target(w.root), entered, p, x);
  }

  /** Each loaded name has such a path. */
  lemma HasFirstPath(
    w: World, direct: seq<string>, childs: Graph, children: Children, loads: seq<string>, ignored: set<string>, x: string)
    returns (p: seq<string>)
    requires w.Valid() && Outcome(w, direct, childs, children, loads, ignored) && x in loads
    ensures FirstPath(Asked(w, childs.Keys, ignored), w.Target(w.root), {w.root}, p, x)
  {
    LoadedAsEntered(w, direct, childs, children, loads, ignored);
    var entered: map<string, seq<string>> := map[w.root := []];
    assert entered.Keys == {w.root} && x in Loaded(childs.Keys, ignored);
    var g := Asked(w, childs.Keys, ignored);
    p := EnteredByPath(g, [], w.Target(w.root), entered, x);
    assert [] + p == p;
    FirstPathEntered(g, w.Target(w.root), entered, p, x);
  }

  /** Main result: what is loaded is what the root reaches without going on from a name loaded without its dependencies. */
  lemma LoadedIsReached(
    w: World, direct: seq<string>, childs: Graph, children: Children, loads: seq<string>, ignored: set<string>, x: string)
    requires w.Valid() && Outcome(w, direct, childs, children, loads, ignored)
    ensures x in childs <==> Reaches(Asked(w, childs.Keys, ignored), w.root, x)
  {
    var g := Asked(w, childs.Keys, ignored);
    AskedIsClosed(w, direct, childs, children, loads, ignored);
    ReachesItself(g, w.root);
    if x in childs && x != w.root {
      var p := HasFirstPath(w, direct, childs, children, loads, ignored, x);
      assert Edge(g, w.root, p[0]);
      ReachesEdge(g, w.root, w.root, p[0]);
      assert PathBetween(g, p, p[0], x);
      assert Reaches(g, p[0], x);
      ReachesTransitive(g, w.root, p[0], x);
    }
    if Reaches(g, w.root, x) {
      var q :| PathBetween(g, q, w.root, x);
      ClosedContainsReached(g, childs.Keys, q);
    }
  }

  /** Main result: a name that nobody asks for with its dependencies has no children. */
  lemma NoChildrenUnlessAskedFor(
    w: World, direct: seq<string>, childs: Graph, children: Children, loads: seq<string>, ignored: set<string>, x: string)
    requires w.Valid() && Outcome(w, direct, childs, children, loads, ignored) && x in loads
    requires forall c :: c in childs && c !in ignored && x in w.Target(c) ==>
               x in w.configs[c] && w.configs[c][x].ignoreDependencies
    ensures x in ignored && x !in children
  {
    var p := HasFirstPath(w, direct, childs, children, loads, ignored, x);
    FirstAskerDecides(w, direct, childs, children, loads, ignored, p, x);
    if |p| > 1 {
      assert Edge(Asked(w, childs.Keys, ignored), p[|p|-2], p[|p|-1]);
    }
  }
}
