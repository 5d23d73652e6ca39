/** Resolving dependencies: loading every config that is needed once, and recording who depends on whom. */
module DependencyResolver {
  import opened Digraph
  import opened DependencyGraph
  import opened DependencyManager
  import opened Sequences
  import opened Wrappers

  /** A dependency as written in a config. */
  datatype DependencyConfig = DependencyConfig(name: string, disabled: bool, ignoreDependencies: bool)

  type DependencyMap = map<string, DependencyConfig>

  // ---------------------------------------------------------------------------------------------
  // transformMap
  // ---------------------------------------------------------------------------------------------

  /** Go's order on strings. */
  predicate Leq(a: string, b: string) {
    a == "" || (b != "" && (a[0] < b[0] || (a[0] == b[0] && Leq(a[1..], b[1..]))))
  }

  lemma {:induction false} LeqTotal(a: string, b: string)
    ensures Leq(a, b) || Leq(b, a)
    ensures Leq(a, b) && Leq(b, a) ==> a == b
  {
    if a != "" && b != "" {
      LeqTotal(a[1..], b[1..]);
      assert a == [a[0]] + a[1..] && b == [b[0]] + b[1..];
    }
  }

  lemma {:induction false} LeqTransitive(a: string, b: string, c: string)
    requires Leq(a, b) && Leq(b, c)
    ensures Leq(a, c)
  {
    if a != "" && a[0] == b[0] == c[0] {
      LeqTransitive(a[1..], b[1..], c[1..]);
    }
  }

  /** The first of the names is a prefix of the second, or smaller where they differ first. */
  ghost predicate InOrder(a: string, b: string) {
    exists n :: 0 <= n <= |a| && n <= |b| && a[..n] == b[..n] && (n == |a| || (n < |b| && a[n] < b[n]))
  }

  lemma {:induction false} LeqIsInOrder(a: string, b: string)
    ensures Leq(a, b) <==> InOrder(a, b)
  {
    if a == "" {
      assert a[..0] == b[..0];
    } else if b != "" && a[0] == b[0] {
      LeqIsInOrder(a[1..], b[1..]);
      forall n | 0 <= n < |a| && n < |b| ensures a[..n+1] == b[..n+1] <==> a[1..][..n] == b[1..][..n] {
        assert a[..n+1] == [a[0]] + a[1..][..n] && b[..n+1] == [b[0]] + b[1..][..n];
      }
      if n :| 0 <= n <= |a[1..]| && n <= |b[1..]| && a[1..][..n] == b[1..][..n] && (n == |a[1..]| || (n < |b[1..]| && a[1..][n] < b[1..][n])) {
        assert a[..n+1] == b[..n+1];
      }
      if n :| 0 <= n <= |a| && n <= |b| && a[..n] == b[..n] && (n == |a| || (n < |b| && a[n] < b[n])) {
        assert n > 0 && a[1..][..n-1] == b[1..][..n-1];
      }
    } else if b != "" {
      if a[0] < b[0] {
        assert a[..0] == b[..0];
      }
      forall n | 0 < n <= |a| && n <= |b| ensures a[..n] != b[..n] {
        assert a[..n][0] == a[0] && b[..n][0] == b[0];
      }
    }
  }

  ghost predicate SortedByName(list: seq<DependencyConfig>) {
    forall i, j :: 0 <= i < j < |list| ==> Leq(list[i].name, list[j].name)
  }

  /** Every dependency is stored under its own name. */
  predicate KeyedByName(m: DependencyMap) {
    forall k :: k in m ==> m[k].name == k
  }

  /** The values of the map, each once, in the order of their names. */
  ghost predicate Lists(list: seq<DependencyConfig>, m: DependencyMap) {
    && SortedByName(list)
    && (forall i, j :: 0 <= i < j < |list| ==> list[i].name != list[j].name)
    && (forall d :: d in list <==> d.name in m && m[d.name] == d)
  }

  /** So the outcome does not depend on the order in which the map is enumerated. */
  lemma SameFirst(a: seq<DependencyConfig>, b: seq<DependencyConfig>, m: DependencyMap)
    requires KeyedByName(m) && Lists(a, m) && Lists(b, m) && a != [] && b != []
    ensures a[0] == b[0]
  {
    assert a[0] in a && a[0] in b;
    assert b[0] in b && b[0] in a;
    LeqTotal(a[0].name, b[0].name);
    var i :| 0 <= i < |b| && b[i] == a[0];
    var j :| 0 <= j < |a| && a[j] == b[0];
  }

  lemma {:induction false} ListingIsUnique(a: seq<DependencyConfig>, b: seq<DependencyConfig>, m: DependencyMap)
    requires KeyedByName(m) && Lists(a, m) && Lists(b, m)
    ensures a == b
  {
    ListsNothing(a, m);
    ListsNothing(b, m);
    if a != [] {
      SameFirst(a, b, m);
      var rest := m - {a[0].name};
      ListsRest(a, m);
      ListsRest(b, m);
      ListingIsUnique(a[1..], b[1..], rest);
      assert a == [a[0]] + a[1..] && b == [b[0]] + b[1..];
    }
  }

  lemma ListsNothing(a: seq<DependencyConfig>, m: DependencyMap)
    requires KeyedByName(m) && Lists(a, m)
    ensures a == [] <==> m == map[]
  {
    if a != [] {
      assert a[0] in a;
    }
    if k :| k in m {
      assert m[k] in a;
    }
  }

  lemma ListsRest(a: seq<DependencyConfig>, m: DependencyMap)
    requires KeyedByName(m) && Lists(a, m) && a != []
    ensures Lists(a[1..], m - {a[0].name})
  {
    var rest := m - {a[0].name};
    forall d ensures d in a[1..] <==> d.name in rest && rest[d.name] == d {
      assert a == [a[0]] + a[1..];
      assert d in a <==> d.name in m && m[d.name] == d;
    }
  }

  /** Stable insertion into a sorted list. */
  function Insert(list: seq<DependencyConfig>, d: DependencyConfig): (r: seq<DependencyConfig>)
    ensures forall x :: x in r <==> x in list || x == d
  {
    if list == [] || !Leq(list[|list|-1].name, d.name) then
      if list == [] then [d] else Insert(list[..|list|-1], d) + [list[|list|-1]]
    else
      list + [d]
  }

  /** sort.SliceStable by name. */
  function SortByName(list: seq<DependencyConfig>): (r: seq<DependencyConfig>)
    ensures forall x :: x in r <==> x in list
  {
    if list == [] then [] else Insert(SortByName(list[..|list|-1]), list[|list|-1])
  }

  ghost predicate DistinctNames(list: seq<DependencyConfig>) {
    forall i, j :: 0 <= i < j < |list| ==> list[i].name != list[j].name
  }

  lemma {:induction false} InsertSorts(list: seq<DependencyConfig>, d: DependencyConfig)
    requires SortedByName(list) && DistinctNames(list) && forall x :: x in list ==> x.name != d.name
    ensures SortedByName(Insert(list, d)) && DistinctNames(Insert(list, d))
  {
    if list != [] {
      var rest, last := list[..|list|-1], list[|list|-1];
      assert last in list;
      LeqTotal(last.name, d.name);
      if Leq(last.name, d.name) {
        forall i | 0 <= i < |list| ensures Leq(list[i].name, d.name) && list[i].name != d.name {
          assert list[i] in list;
          if i < |list| - 1 {
            LeqTransitive(list[i].name, last.name, d.name);
          }
        }
      } else {
        InsertSorts(rest, d);
        var r := Insert(rest, d);
        forall i | 0 <= i < |r| ensures Leq(r[i].name, last.name) && r[i].name != last.name {
          assert r[i] in r;
          assert r[i] in rest ==> exists j :: 0 <= j < |rest| && list[j] == r[i];
        }
      }
    }
  }

  lemma {:induction false} SortSorts(list: seq<DependencyConfig>)
    requires DistinctNames(list)
    ensures SortedByName(SortByName(list)) && DistinctNames(SortByName(list))
  {
    if list != [] {
      var rest, last := list[..|list|-1], list[|list|-1];
      SortSorts(rest);
      InsertSorts(SortByName(rest), last);
    }
  }

  method TransformMap(depMap: DependencyMap) returns (dependencies: seq<DependencyConfig>)
    requires KeyedByName(depMap)
    ensures Lists(dependencies, depMap)
    ensures forall i, j :: 0 <= i < j < |dependencies| ==> InOrder(dependencies[i].name, dependencies[j].name)
  {
    dependencies := [];
    var todo := depMap.Keys;
    while todo != {}
      invariant todo <= depMap.Keys && DistinctNames(dependencies)
      invariant forall d :: d in dependencies <==> d.name in depMap && d.name !in todo && depMap[d.name] == d
      decreases todo
    {
      var k :| k in todo;
      todo := todo - {k};
      forall i | 0 <= i < |dependencies| ensures dependencies[i].name != k {
        assert dependencies[i] in dependencies;
      }
      dependencies := dependencies + [depMap[k]];
    }
    SortSorts(dependencies);
    dependencies := SortByName(dependencies);
    forall i, j | 0 <= i < j < |dependencies| ensures InOrder(dependencies[i].name, dependencies[j].name) {
      LeqIsInOrder(dependencies[i].name, dependencies[j].name);
    }
  }

  /** The dependencies of a config, in the order in which they are resolved. */
  ghost function Listing(m: DependencyMap): (list: seq<DependencyConfig>)
    requires KeyedByName(m)
    ensures Lists(list, m)
  {
    ListingExists(m);
    var list :| Lists(list, m);
    list
  }

  lemma {:induction false} ListingExists(m: DependencyMap)
    requires KeyedByName(m)
    ensures exists list :: Lists(list, m)
  {
    if m == map[] {
      assert Lists([], m);
    } else {
      var k :| k in m;
      var rest := m - {k};
      ListingExists(rest);
      var list :| Lists(list, rest);
      InsertSorts(list, m[k]);
      assert Lists(Insert(list, m[k]), m);
    }
  }

  // ---------------------------------------------------------------------------------------------
  // Which dependencies are to be followed
  // ---------------------------------------------------------------------------------------------

  /** Everything a resolution depends on: the configs that loading gives, by name, the names whose source cannot be
      downloaded, and the name of the config that is resolved. */
  datatype World = World(configs: map<string, DependencyMap>, unavailable: set<string>, root: string, options: ResolveOptions) {

    predicate Valid() {
      root in configs && forall x :: x in configs ==> KeyedByName(configs[x])
    }

    predicate Wanted(d: DependencyConfig) {
      && d.name !in options.skipDependencies
      && (|options.dependencies| > 0 ==> d.name in options.dependencies)
      && !d.disabled
    }

    function Visible(list: seq<DependencyConfig>): seq<string> {
      if list == [] then []
      else Visible(list[..|list|-1]) + if Wanted(list[|list|-1]) then [list[|list|-1].name] else []
    }

    /** The dependencies of a loaded config that are to be resolved: sorted by name, and filtered. */
    ghost function Target(x: string): seq<string>
      requires Valid() && x in configs
    {
      Visible(Listing(configs[x]))
    }

    ghost function Targets(): Graph
      requires Valid()
    {
      map x | x in configs :: Target(x)
    }

    /** Some config asks for `x` without its dependencies. */
    predicate AskedWithout(x: string) {
      exists c :: c in configs && x in configs[c] && configs[c][x].ignoreDependencies
    }

    /** Something that is to be followed cannot be downloaded or loaded. */
    ghost predicate Broken()
      requires Valid()
    {
      exists c, x :: c in configs && Reaches(Targets(), root, c) && x in Target(c) && (x in unavailable || x !in configs)
    }

    /** The same for something that is asked for by the root or by a name that is loaded with its dependencies. */
    ghost predicate BrokenIn(loaded: map<string, bool>)
      requires Valid()
    {
      exists c, x ::
        && c in loaded && !loaded[c] && c in configs && Reaches(Targets(), root, c)
        && x in Target(c) && (x in unavailable || x !in configs)
    }
  }

  lemma CannotFollow(w: World, parent: string, x: string, loaded: map<string, bool>, later: map<string, bool>)
    requires w.Valid() && parent in w.configs && Reaches(w.Targets(), w.root, parent) && x in w.Target(parent)
    requires x in w.unavailable || x !in w.configs
    requires parent in loaded && !loaded[parent] && Extends(loaded, later)
    ensures w.BrokenIn(later)
  {
    assert parent in later && !later[parent];
  }

  lemma BrokenInIsBroken(w: World, loaded: map<string, bool>)
    requires w.Valid() && w.BrokenIn(loaded)
    ensures w.Broken()
  {
  }

  ghost predicate Extends(a: map<string, bool>, b: map<string, bool>) {
    forall x :: x in a ==> x in b && b[x] == a[x]
  }

  lemma BrokenLater(w: World, a: map<string, bool>, b: map<string, bool>)
    requires w.Valid() && w.BrokenIn(a) && Extends(a, b)
    ensures w.BrokenIn(b)
  {
    var c, x :| c in a && !a[c] && c in w.configs && Reaches(w.Targets(), w.root, c)
      && x in w.Target(c) && (x in w.unavailable || x !in w.configs);
    assert c in b && !b[c];
  }

  lemma VisibleStep(w: World, list: seq<DependencyConfig>, i: nat)
    requires i < |list|
    ensures w.Visible(list[..i+1]) == if w.Wanted(list[i]) then w.Visible(list[..i]) + [list[i].name] else w.Visible(list[..i])
  {
    assert list[..i+1][..i] == list[..i];
  }

  lemma {:induction false} VisibleNames(w: World, list: seq<DependencyConfig>, x: string)
    ensures x in w.Visible(list) <==> exists d :: d in list && w.Wanted(d) && d.name == x
  {
    if list != [] {
      VisibleNames(w, list[..|list|-1], x);
      assert list == list[..|list|-1] + [list[|list|-1]];
    }
  }

  lemma TargetOfListing(w: World, x: string, list: seq<DependencyConfig>)
    requires w.Valid() && x in w.configs && Lists(list, w.configs[x])
    ensures w.Visible(list) == w.Target(x)
  {
    ListingIsUnique(list, Listing(w.configs[x]), w.configs[x]);
  }

  /** The config asks for the dependency, and the options do not filter it out. */
  ghost predicate AsksFor(w: World, c: string, x: string)
    requires c in w.configs
  {
    && x in w.configs[c] && !w.configs[c][x].disabled && x !in w.options.skipDependencies
    && (w.options.dependencies == [] || x in w.options.dependencies)
  }

  lemma TargetExactly(w: World, c: string, x: string)
    requires w.Valid() && c in w.configs
    ensures x in w.Target(c) <==> AsksFor(w, c, x)
  {
    var list := Listing(w.configs[c]);
    VisibleNames(w, list, x);
    if x in w.configs[c] {
      assert w.configs[c][x] in list;
    }
  }

  // ---------------------------------------------------------------------------------------------
  // Which dependencies are loaded, and which of them without their own
  // ---------------------------------------------------------------------------------------------

  /** What is loaded, and whether without its dependencies, when `parent` has asked for `names`, with `loaded` before. */
  ghost function Explored(w: World, parent: string, names: seq<string>, loaded: map<string, bool>): (r: map<string, bool>)
    requires w.Valid() && loaded.Keys <= w.configs.Keys && parent in w.configs
    requires forall x :: x in names ==> x in w.configs[parent]
    ensures loaded.Keys <= r.Keys <= w.configs.Keys && forall x :: x in loaded ==> r[x] == loaded[x]
    decreases w.configs.Keys - loaded.Keys, |names|
  {
    if names == [] then loaded
    else
      var before, name := Explored(w, parent, names[..|names|-1], loaded), names[|names|-1];
      if name in before || name !in w.configs then before
      else
        var next := before[name := w.configs[parent][name].ignoreDependencies];
        assert name in next.Keys && name !in before.Keys;
        if next[name] then next
        else
          TargetInConfig(w, name);
          Explored(w, name, w.Target(name), next)
  }

  /** The same for one name. */
  ghost function ExploredOne(w: World, parent: string, name: string, loaded: map<string, bool>): (r: map<string, bool>)
    requires w.Valid() && loaded.Keys <= w.configs.Keys && parent in w.configs && name in w.configs[parent]
    ensures loaded.Keys <= r.Keys <= w.configs.Keys && forall x :: x in loaded ==> r[x] == loaded[x]
  {
    if name in loaded || name !in w.configs then loaded
    else if w.configs[parent][name].ignoreDependencies then loaded[name := true]
    else
      TargetInConfig(w, name);
      Explored(w, name, w.Target(name), loaded[name := false])
  }

  /** All that a name leads to. */
  ghost function OwnExplored(w: World, name: string, loaded: map<string, bool>): (r: map<string, bool>)
    requires w.Valid() && loaded.Keys <= w.configs.Keys && name in w.configs
    ensures loaded.Keys <= r.Keys <= w.configs.Keys && Extends(loaded, r)
  {
    TargetInConfig(w, name);
    Explored(w, name, w.Target(name), loaded)
  }

  /** What is loaded for the first names stays loaded. */
  lemma {:induction false} ExploredPrefix(w: World, parent: string, names: seq<string>, k: nat, loaded: map<string, bool>)
    requires w.Valid() && loaded.Keys <= w.configs.Keys && parent in w.configs && k <= |names|
    requires forall x :: x in names ==> x in w.configs[parent]
    ensures Extends(Explored(w, parent, names[..k], loaded), Explored(w, parent, names, loaded))
    decreases |names|
  {
    if k < |names| {
      var rest, last := names[..|names|-1], names[|names|-1];
      assert names == rest + [last] && names[..k] == rest[..k];
      ExploredPrefix(w, parent, rest, k, loaded);
      ExploredStep(w, parent, rest, last, loaded);
    } else {
      assert names[..k] == names;
    }
  }

  lemma {:induction false} VisiblePrefix(w: World, list: seq<DependencyConfig>, i: nat)
    requires i <= |list|
    ensures w.Visible(list[..i]) <= w.Visible(list)
  {
    if i < |list| {
      var rest := list[..|list|-1];
      assert list[..i] == rest[..i];
      VisiblePrefix(w, rest, i);
    } else {
      assert list[..i] == list;
    }
  }

  lemma ExploredStep(w: World, parent: string, names: seq<string>, name: string, loaded: map<string, bool>)
    requires w.Valid() && loaded.Keys <= w.configs.Keys && parent in w.configs && name in w.configs[parent]
    requires forall x :: x in names ==> x in w.configs[parent]
    ensures Explored(w, parent, names + [name], loaded) == ExploredOne(w, parent, name, Explored(w, parent, names, loaded))
  {
    assert (names + [name])[..|names|] == names;
  }

  lemma ExploredNew(w: World, parent: string, name: string, loaded: map<string, bool>, after: map<string, bool>)
    requires w.Valid() && loaded.Keys <= w.configs.Keys && parent in w.configs && name in w.configs[parent]
    requires name in w.configs && name !in loaded && forall y :: y in w.Target(name) ==> y in w.configs[name]
    requires var next := loaded[name := false];
             after == if w.configs[parent][name].ignoreDependencies then next[name := true]
                      else Explored(w, name, w.Target(name), next)
    ensures after == ExploredOne(w, parent, name, loaded)
  {
    assert loaded[name := false][name := true] == loaded[name := true];
  }

  lemma AskedByParent(w: World, parent: string, name: string)
    requires w.Valid() && parent in w.configs && name in w.configs[parent]
    ensures w.configs[parent][name].ignoreDependencies ==> w.AskedWithout(name)
    ensures name in w.configs ==> forall y :: y in w.Target(name) ==> y in w.configs[name]
  {
    if name in w.configs {
      TargetInConfig(w, name);
    }
  }

  lemma TargetInConfig(w: World, x: string)
    requires w.Valid() && x in w.configs
    ensures forall y :: y in w.Target(x) ==> y in w.configs[x]
  {
    forall y | y in w.Target(x) ensures y in w.configs[x] {
      VisibleNames(w, Listing(w.configs[x]), y);
    }
  }

  // ---------------------------------------------------------------------------------------------
  // The state of a resolution
  // ---------------------------------------------------------------------------------------------

  type Children = map<string, seq<string>>

  /** What is known of a node whose own dependencies are through. */
  ghost predicate Settled(w: World, nodes: set<string>, children: Children, ignored: set<string>, x: string)
    requires w.Valid() && x in w.configs
  {
    if x in ignored then x !in children
    else
      && (forall y :: y in w.Target(x) ==> y in nodes && y !in w.unavailable)
      && (x != w.root ==> if w.configs[x] == map[] then x !in children else x in children && children[x] == w.Target(x))
  }

  /** `active` are the nodes whose dependencies are being resolved, `ignored` those loaded without theirs. */
  ghost predicate Resolving(
    w: World, nodes: set<string>, children: Children, loads: seq<string>, ignored: set<string>, active: set<string>)
  {
    && w.Valid() && w.root in nodes && nodes <= w.configs.Keys
    && Distinct(loads) && Elements(loads) == nodes - {w.root}
    && (forall x {:trigger Reaches(w.Targets(), w.root, x)} :: x in nodes ==> Reaches(w.Targets(), w.root, x))
    && (forall x :: x in ignored ==> w.AskedWithout(x))
    && active <= nodes && ignored <= nodes && active !! ignored && w.root !in ignored
    && (forall x :: x in nodes && x !in active ==> Settled(w, nodes, children, ignored, x))
    && (forall x :: x in children ==> x in nodes && x != w.root)
  }

  /** A newly loaded dependency of an active node. */
  lemma EnterNode(
    w: World, nodes: set<string>, children: Children, loads: seq<string>, ignored: set<string>, active: set<string>,
    parent: string, name: string)
    requires Resolving(w, nodes, children, loads, ignored, active)
    requires parent in nodes && name in w.Target(parent) && name !in nodes && name in w.configs
    ensures Resolving(w, nodes + {name}, children, loads + [name], ignored, active + {name})
    ensures name !in children && name != w.root && name !in active
  {
    assert name !in Elements(loads);
    assert Elements(loads + [name]) == Elements(loads) + {name};
    assert Edge(w.Targets(), parent, name);
    ReachesEdge(w.Targets(), w.root, parent, name);
    forall x | x in nodes && x !in active ensures Settled(w, nodes + {name}, children, ignored, x) {
      assert Settled(w, nodes, children, ignored, x);
    }
  }

  lemma LeaveNode(
    w: World, nodes: set<string>, children: Children, loads: seq<string>, ignored: set<string>, active: set<string>,
    name: string, skip: bool)
    requires Resolving(w, nodes, children, loads, ignored, active + {name})
    requires name in nodes && name !in active && name != w.root
    requires if skip then name !in children && w.AskedWithout(name) else Settled(w, nodes, children, ignored, name)
    ensures Resolving(w, nodes, children, loads, if skip then ignored + {name} else ignored, active)
  {
    var ignored' := if skip then ignored + {name} else ignored;
    forall x | x in nodes && x !in active ensures Settled(w, nodes, children, ignored', x) {
      if x != name {
        assert Settled(w, nodes, children, ignored, x);
      }
    }
  }

  lemma SetChildren(
    w: World, nodes: set<string>, children: Children, loads: seq<string>, ignored: set<string>, active: set<string>,
    x: string, list: seq<string>)
    requires Resolving(w, nodes, children, loads, ignored, active) && x in active && x != w.root
    ensures Resolving(w, nodes, children[x := list], loads, ignored, active)
  {
    forall y | y in nodes && y !in active ensures Settled(w, nodes, children[x := list], ignored, y) {
      assert Settled(w, nodes, children, ignored, y);
    }
  }

  /** The entries of a list other than the root. */
  function WithoutRoot(names: seq<string>, root: string): seq<string> {
    if names == [] then []
    else WithoutRoot(names[..|names|-1], root) + if names[|names|-1] == root then [] else [names[|names|-1]]
  }

  /** The nodes, and whether they were loaded without their dependencies. */
  ghost function Loaded(nodes: set<string>, ignored: set<string>): map<string, bool> {
    map x | x in nodes :: x in ignored
  }

  lemma KnownOnEntry(nodes: set<string>, ignored: set<string>, name: string)
    requires name !in nodes && ignored <= nodes
    ensures Loaded(nodes + {name}, ignored) == Loaded(nodes, ignored)[name := false]
  {
  }

  lemma EmptyConfig(w: World, x: string)
    requires w.Valid() && x in w.configs
    ensures w.configs[x] == map[] ==> w.Target(x) == []
  {
    ListsNothing(Listing(w.configs[x]), w.configs[x]);
  }

  predicate SameEntry(a: Children, b: Children, x: string) {
    (x in a <==> x in b) && (x in a ==> a[x] == b[x])
  }

  // ---------------------------------------------------------------------------------------------
  // The resolver
  // ---------------------------------------------------------------------------------------------

  class Resolver {
    const w: World
    const graph: NodeGraph
    var children: Children
    var loads: seq<string>
    ghost var ignored: set<string>

    constructor (w: World)
      requires w.Valid()
      ensures this.w == w && fresh(graph) && graph.root == w.root && Valid({w.root})
      ensures graph.childs == map[w.root := []] && loads == [] && children == map[] && ignored == {}
    {
      this.w := w;
      graph := new NodeGraph(w.root);
      children, loads, ignored := map[], [], {};
      new;
      ReachesItself(w.Targets(), w.root);
    }

    ghost predicate Valid(active: set<string>)
      reads this, graph
    {
      graph.Valid() && graph.root == w.root && Resolving(w, graph.childs.Keys, children, loads, ignored, active)
    }

    ghost function Now(): Snapshot
      reads this, graph
    {
      Snapshot(graph.childs, children, ignored)
    }

    /** The dependencies `visible` of the active node `parent` have been dealt with, starting from the state `was`. */
    ghost predicate Progress(was: Snapshot, parent: string, active: set<string>, visible: seq<string>)
      reads this, graph
    {
      && Valid(active) && Kept(was, Now(), active - {parent})
      && (forall y :: y in visible ==> y in graph.childs && y !in w.unavailable)
      && (parent != w.root ==> parent in children && children[parent] == visible)
      && w.root in was.childs && w.root in graph.childs
      && graph.childs[w.root] == (if parent == w.root then WithoutRoot(visible, w.root) else was.childs[w.root])
      && Follows(was, Now(), parent, visible)
    }

    /** What is loaded by now is what the parent's dependencies lead to. */
    ghost predicate Follows(was: Snapshot, now: Snapshot, parent: string, visible: seq<string>) {
      && w.Valid() && parent in w.configs && was.childs.Keys <= w.configs.Keys
      && (forall y :: y in visible ==> y in w.configs[parent])
      && now.Known() == Explored(w, parent, visible, was.Known())
    }

    lemma FollowsStep(was: Snapshot, before: Snapshot, now: Snapshot, parent: string, visible: seq<string>, name: string)
      requires Follows(was, before, parent, visible) && name in w.configs[parent]
      requires before.Known().Keys <= w.configs.Keys && now.Known() == ExploredOne(w, parent, name, before.Known())
      ensures Follows(was, now, parent, visible + [name])
    {
      ExploredStep(w, parent, visible, name, was.Known());
    }

    method ResolveRecursive(parentConfigName: string, currentDependency: Option<string>, dependencies: seq<DependencyConfig>,
                            ghost active: set<string>)
      returns (r: Result<()>)
      requires Valid(active) && parentConfigName in active && Lists(dependencies, w.configs[parentConfigName])
      requires currentDependency == if parentConfigName == w.root then None else Some(parentConfigName)
      requires parentConfigName == w.root ==> graph.childs[w.root] == []
      modifies this, graph
      ensures r.Ok? ==> Progress(old(Now()), parentConfigName, active, w.Visible(dependencies))
      ensures r.Err? ==> w.BrokenIn(OwnExplored(w, parentConfigName, old(Now()).Known()))
      decreases w.configs.Keys - graph.childs.Keys, 4
    {
      Start(parentConfigName, currentDependency, active);
      TargetOfListing(w, parentConfigName, dependencies);
      for i := 0 to |dependencies|
        invariant Progress(old(Now()), parentConfigName, active, w.Visible(dependencies[..i]))
      {
        var one := ResolveOne(parentConfigName, currentDependency, dependencies, i, active, old(Now()));
        if one.Err? {
          return one;
        }
      }
      assert dependencies[..|dependencies|] == dependencies;
      r := Ok(());
    }

    /** The loop's body. */
    method ResolveOne(parentConfigName: string, currentDependency: Option<string>, dependencies: seq<DependencyConfig>, i: nat,
                      ghost active: set<string>, ghost was: Snapshot)
      returns (r: Result<()>)
      requires i < |dependencies| && Progress(was, parentConfigName, active, w.Visible(dependencies[..i]))
      requires parentConfigName in active && Lists(dependencies, w.configs[parentConfigName])
      requires w.Visible(dependencies) == w.Target(parentConfigName)
      requires currentDependency == if parentConfigName == w.root then None else Some(parentConfigName)
      modifies this, graph
      ensures r.Ok? ==> Progress(was, parentConfigName, active, w.Visible(dependencies[..i+1]))
      ensures r.Err? ==> w.BrokenIn(OwnExplored(w, parentConfigName, was.Known()))
      decreases w.configs.Keys - graph.childs.Keys, 3
    {
      var dependencyConfig := dependencies[i];
      VisibleStep(w, dependencies, i);
      if dependencyConfig.name in w.options.skipDependencies {
        return Ok(());
      }
      if |w.options.dependencies| > 0 && dependencyConfig.name !in w.options.dependencies {
        return Ok(());
      }
      if dependencyConfig.disabled {
        return Ok(());
      }
      VisibleNames(w, dependencies, dependencyConfig.name);
      assert dependencyConfig in dependencies;
      VisibleIsNew(w, dependencies, i);
      r := Follow(parentConfigName, currentDependency, dependencyConfig, active, was, w.Visible(dependencies[..i]));
      if r.Err? {
        BrokenOnTheWay(was, parentConfigName, dependencies, i + 1);
      }
    }

    /** What is missing for the first of the dependencies is missing for the parent. */
    lemma BrokenOnTheWay(was: Snapshot, parent: string, dependencies: seq<DependencyConfig>, k: nat)
      requires w.Valid() && parent in w.configs && was.childs.Keys <= w.configs.Keys && k <= |dependencies|
      requires w.Visible(dependencies) == w.Target(parent)
      requires forall y :: y in w.Visible(dependencies[..k]) ==> y in w.configs[parent]
      requires w.BrokenIn(Explored(w, parent, w.Visible(dependencies[..k]), was.Known()))
      ensures w.BrokenIn(OwnExplored(w, parent, was.Known()))
    {
      TargetInConfig(w, parent);
      VisiblePrefix(w, dependencies, k);
      var first := w.Visible(dependencies[..k]);
      assert w.Target(parent)[..|first|] == first;
      ExploredPrefix(w, parent, w.Target(parent), |first|, was.Known());
      BrokenLater(w, Explored(w, parent, first, was.Known()), OwnExplored(w, parent, was.Known()));
    }

    /** A dependency that is about to be resolved has no children yet. */
    method Start(parentConfigName: string, currentDependency: Option<string>, ghost active: set<string>)
      requires Valid(active) && parentConfigName in active
      requires currentDependency == if parentConfigName == w.root then None else Some(parentConfigName)
      requires parentConfigName == w.root ==> graph.childs[w.root] == []
      modifies this`children
      ensures Progress(old(Now()), parentConfigName, active, [])
    {
      if currentDependency.Some? {
        SetChildren(w, graph.childs.Keys, children, loads, ignored, active, parentConfigName, []);
        children := children[parentConfigName := []];
      }
    }

    /** The rest of the loop's body, for a dependency that was not skipped. */
    method Follow(parentConfigName: string, currentDependency: Option<string>, dependencyConfig: DependencyConfig,
                  ghost active: set<string>, ghost was: Snapshot, ghost visible: seq<string>)
      returns (r: Result<()>)
      requires Progress(was, parentConfigName, active, visible) && parentConfigName in active
      requires currentDependency == if parentConfigName == w.root then None else Some(parentConfigName)
      requires dependencyConfig.name in w.Target(parentConfigName) && dependencyConfig.name !in visible
      requires dependencyConfig.name in w.configs[parentConfigName]
      requires w.configs[parentConfigName][dependencyConfig.name] == dependencyConfig
      modifies this, graph
      ensures r.Ok? ==> Progress(was, parentConfigName, active, visible + [dependencyConfig.name])
      ensures r.Err? ==>
                && (forall y :: y in visible + [dependencyConfig.name] ==> y in w.configs[parentConfigName])
                && w.BrokenIn(Explored(w, parentConfigName, visible + [dependencyConfig.name], was.Known()))
      decreases w.configs.Keys - graph.childs.Keys, 2
    {
      var name := dependencyConfig.name;
      ExploredStep(w, parentConfigName, visible, name, was.Known());
      if name in w.unavailable {
        CannotFollow(w, parentConfigName, name, Now().Known(), ExploredOne(w, parentConfigName, name, Now().Known()));
        return Err("download dependency");
      }
      WithoutRootNames(visible, w.root);
      WithoutRootStep(visible, name, w.root);
      ghost var middle := Now();
      var one := InsertEdge(parentConfigName, dependencyConfig, active);
      if one.Err? {
        return one;
      }
      KeptTwice(was, middle, Now(), active, parentConfigName);
      FollowsStep(was, middle, Now(), parentConfigName, visible, name);
      AddChild(parentConfigName, currentDependency, name, active, was, visible);
      r := Ok(());
    }

    /** Only dependencies have children; those of the root are kept in the graph alone. */
    method AddChild(parentConfigName: string, currentDependency: Option<string>, name: string,
                    ghost active: set<string>, ghost was: Snapshot, ghost visible: seq<string>)
      requires Valid(active) && parentConfigName in active && Kept(was, Now(), active - {parentConfigName})
      requires forall y :: y in visible + [name] ==> y in graph.childs && y !in w.unavailable
      requires currentDependency == if parentConfigName == w.root then None else Some(parentConfigName)
      requires parentConfigName != w.root ==> parentConfigName in children && children[parentConfigName] == visible
      requires w.root in was.childs && w.root in graph.childs
      requires graph.childs[w.root] == if parentConfigName == w.root then WithoutRoot(visible + [name], w.root) else was.childs[w.root]
      requires Follows(was, Now(), parentConfigName, visible + [name])
      modifies this`children
      ensures Progress(was, parentConfigName, active, visible + [name])
    {
      if currentDependency.Some? {
        SetChildren(w, graph.childs.Keys, children, loads, ignored, active, parentConfigName, children[parentConfigName] + [name]);
        children := children[parentConfigName := children[parentConfigName] + [name]];
      }
    }

    /** Try to insert the new edge; load the dependency and resolve its own dependencies if it is not in the graph yet. */
    method InsertEdge(parentConfigName: string, dependencyConfig: DependencyConfig, ghost active: set<string>)
      returns (r: Result<()>)
      requires Valid(active) && parentConfigName in active
      requires dependencyConfig.name in w.Target(parentConfigName)
      requires dependencyConfig.name in w.configs[parentConfigName]
      requires w.configs[parentConfigName][dependencyConfig.name] == dependencyConfig
      requires parentConfigName == w.root ==> dependencyConfig.name !in graph.childs[w.root]
      modifies this, graph
      ensures r.Ok? ==> Valid(active) && Kept(old(Now()), Now(), active) && dependencyConfig.name in graph.childs
      ensures r.Ok? ==> Now().Known() == ExploredOne(w, parentConfigName, dependencyConfig.name, old(Now()).Known())
      ensures r.Err? ==> w.BrokenIn(ExploredOne(w, parentConfigName, dependencyConfig.name, old(Now()).Known()))
      ensures r.Ok? ==> RootChild(old(graph.childs), graph.childs, w.root, parentConfigName, dependencyConfig.name)
      decreases w.configs.Keys - graph.childs.Keys, 1
    {
      var name := dependencyConfig.name;
      if name in graph.childs {
        RootEdges(graph.childs, w.root, name);
        var edge := graph.AddEdge(parentConfigName, name);
        assert graph.childs.Keys == old(graph.childs).Keys;
        return Ok(());
      }
      r := LoadDependency(parentConfigName, dependencyConfig, active);
    }

    /** Records a loaded dependency below its parent. */
    method AddNode(parentConfigName: string, name: string, ghost active: set<string>)
      requires Valid(active) && parentConfigName in active
      requires name in w.Target(parentConfigName) && name !in graph.childs && name in w.configs
      modifies this`loads, graph
      ensures Valid(active + {name}) && graph.childs.Keys == old(graph.childs).Keys + {name}
      ensures name !in children && name != w.root && name !in active
      ensures Now().Known() == old(Now()).Known()[name := false]
      ensures RootChild(old(graph.childs), graph.childs, w.root, parentConfigName, name)
    {
      EnterNode(w, graph.childs.Keys, children, loads, ignored, active, parentConfigName, name);
      loads := loads + [name];
      var edge := graph.InsertNodeAt(parentConfigName, name);
      assert graph.childs.Keys == old(graph.childs).Keys + {name};
      KnownOnEntry(old(graph.childs).Keys, ignored, name);
    }

    method LoadDependency(parentConfigName: string, dependencyConfig: DependencyConfig, ghost active: set<string>)
      returns (r: Result<()>)
      requires Valid(active) && parentConfigName in active
      requires dependencyConfig.name in w.Target(parentConfigName) && dependencyConfig.name !in graph.childs
      requires dependencyConfig.name in w.configs[parentConfigName]
      requires w.configs[parentConfigName][dependencyConfig.name] == dependencyConfig
      modifies this, graph
      ensures r.Ok? ==> Valid(active) && Kept(old(Now()), Now(), active) && dependencyConfig.name in graph.childs
      ensures r.Ok? ==> Now().Known() == ExploredOne(w, parentConfigName, dependencyConfig.name, old(Now()).Known())
      ensures r.Err? ==> w.BrokenIn(ExploredOne(w, parentConfigName, dependencyConfig.name, old(Now()).Known()))
      ensures r.Ok? ==> RootChild(old(graph.childs), graph.childs, w.root, parentConfigName, dependencyConfig.name)
      decreases w.configs.Keys - graph.childs.Keys, 0
    {
      var name := dependencyConfig.name;
      if name !in w.configs {
        CannotFollow(w, parentConfigName, name, Now().Known(), Now().Known());
        return Err("load dependency");
      }
      AddNode(parentConfigName, name, active);
      ghost var entered := Now();
      AskedByParent(w, parentConfigName, name);
      r := FinishNode(name, dependencyConfig.ignoreDependencies, active);
      if r.Ok? {
        KeptBelow(old(Now()), entered, Now(), active, name);
        ExploredNew(w, parentConfigName, name, old(Now()).Known(), Now().Known());
      }
    }

    /** The rest for a dependency that was just loaded. */
    method FinishNode(name: string, ignoreDependencies: bool, ghost active: set<string>) returns (r: Result<()>)
      requires Valid(active + {name}) && name in graph.childs && name !in active && name != w.root && name !in children
      requires ignoreDependencies ==> w.AskedWithout(name)
      modifies this, graph
      ensures r.Ok? ==> Valid(active) && Kept(old(Now()), Now(), active + {name} - {name}) && name in graph.childs
      ensures r.Ok? && ignoreDependencies ==> Now().Known() == old(Now()).Known()[name := true]
      ensures r.Ok? && !ignoreDependencies ==> Follows(old(Now()), Now(), name, w.Target(name))
      ensures r.Ok? ==> w.root in old(graph.childs) && w.root in graph.childs && graph.childs[w.root] == old(graph.childs)[w.root]
      ensures r.Err? ==> !ignoreDependencies && w.BrokenIn(OwnExplored(w, name, old(Now()).Known()))
      decreases w.configs.Keys - graph.childs.Keys, 6
    {
      r := ResolveOwn(name, ignoreDependencies, active);
      if r.Ok? {
        CloseNode(name, ignoreDependencies, active);
      }
    }

    /** What a dependency that was just loaded depends on itself, unless that is not asked for. */
    method ResolveOwn(name: string, ignoreDependencies: bool, ghost active: set<string>) returns (r: Result<()>)
      requires Valid(active + {name}) && name in graph.childs && name !in active && name != w.root && name !in children
      modifies this, graph
      ensures r.Ok? ==> Valid(active + {name}) && Kept(old(Now()), Now(), active + {name} - {name}) && name in graph.childs
      ensures r.Ok? && ignoreDependencies ==> name !in children && Now().Known() == old(Now()).Known()
      ensures r.Ok? && !ignoreDependencies ==>
                Settled(w, graph.childs.Keys, children, ignored, name) && Follows(old(Now()), Now(), name, w.Target(name))
      ensures r.Ok? ==> w.root in old(graph.childs) && w.root in graph.childs && graph.childs[w.root] == old(graph.childs)[w.root]
      ensures r.Err? ==> !ignoreDependencies && w.BrokenIn(OwnExplored(w, name, old(Now()).Known()))
      decreases w.configs.Keys - graph.childs.Keys, 5
    {
      TargetInConfig(w, name);
      if !ignoreDependencies && w.configs[name] != map[] {
        var list := TransformMap(w.configs[name]);
        TargetOfListing(w, name, list);
        r := ResolveRecursive(name, Some(name), list, active + {name});
      } else {
        EmptyConfig(w, name);
        r := Ok(());
      }
    }

    /** A loaded dependency is through, with its own dependencies or without. */
    ghost method CloseNode(name: string, skip: bool, active: set<string>)
      requires Valid(active + {name}) && name in graph.childs && name !in active && name != w.root
      requires if skip then name !in children && w.AskedWithout(name)
               else Settled(w, graph.childs.Keys, children, ignored, name)
      modifies this`ignored
      ensures Valid(active)
      ensures Now().Known() == if skip then old(Now()).Known()[name := true] else old(Now()).Known()
    {
      LeaveNode(w, graph.childs.Keys, children, loads, ignored, active, name, skip);
      ignored := if skip then ignored + {name} else ignored;
    }

    /** All is resolved. */
    lemma RootThrough(was: Snapshot)
      requires was.Known() == map[w.root := false] && Valid({w.root}) && Progress(was, w.root, {w.root}, w.Target(w.root))
      ensures Loaded(graph.childs.Keys, ignored) == OwnExplored(w, w.root, map[w.root := false])
      ensures graph.childs[w.root] == WithoutRoot(w.Target(w.root), w.root)
      ensures forall y :: y in w.Target(w.root) ==> y in graph.childs && y !in w.unavailable && y in w.configs[w.root]
    {
    }
  }

  // ---------------------------------------------------------------------------------------------
  // Whole resolutions
  // ---------------------------------------------------------------------------------------------

  /** No config asks for a dependency without its dependencies. */
  ghost predicate NothingIgnored(w: World) {
    forall x :: !w.AskedWithout(x)
  }

  /** Something that the resolution comes to cannot be downloaded or loaded. */
  ghost predicate CannotResolve(w: World)
    requires w.Valid()
  {
    w.BrokenIn(OwnExplored(w, w.root, map[w.root := false]))
  }

  /** Main result: resolution terminates, also on configs that depend on each other in a cycle. It fails if and only if
      something that it comes to is missing. Otherwise it returns the direct dependencies in order, has loaded every name once and exactly
      the names that are reached, and has given each of them its own dependencies as children. The graph it keeps
      has no cycles. */
  method Resolve(w: World) returns (r: Result<seq<string>>, childs: Graph, children: Children, loads: seq<string>)
    requires w.Valid()
    ensures r.Err? <==> CannotResolve(w)
    ensures r.Ok? ==> exists ignored :: Outcome(w, r.value, childs, children, loads, ignored)
    ensures r.Ok? ==> forall x :: x in r.value <==> x != w.root && AsksFor(w, w.root, x)
    ensures r.Ok? ==> forall c, x :: c in children ==> c in w.configs && (x in children[c] <==> AsksFor(w, c, x))
    ensures NothingIgnored(w) ==> (r.Err? <==> w.Broken())
    ensures r.Ok? && NothingIgnored(w) ==> forall x :: x in childs <==> Reaches(w.Targets(), w.root, x)
  {
    var resolver := new Resolver(w);
    var dependencies := TransformMap(w.configs[w.root]);
    TargetOfListing(w, w.root, dependencies);
    ghost var was := resolver.Now();
    assert was.Known() == map[w.root := false];
    var one := resolver.ResolveRecursive(w.root, None, dependencies, {w.root});
    childs, children, loads := resolver.graph.childs, resolver.children, resolver.loads;
    if one.Err? {
      assert CannotResolve(w);
      BrokenInIsBroken(w, OwnExplored(w, w.root, map[w.root := false]));
      return Err(one.error), childs, children, loads;
    }
    resolver.RootThrough(was);
    r := Ok(childs[w.root]);
    AllOutcomes(w, r.value, childs, children, loads, resolver.ignored);
  }

  /** What is known of a resolution that has succeeded. */
  lemma AllOutcomes(
    w: World, direct: seq<string>, childs: Graph, children: Children, loads: seq<string>, ignored: set<string>)
    requires Resolving(w, childs.Keys, children, loads, ignored, {w.root}) && Rooted(childs, w.root)
    requires direct == WithoutRoot(w.Target(w.root), w.root)
    requires forall y :: y in w.Target(w.root) ==> y in childs && y !in w.unavailable && y in w.configs[w.root]
    requires Loaded(childs.Keys, ignored) == OwnExplored(w, w.root, map[w.root := false])
    ensures Outcome(w, direct, childs, children, loads, ignored)
    ensures !CannotResolve(w)
    ensures forall x :: x in direct <==> x != w.root && AsksFor(w, w.root, x)
    ensures forall c, x :: c in children ==> c in w.configs && (x in children[c] <==> AsksFor(w, c, x))
    ensures NothingIgnored(w) ==> !w.Broken() && forall x :: x in childs <==> Reaches(w.Targets(), w.root, x)
  {
    Outcomes(w, direct, childs, children, loads, ignored);
    ChildrenExactly(w, direct, childs, children, loads, ignored);
    NothingBroken(w, direct, childs, children, loads, ignored);
    if NothingIgnored(w) {
      EverythingReached(w, childs.Keys, children, loads, ignored);
      NothingMissing(w, direct, childs, children, loads, ignored);
    }
  }

  lemma ChildrenExactly(
    w: World, direct: seq<string>, childs: Graph, children: Children, loads: seq<string>, ignored: set<string>)
    requires w.Valid() && Outcome(w, direct, childs, children, loads, ignored)
    ensures forall x :: x in direct <==> x != w.root && AsksFor(w, w.root, x)
    ensures forall c, x :: c in children ==> c in w.configs && (x in children[c] <==> AsksFor(w, c, x))
  {
    WithoutRootNames(w.Target(w.root), w.root);
    forall x ensures x in direct <==> x != w.root && AsksFor(w, w.root, x) {
      TargetExactly(w, w.root, x);
    }
    forall c, x | c in children ensures c in w.configs && (x in children[c] <==> AsksFor(w, c, x)) {
      assert c in loads;
      TargetExactly(w, c, x);
    }
  }

  lemma NothingBroken(
    w: World, direct: seq<string>, childs: Graph, children: Children, loads: seq<string>, ignored: set<string>)
    requires w.Valid() && Outcome(w, direct, childs, children, loads, ignored)
    ensures !CannotResolve(w)
  {
    assert OwnExplored(w, w.root, map[w.root := false]) == Loaded(childs.Keys, ignored);
  }

  lemma NothingMissing(
    w: World, direct: seq<string>, childs: Graph, children: Children, loads: seq<string>, ignored: set<string>)
    requires w.Valid() && NothingIgnored(w) && Outcome(w, direct, childs, children, loads, ignored)
    requires forall x :: x in childs <==> Reaches(w.Targets(), w.root, x)
    ensures !w.Broken()
  {
  }

  lemma Outcomes(
    w: World, direct: seq<string>, childs: Graph, children: Children, loads: seq<string>, ignored: set<string>)
    requires Resolving(w, childs.Keys, children, loads, ignored, {w.root}) && Rooted(childs, w.root)
    requires direct == WithoutRoot(w.Target(w.root), w.root)
    requires forall y :: y in w.Target(w.root) ==> y in childs && y !in w.unavailable && y in w.configs[w.root]
    requires Loaded(childs.Keys, ignored) == OwnExplored(w, w.root, map[w.root := false])
    ensures Outcome(w, direct, childs, children, loads, ignored)
  {
    forall x ensures x in loads <==> x in childs && x != w.root {
      assert x in Elements(loads) <==> x in loads;
    }
    forall x | x in childs && x != w.root ensures Settled(w, childs.Keys, children, ignored, x) {
    }
  }

  ghost predicate Outcome(
    w: World, direct: seq<string>, childs: Graph, children: Children, loads: seq<string>, ignored: set<string>)
    requires w.Valid()
  {
    && Rooted(childs, w.root) && childs.Keys <= w.configs.Keys
    && Loaded(childs.Keys, ignored) == OwnExplored(w, w.root, map[w.root := false])
    && direct == WithoutRoot(w.Target(w.root), w.root)
    && Distinct(loads) && (forall x :: x in loads <==> x in childs && x != w.root)
    && (forall x {:trigger Reaches(w.Targets(), w.root, x)} :: x in childs ==> Reaches(w.Targets(), w.root, x))
    && w.root !in ignored && (forall x :: x in ignored ==> w.AskedWithout(x))
    && (forall x :: x in childs && x !in ignored ==> forall y :: y in w.Target(x) ==> y in childs && y !in w.unavailable)
    && (forall x :: x in children ==> x in loads)
    && (forall x :: x in loads ==>
          if x in ignored || w.configs[x] == map[] then x !in children else x in children && children[x] == w.Target(x))
    && (forall y :: y in w.Target(w.root) ==> y in w.configs[w.root])
  }

  lemma EverythingReached(w: World, nodes: set<string>, children: Children, loads: seq<string>, ignored: set<string>)
    requires Resolving(w, nodes, children, loads, ignored, {w.root}) && NothingIgnored(w)
    requires forall y :: y in w.Target(w.root) ==> y in nodes
    ensures forall x :: x in nodes <==> Reaches(w.Targets(), w.root, x)
  {
    forall x | Reaches(w.Targets(), w.root, x) ensures x in nodes {
      var p :| PathBetween(w.Targets(), p, w.root, x);
      forall a, b | a in nodes && Edge(w.Targets(), a, b) ensures b in nodes {
        if a != w.root {
          assert Settled(w, nodes, children, ignored, a);
        }
      }
      ClosedContainsReached(w.Targets(), nodes, p);
    }
  }

  /** What is visible of a resolution from outside. */
  datatype Snapshot = Snapshot(childs: Graph, children: Children, ignored: set<string>) {

    ghost function Known(): map<string, bool> {
      Loaded(childs.Keys, ignored)
    }
  }

  /** Nodes are only added, and the recorded children of the given nodes do not change. */
  ghost predicate Kept(a: Snapshot, b: Snapshot, nodes: set<string>) {
    a.childs.Keys <= b.childs.Keys && forall x :: x in nodes ==> SameEntry(a.children, b.children, x)
  }

  lemma KeptTwice(a: Snapshot, b: Snapshot, c: Snapshot, active: set<string>, parent: string)
    requires Kept(a, b, active - {parent}) && Kept(b, c, active)
    ensures Kept(a, c, active - {parent})
  {
    forall x | x in active - {parent} ensures SameEntry(a.children, c.children, x) {
      assert SameEntry(b.children, c.children, x);
    }
  }

  lemma KeptBelow(a: Snapshot, b: Snapshot, c: Snapshot, active: set<string>, name: string)
    requires a.children == b.children && a.childs.Keys <= b.childs.Keys && name !in active
    requires Kept(b, c, active + {name} - {name})
    ensures Kept(a, c, active)
  {
    assert active + {name} - {name} == active;
  }

  /** The root gets exactly its own dependencies as children, except itself. */
  ghost predicate RootChild(before: Graph, after: Graph, root: string, parent: string, name: string) {
    && root in before && root in after
    && after[root] == before[root] + if parent == root && name != root then [name] else []
  }

  lemma {:induction false} WithoutRootNames(names: seq<string>, root: string)
    ensures forall x :: x in WithoutRoot(names, root) <==> x in names && x != root
  {
    if names != [] {
      WithoutRootNames(names[..|names|-1], root);
    }
  }

  lemma WithoutRootStep(names: seq<string>, name: string, root: string)
    ensures WithoutRoot(names + [name], root) == WithoutRoot(names, root) + if name == root then [] else [name]
  {
    assert (names + [name])[..|names|] == names;
  }

  /** Edges to the root are refused, edges from the root to other nodes are not. */
  lemma RootEdges(g: Graph, root: string, name: string)
    requires Rooted(g, root) && name in g
    ensures Reaches(g, name, root) <==> name == root
  {
    ReachesItself(g, root);
    if Reaches(g, name, root) && name != root {
      assert Reaches(g, root, name);
      var p :| PathBetween(g, p, root, name);
      assert Descends(g, root, name);
      ReachesTransitive(g, root, name, root);
    }
  }

  lemma VisibleIsNew(w: World, list: seq<DependencyConfig>, i: nat)
    requires i < |list| && DistinctNames(list)
    ensures list[i].name !in w.Visible(list[..i])
  {
    VisibleNames(w, list[..i], list[i].name);
  }
}
