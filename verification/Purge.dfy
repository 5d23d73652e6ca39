/** Purging deployments: one that several projects have deployed is only deleted when the last of them purges it. */
module Purge {
  import opened Sequences
  import opened Wrappers

  datatype Engine = Kubectl | Helm | NoEngine

  datatype DeploymentCache = DeploymentCache(name: string, projects: seq<string>, engine: Engine)

  // ---------------------------------------------------------------------------------------------
  // The remote cache
  // ---------------------------------------------------------------------------------------------

  function Deleted(list: seq<DeploymentCache>, name: string): seq<DeploymentCache> {
    if list == [] then []
    else (if list[0].name == name then [] else [list[0]]) + Deleted(list[1..], name)
  }

  /** The first entry of that name replaced, or a new one at the end. */
  function Stored(list: seq<DeploymentCache>, name: string, cache: DeploymentCache): seq<DeploymentCache> {
    if list == [] then [cache]
    else if list[0].name == name then [cache] + list[1..]
    else [list[0]] + Stored(list[1..], name, cache)
  }

  predicate Named(list: seq<DeploymentCache>, name: string) {
    exists i :: 0 <= i < |list| && list[i].name == name
  }

  ghost predicate DistinctNames(list: seq<DeploymentCache>) {
    list == [] || (!Named(list[1..], list[0].name) && DistinctNames(list[1..]))
  }

  lemma DeletedFrom(list: seq<DeploymentCache>, i: nat, name: string)
    requires i < |list|
    ensures Deleted(list[i..], name) ==
            if list[i].name == name then Deleted(list[i+1..], name) else [list[i]] + Deleted(list[i+1..], name)
  {
    assert list[i..][1..] == list[i+1..];
  }

  lemma Moved<T>(a: seq<T>, x: T, b: seq<T>)
    ensures a + ([x] + b) == (a + [x]) + b
  {
  }

  /** What a search that has come to position `i` still has to do. */
  lemma StoredFrom(list: seq<DeploymentCache>, i: nat, name: string, cache: DeploymentCache)
    requires i < |list|
    ensures list[i].name == name ==> list[..i] + Stored(list[i..], name, cache) == list[i := cache]
    ensures list[i].name != name ==>
              list[..i] + Stored(list[i..], name, cache) == list[..i+1] + Stored(list[i+1..], name, cache)
  {
    assert list[i..][1..] == list[i+1..];
    if list[i].name != name {
      Moved(list[..i], list[i], Stored(list[i+1..], name, cache));
      assert list[..i] + [list[i]] == list[..i+1];
    }
  }

  class RemoteCache {
    var deployments: seq<DeploymentCache>

    constructor (deployments: seq<DeploymentCache>)
      ensures this.deployments == deployments
    {
      this.deployments := deployments;
    }

    method GetDeployment(name: string) returns (cache: DeploymentCache, ok: bool)
      ensures ok <==> Named(deployments, name)
      ensures ok ==> Looked(deployments, name) == Some(cache)
      ensures !ok ==> cache == DeploymentCache(name, [], NoEngine)
    {
      for i := 0 to |deployments|
        invariant !Named(deployments[..i], name)
        invariant Looked(deployments, name) == Looked(deployments[i..], name)
      {
        if deployments[i].name == name {
          return deployments[i], true;
        }
        assert deployments[i..][1..] == deployments[i+1..];
      }
      assert deployments[..|deployments|] == deployments;
      return DeploymentCache(name, [], NoEngine), false;
    }

    method DeleteDeployment(name: string)
      modifies this
      ensures deployments == Deleted(old(deployments), name)
    {
      var newArr: seq<DeploymentCache> := [];
      for i := 0 to |deployments|
        invariant deployments == old(deployments)
        invariant newArr + Deleted(deployments[i..], name) == Deleted(deployments, name)
      {
        DeletedFrom(deployments, i, name);
        if deployments[i].name != name {
          Moved(newArr, deployments[i], Deleted(deployments[i+1..], name));
          newArr := newArr + [deployments[i]];
        }
      }
      assert newArr + [] == newArr;
      deployments := newArr;
    }

    method SetDeployment(name: string, cache: DeploymentCache)
      modifies this
      ensures deployments == Stored(old(deployments), name, cache)
    {
      for i := 0 to |deployments|
        invariant deployments == old(deployments)
        invariant deployments[..i] + Stored(deployments[i..], name, cache) == Stored(deployments, name, cache)
      {
        StoredFrom(deployments, i, name, cache);
        if deployments[i].name == name {
          deployments := deployments[i := cache];
          return;
        }
      }
      assert deployments[..|deployments|] == deployments;
      deployments := deployments + [cache];
    }
  }

  /** The first entry of that name. */
  function Looked(list: seq<DeploymentCache>, name: string): Option<DeploymentCache> {
    if list == [] then None
    else if list[0].name == name then Some(list[0])
    else Looked(list[1..], name)
  }

  // ---------------------------------------------------------------------------------------------
  // One purge
  // ---------------------------------------------------------------------------------------------

  datatype Request = Request(deployments: Option<seq<string>>, root: string, force: bool)

  /** The deployments to purge; none named means all of them. */
  predicate Selected(r: Request, name: string) {
    r.deployments.None? || r.deployments.value == [] || name in r.deployments.value
  }

  function Without(projects: seq<string>, root: string): seq<string> {
    if projects == [] then []
    else (if projects[0] == root then [] else [projects[0]]) + Without(projects[1..], root)
  }

  /** Whether the purge leaves the deployment alone because another project uses it. */
  predicate StillUsed(projects: seq<string>, root: string) {
    |projects| > 0 && (|projects| > 1 || projects[0] != root)
  }

  /** What becomes of one cache entry. */
  function PurgeOne(d: DeploymentCache, r: Request): Option<DeploymentCache> {
    if !Selected(r, d.name) then Some(d)
    else if !r.force && StillUsed(d.projects, r.root) then Some(d.(projects := Without(d.projects, r.root)))
    else None
  }

  function Remaining(d: DeploymentCache, r: Request): seq<DeploymentCache> {
    var left := PurgeOne(d, r);
    if left.Some? then [left.value] else []
  }

  function PurgeAll(list: seq<DeploymentCache>, r: Request): seq<DeploymentCache> {
    if list == [] then []
    else Remaining(list[0], r) + PurgeAll(list[1..], r)
  }

  function TakenDown(d: DeploymentCache, r: Request): seq<string> {
    if PurgeOne(d, r).None? && !d.engine.NoEngine? then [d.name] else []
  }

  /** The deployments that are deleted from the cluster, in that order: last deployed, first deleted. */
  function Undeployed(list: seq<DeploymentCache>, r: Request): seq<string> {
    if list == [] then []
    else Undeployed(list[1..], r) + TakenDown(list[0], r)
  }

  lemma {:induction false} DeleteAbsent(list: seq<DeploymentCache>, name: string)
    requires !Named(list, name)
    ensures Deleted(list, name) == list
  {
    if list != [] {
      NotNamedTail(list, name);
      DeleteAbsent(list[1..], name);
    }
  }

  lemma NotNamedTail(list: seq<DeploymentCache>, name: string)
    requires list != []
    ensures Named(list, name) <==> list[0].name == name || Named(list[1..], name)
  {
    if i :| 0 <= i < |list| && list[i].name == name {
      assert i > 0 ==> list[1..][i-1] == list[i];
    }
    if i :| 0 <= i < |list[1..]| && list[1..][i].name == name {
      assert list[1..][i] == list[i+1];
    }
  }

  lemma {:induction false} NamedIn(before: seq<DeploymentCache>, d: DeploymentCache, after: seq<DeploymentCache>)
    requires DistinctNames(before + [d] + after)
    ensures !Named(before, d.name) && !Named(after, d.name)
  {
    var all := before + [d] + after;
    if before == [] {
      assert all[1..] == after;
    } else {
      assert all[1..] == before[1..] + [d] + after;
      assert all[1..][|before|-1] == d;
      NamedIn(before[1..], d, after);
      NotNamedTail(before, d.name);
    }
  }

  lemma {:induction false} DeletedInMiddle(before: seq<DeploymentCache>, d: DeploymentCache, after: seq<DeploymentCache>)
    requires !Named(before, d.name) && !Named(after, d.name)
    ensures Deleted(before + [d] + after, d.name) == before + after
  {
    var all := before + [d] + after;
    if before == [] {
      assert all[1..] == after;
      DeleteAbsent(after, d.name);
    } else {
      assert all[1..] == before[1..] + [d] + after;
      NotNamedTail(before, d.name);
      DeletedInMiddle(before[1..], d, after);
      assert before == [before[0]] + before[1..];
    }
  }

  lemma {:induction false} StoredInMiddle(before: seq<DeploymentCache>, d: DeploymentCache, after: seq<DeploymentCache>,
                                          cache: DeploymentCache)
    requires !Named(before, d.name)
    ensures Stored(before + [d] + after, d.name, cache) == before + [cache] + after
  {
    var all := before + [d] + after;
    if before == [] {
      assert all[1..] == after;
    } else {
      assert all[1..] == before[1..] + [d] + after;
      NotNamedTail(before, d.name);
      StoredInMiddle(before[1..], d, after, cache);
      assert before == [before[0]] + before[1..];
    }
  }

  lemma {:induction false} PurgedNames(list: seq<DeploymentCache>, r: Request, name: string)
    requires !Named(list, name)
    ensures !Named(PurgeAll(list, r), name)
  {
    if list != [] {
      NotNamedTail(list, name);
      PurgedNames(list[1..], r, name);
    }
  }

  /** Purging changes nothing about names being distinct. */
  lemma {:induction false} PurgeKeepsDistinct(list: seq<DeploymentCache>, r: Request)
    requires DistinctNames(list)
    ensures DistinctNames(PurgeAll(list, r))
  {
    if list != [] {
      PurgeKeepsDistinct(list[1..], r);
      PurgedNames(list[1..], r, list[0].name);
      var first := PurgeOne(list[0], r);
      if first.Some? {
        assert PurgeAll(list, r)[1..] == PurgeAll(list[1..], r);
      } else {
        assert PurgeAll(list, r) == PurgeAll(list[1..], r);
      }
    }
  }

  /** The projects other than the one that purges. */
  method OtherProjects(projects: seq<string>, rootName: string) returns (newProjects: seq<string>)
    ensures newProjects == Without(projects, rootName)
  {
    newProjects := [];
    for i := 0 to |projects|
      invariant newProjects + Without(projects[i..], rootName) == Without(projects, rootName)
    {
      WithoutFrom(projects, i, rootName);
      if projects[i] != rootName {
        Moved(newProjects, projects[i], Without(projects[i+1..], rootName));
        newProjects := newProjects + [projects[i]];
      }
    }
    assert newProjects + [] == newProjects;
  }

  lemma WithoutFrom(projects: seq<string>, i: nat, root: string)
    requires i < |projects|
    ensures Without(projects[i..], root) ==
            if projects[i] == root then Without(projects[i+1..], root) else [projects[i]] + Without(projects[i+1..], root)
  {
    assert projects[i..][1..] == projects[i+1..];
  }

  /** One round of the loop: the entries from this one on are purged, the ones before are as they were. */
  method PurgeDeployment(cache: RemoteCache, d: DeploymentCache, r: Request,
                         ghost before: seq<DeploymentCache>, ghost after: seq<DeploymentCache>)
    returns (undeployed: seq<string>)
    requires cache.deployments == before + [d] + after
    requires !Named(before, d.name) && !Named(after, d.name)
    modifies cache
    ensures cache.deployments == before + Remaining(d, r) + after
    ensures undeployed == TakenDown(d, r)
  {
    // the request names other deployments only
    if r.deployments.Some? && r.deployments.value != [] && d.name !in r.deployments.value {
      return [];
    }
    // other projects still use it
    if !r.force && |d.projects| > 0 && (|d.projects| > 1 || d.projects[0] != r.root) {
      var newProjects := OtherProjects(d.projects, r.root);
      StoredInMiddle(before, d, after, d.(projects := newProjects));
      cache.SetDeployment(d.name, d.(projects := newProjects));
      return [];
    }
    DeletedInMiddle(before, d, after);
    cache.DeleteDeployment(d.name);
    assert before + [] + after == before + after;
    return if d.engine.NoEngine? then [] else [d.name];
  }

  lemma OneRound(list: seq<DeploymentCache>, i: nat, r: Request)
    requires DistinctNames(list) && i < |list|
    ensures var rest := PurgeAll(list[i+1..], r);
            && list[..i+1] + rest == list[..i] + [list[i]] + rest
            && !Named(list[..i], list[i].name) && !Named(rest, list[i].name)
    ensures list[..i] + PurgeAll(list[i..], r) == list[..i] + Remaining(list[i], r) + PurgeAll(list[i+1..], r)
    ensures Undeployed(list[i..], r) == Undeployed(list[i+1..], r) + TakenDown(list[i], r)
  {
    assert list == list[..i] + [list[i]] + list[i+1..];
    NamedIn(list[..i], list[i], list[i+1..]);
    PurgedNames(list[i+1..], r, list[i].name);
    assert list[i..][1..] == list[i+1..] && list[i..][0] == list[i];
  }

  /** `rootName` is absent when the command does not run in a project; then everything selected is deleted. */
  method Purge(cache: RemoteCache, deployments: Option<seq<string>>, rootName: Option<string>, forcePurge: bool)
    returns (undeployed: seq<string>)
    requires DistinctNames(cache.deployments)
    modifies cache
    ensures var r := Request(deployments, if rootName.Some? then rootName.value else "", forcePurge || rootName.None?);
            && cache.deployments == PurgeAll(old(cache.deployments), r)
            && undeployed == Undeployed(old(cache.deployments), r)
    ensures forall d :: d in old(cache.deployments) ==>
              PurgedAsAsked(cache.deployments, undeployed, deployments, rootName, forcePurge, d)
    ensures Reversed(undeployed, old(cache.deployments))
  {
    var r := Request(deployments, if rootName.Some? then rootName.value else "", forcePurge || rootName.None?);
    var deploymentCaches := cache.deployments;
    undeployed := [];
    var i := |deploymentCaches|;
    assert deploymentCaches[..i] + PurgeAll(deploymentCaches[i..], r) == deploymentCaches;
    while i > 0
      invariant 0 <= i <= |deploymentCaches|
      invariant cache.deployments == deploymentCaches[..i] + PurgeAll(deploymentCaches[i..], r)
      invariant undeployed == Undeployed(deploymentCaches[i..], r)
    {
      i := i - 1;
      OneRound(deploymentCaches, i, r);
      ghost var before, after := deploymentCaches[..i], PurgeAll(deploymentCaches[i+1..], r);
      var takenDown := PurgeDeployment(cache, deploymentCaches[i], r, before, after);
      undeployed := undeployed + takenDown;
    }
    assert deploymentCaches[0..] == deploymentCaches;
    forall d | d in deploymentCaches
      ensures PurgedAsAsked(cache.deployments, undeployed, deployments, rootName, forcePurge, d)
    {
      EachPurgedAsAsked(deploymentCaches, deployments, rootName, forcePurge, d);
    }
    UndeployedReversed(deploymentCaches, r);
  }

  /** Each two of the names belong to entries that are in the list the other way round. */
  ghost predicate Reversed(names: seq<string>, list: seq<DeploymentCache>) {
    forall a, b :: 0 <= a < b < |names| ==> OtherWayRound(list, names[a], names[b])
  }

  ghost predicate OtherWayRound(list: seq<DeploymentCache>, x: string, y: string) {
    exists i, j :: 0 <= j < i < |list| && list[i].name == x && list[j].name == y
  }

  /** What was deployed last is deleted first. */
  lemma {:induction false} UndeployedReversed(list: seq<DeploymentCache>, r: Request)
    ensures forall a :: 0 <= a < |Undeployed(list, r)| ==> Named(list, Undeployed(list, r)[a])
    ensures Reversed(Undeployed(list, r), list)
  {
    if list != [] {
      UndeployedReversed(list[1..], r);
      var rest, names := Undeployed(list[1..], r), Undeployed(list, r);
      forall a | 0 <= a < |names| ensures Named(list, names[a]) {
        NotNamedTail(list, names[a]);
        assert a < |rest| ==> Named(list[1..], rest[a]);
      }
      forall a, b | 0 <= a < b < |names| ensures OtherWayRound(list, names[a], names[b]) {
        if b < |rest| {
          assert OtherWayRound(list[1..], rest[a], rest[b]);
          var i, j :| 0 <= j < i < |list[1..]| && list[1..][i].name == rest[a] && list[1..][j].name == rest[b];
          assert list[i+1].name == names[a] && list[j+1].name == names[b];
        } else {
          assert Named(list[1..], rest[a]);
          var i :| 0 <= i < |list[1..]| && list[1..][i].name == rest[a];
          assert list[i+1].name == names[a] && list[0].name == names[b];
        }
      }
    }
  }

  /** What a purge has done to one entry: nothing, unless it is named or none is; it is gone, and deleted unless it never
      had an engine, if the purge is forced or made outside of a project, or no other project uses it; otherwise only the
      purging project is no longer listed. */
  ghost predicate PurgedAsAsked(
    after: seq<DeploymentCache>, undeployed: seq<string>, names: Option<seq<string>>, rootName: Option<string>, force: bool,
    d: DeploymentCache)
  {
    if names.Some? && names.value != [] && d.name !in names.value then
      d in after && d.name !in undeployed
    else if force || rootName.None? || d.projects == [] || d.projects == [rootName.value] then
      !Named(after, d.name) && (d.name in undeployed <==> d.engine != NoEngine)
    else
      && d.name !in undeployed
      && exists e :: e in after && e.name == d.name && e.engine == d.engine
           && forall x :: x in e.projects <==> x in d.projects && x != rootName.value
  }

  // ---------------------------------------------------------------------------------------------
  // Deploying
  // ---------------------------------------------------------------------------------------------

  /** The cache entry that deploying leaves behind: the project is added unless it is listed already. */
  function WithUser(d: DeploymentCache, rootName: Option<string>, engine: Engine): DeploymentCache {
    DeploymentCache(d.name,
                    if rootName.Some? && rootName.value !in d.projects then d.projects + [rootName.value] else d.projects,
                    engine)
  }

  function Deployed(list: seq<DeploymentCache>, name: string, rootName: Option<string>, engine: Engine): seq<DeploymentCache> {
    var found := Looked(list, name);
    Stored(list, name, WithUser(if found.Some? then found.value else DeploymentCache(name, [], NoEngine), rootName, engine))
  }

  method RecordDeployment(cache: RemoteCache, name: string, rootName: Option<string>, engine: Engine)
    modifies cache
    ensures cache.deployments == Deployed(old(cache.deployments), name, rootName, engine)
    ensures Recorded(old(cache.deployments), cache.deployments, name, rootName, engine)
  {
    var deployCache, ok := cache.GetDeployment(name);
    deployCache := deployCache.(engine := engine);
    if rootName.Some? && rootName.value !in deployCache.projects {
      deployCache := deployCache.(projects := deployCache.projects + [rootName.value]);
    }
    LookedIsNamed(cache.deployments, name);
    ghost var before := cache.deployments;
    cache.SetDeployment(name, deployCache);
    DeployedIsRecorded(before, name, rootName, engine);
  }

  /** The list has one entry more, or as many. Its first entry of that name has the engine, and the project besides those
      that were listed; what other names have is as before. */
  ghost predicate Recorded(
    before: seq<DeploymentCache>, after: seq<DeploymentCache>, name: string, rootName: Option<string>, engine: Engine)
  {
    && |after| == |before| + (if Named(before, name) then 0 else 1)
    && (exists i :: FirstNamed(after, i, name) && after[i].engine == engine
          && forall x :: x in after[i].projects <==>
               rootName == Some(x) || exists j :: FirstNamed(before, j, name) && x in before[j].projects)
    && (forall i :: 0 <= i < |before| && before[i].name != name ==> after[i] == before[i])
  }

  ghost predicate FirstNamed(list: seq<DeploymentCache>, i: int, name: string) {
    0 <= i < |list| && list[i].name == name && forall j :: 0 <= j < i ==> list[j].name != name
  }

  /** Where the entry is that a look-up finds and a store replaces. */
  lemma {:induction false} FirstStored(list: seq<DeploymentCache>, cache: DeploymentCache) returns (i: nat)
    ensures FirstNamed(Stored(list, cache.name, cache), i, cache.name) && Stored(list, cache.name, cache)[i] == cache
    ensures if Named(list, cache.name) then
              && FirstNamed(list, i, cache.name) && Looked(list, cache.name) == Some(list[i])
              && Stored(list, cache.name, cache) == list[i := cache]
            else
              Looked(list, cache.name) == None && Stored(list, cache.name, cache) == list + [cache]
  {
    i := 0;
    if list != [] && list[0].name != cache.name {
      NotNamedTail(list, cache.name);
      var k := FirstStored(list[1..], cache);
      i := k + 1;
      assert list == [list[0]] + list[1..];
    }
  }

  lemma DeployedIsRecorded(list: seq<DeploymentCache>, name: string, rootName: Option<string>, engine: Engine)
    ensures Recorded(list, Deployed(list, name, rootName, engine), name, rootName, engine)
  {
    LookedIsNamed(list, name);
    var found := Looked(list, name);
    var d := if found.Some? then found.value else DeploymentCache(name, [], NoEngine);
    var cache := WithUser(d, rootName, engine);
    var i := FirstStored(list, cache);
    WithUserCounts(d, rootName, engine);
    var after := Deployed(list, name, rootName, engine);
    forall x ensures x in after[i].projects <==>
                     rootName == Some(x) || exists j :: FirstNamed(list, j, name) && x in list[j].projects {
      if j :| FirstNamed(list, j, name) && x in list[j].projects {
        assert Named(list, name);
        assert list[i].name == name && list[j].name == name;
      }
    }
  }

  lemma {:induction false} LookedIsNamed(list: seq<DeploymentCache>, name: string)
    ensures Looked(list, name).Some? <==> Named(list, name)
    ensures Looked(list, name).Some? ==> Looked(list, name).value.name == name
  {
    if list != [] {
      NotNamedTail(list, name);
      LookedIsNamed(list[1..], name);
    }
  }

  lemma {:induction false} LookedAfterStore(list: seq<DeploymentCache>, cache: DeploymentCache, name: string)
    ensures Looked(Stored(list, cache.name, cache), name) == if name == cache.name then Some(cache) else Looked(list, name)
  {
    if list != [] && list[0].name != cache.name {
      LookedAfterStore(list[1..], cache, name);
    }
  }

  lemma {:induction false} StoreKeepsDistinct(list: seq<DeploymentCache>, cache: DeploymentCache)
    requires DistinctNames(list)
    ensures DistinctNames(Stored(list, cache.name, cache))
  {
    if list != [] && list[0].name != cache.name {
      StoreKeepsDistinct(list[1..], cache);
      LookedIsNamed(list[1..], list[0].name);
      LookedIsNamed(Stored(list[1..], cache.name, cache), list[0].name);
      LookedAfterStore(list[1..], cache, list[0].name);
    }
  }

  lemma {:induction false} LookedAfterPurge(list: seq<DeploymentCache>, r: Request, name: string)
    requires DistinctNames(list)
    ensures Looked(PurgeAll(list, r), name) ==
            var found := Looked(list, name); if found.Some? then PurgeOne(found.value, r) else None
  {
    if list != [] {
      LookedAfterPurge(list[1..], r, name);
      LookedIsNamed(list[1..], name);
      var first := PurgeOne(list[0], r);
      if first.Some? {
        assert PurgeAll(list, r)[1..] == PurgeAll(list[1..], r);
      } else {
        assert PurgeAll(list, r) == PurgeAll(list[1..], r);
      }
    }
  }

  /** What is deleted from the cluster is what disappears from the cache, except for entries that never had an engine. */
  lemma {:induction false} UndeployedAreRemoved(list: seq<DeploymentCache>, r: Request, name: string)
    requires DistinctNames(list)
    ensures name in Undeployed(list, r) <==>
            && Named(list, name) && !Named(PurgeAll(list, r), name)
            && var found := Looked(list, name); found.Some? && !found.value.engine.NoEngine?
  {
    LookedIsNamed(list, name);
    LookedAfterPurge(list, r, name);
    LookedIsNamed(PurgeAll(list, r), name);
    if list != [] {
      UndeployedAreRemoved(list[1..], r, name);
      LookedIsNamed(list[1..], name);
      LookedAfterPurge(list[1..], r, name);
      LookedIsNamed(PurgeAll(list[1..], r), name);
    }
  }

  lemma {:induction false} LookedUp(list: seq<DeploymentCache>, d: DeploymentCache)
    requires DistinctNames(list) && d in list
    ensures Looked(list, d.name) == Some(d)
  {
    if list[0] != d {
      assert list == [list[0]] + list[1..] && d in list[1..];
      LookedUp(list[1..], d);
      LookedIsNamed(list[1..], d.name);
    }
  }

  lemma {:induction false} LookedIsIn(list: seq<DeploymentCache>, name: string)
    ensures Looked(list, name).Some? ==> Looked(list, name).value in list
  {
    if list != [] {
      LookedIsIn(list[1..], name);
    }
  }

  lemma {:induction false} WithoutExactly(projects: seq<string>, root: string, x: string)
    ensures x in Without(projects, root) <==> x in projects && x != root
  {
    if projects != [] {
      assert projects == [projects[0]] + projects[1..];
      WithoutExactly(projects[1..], root, x);
    }
  }

  lemma EachPurgedAsAsked(
    list: seq<DeploymentCache>, names: Option<seq<string>>, rootName: Option<string>, force: bool, d: DeploymentCache)
    requires DistinctNames(list) && d in list
    ensures var r := Request(names, if rootName.Some? then rootName.value else "", force || rootName.None?);
            PurgedAsAsked(PurgeAll(list, r), Undeployed(list, r), names, rootName, force, d)
  {
    var r := Request(names, if rootName.Some? then rootName.value else "", force || rootName.None?);
    var after := PurgeAll(list, r);
    LookedUp(list, d);
    LookedIsNamed(list, d.name);
    LookedAfterPurge(list, r, d.name);
    LookedIsNamed(after, d.name);
    LookedIsIn(after, d.name);
    UndeployedAreRemoved(list, r, d.name);
    forall x {:trigger x in Without(d.projects, r.root)} ensures x in Without(d.projects, r.root) <==> x in d.projects && x != r.root {
      WithoutExactly(d.projects, r.root, x);
    }
  }

  // ---------------------------------------------------------------------------------------------
  // Histories
  // ---------------------------------------------------------------------------------------------

  datatype Action =
    | Deploy(name: string, rootName: Option<string>, engine: Engine)
    | PurgeRun(request: Request)

  function After(history: seq<Action>): (list: seq<DeploymentCache>) {
    if history == [] then []
    else
      var before := After(history[..|history|-1]);
      match history[|history|-1]
      case Deploy(name, rootName, engine) => Deployed(before, name, rootName, engine)
      case PurgeRun(r) => PurgeAll(before, r)
  }

  lemma {:induction false} NamesStayDistinct(history: seq<Action>)
    ensures DistinctNames(After(history))
  {
    if history != [] {
      var before := After(history[..|history|-1]);
      NamesStayDistinct(history[..|history|-1]);
      match history[|history|-1]
      case Deploy(name, rootName, engine) =>
        LookedIsNamed(before, name);
        var found := Looked(before, name);
        StoreKeepsDistinct(before, WithUser(if found.Some? then found.value else DeploymentCache(name, [], NoEngine), rootName, engine));
      case PurgeRun(r) =>
        PurgeKeepsDistinct(before, r);
    }
  }

  /** The action ends the project's use of the deployment. */
  predicate Ends(a: Action, name: string, root: string) {
    a.PurgeRun? && Selected(a.request, name) && (a.request.force || a.request.root == root)
  }

  /** The project has deployed it and no purge since then has ended its use. */
  ghost predicate Uses(history: seq<Action>, name: string, root: string) {
    exists k ::
      && 0 <= k < |history|
      && history[k].Deploy? && history[k].name == name && history[k].rootName == Some(root)
      && forall j :: k < j < |history| ==> !Ends(history[j], name, root)
  }

  /** Every deployment of that name was made from within a project. */
  ghost predicate AlwaysInProject(history: seq<Action>, name: string) {
    forall k :: 0 <= k < |history| && history[k].Deploy? && history[k].name == name ==> history[k].rootName.Some?
  }

  lemma UsesAfterOne(history: seq<Action>, a: Action, name: string, root: string)
    ensures Uses(history + [a], name, root) <==>
            if a.Deploy? && a.name == name && a.rootName == Some(root) then true else Uses(history, name, root) && !Ends(a, name, root)
  {
    var all := history + [a];
    assert all[|history|] == a;
    if Uses(history, name, root) && !Ends(a, name, root) {
      var k :| && 0 <= k < |history|
               && history[k].Deploy? && history[k].name == name && history[k].rootName == Some(root)
               && forall j :: k < j < |history| ==> !Ends(history[j], name, root);
      assert all[k] == history[k];
      assert forall j :: k < j < |history| ==> all[j] == history[j];
    }
    if Uses(all, name, root) && !(a.Deploy? && a.name == name && a.rootName == Some(root)) {
      var k :| && 0 <= k < |all|
               && all[k].Deploy? && all[k].name == name && all[k].rootName == Some(root)
               && forall j :: k < j < |all| ==> !Ends(all[j], name, root);
      assert k < |history| && history[k] == all[k];
      assert forall j :: k < j < |history| ==> all[j] == history[j];
    }
  }

  lemma {:induction false} WithoutIsRemoval(projects: seq<string>, root: string)
    ensures forall p :: p in Without(projects, root) <==> p in projects && p != root
    ensures Distinct(projects) ==> Distinct(Without(projects, root))
  {
    if projects != [] {
      WithoutIsRemoval(projects[1..], root);
      assert Distinct(projects) ==> projects[0] !in projects[1..];
    }
  }

  predicate NoOtherUser(projects: seq<string>, root: string) {
    forall p :: p in projects ==> p == root
  }

  /** When the purge deletes a deployment that no one else uses, and only such: unless the project is listed twice. */
  lemma DeletedByLastUser(d: DeploymentCache, r: Request)
    requires Selected(r, d.name) && !r.force
    ensures (PurgeOne(d, r).None? <==> NoOtherUser(d.projects, r.root)) <==> !(|d.projects| > 1 && NoOtherUser(d.projects, r.root))
    ensures Distinct(d.projects) ==> (PurgeOne(d, r).None? <==> NoOtherUser(d.projects, r.root))
  {
    if |d.projects| == 1 {
      assert d.projects[0] in d.projects;
    } else if |d.projects| > 1 {
      assert d.projects[0] in d.projects && d.projects[1] in d.projects;
    }
  }

  /** The entry lists exactly the projects that use the deployment, each once; there is an entry when there are users. */
  ghost predicate Counted(history: seq<Action>, name: string) {
    var found := Looked(After(history), name);
    && (found.Some? ==> Distinct(found.value.projects))
    && (forall p :: Uses(history, name, p) <==> found.Some? && p in found.value.projects)
    && (AlwaysInProject(history, name) && found.Some? ==> found.value.projects != [])
  }

  lemma WithUserCounts(d: DeploymentCache, rootName: Option<string>, engine: Engine)
    ensures forall p :: p in WithUser(d, rootName, engine).projects <==> p in d.projects || rootName == Some(p)
    ensures Distinct(d.projects) ==> Distinct(WithUser(d, rootName, engine).projects)
  {
  }

  lemma LookedAfterDeploy(history: seq<Action>, a: Action, name: string)
    requires a.Deploy?
    ensures var found := Looked(After(history), a.name);
            Looked(After(history + [a]), name) ==
            if name != a.name then Looked(After(history), name)
            else Some(WithUser(if found.Some? then found.value else DeploymentCache(a.name, [], NoEngine), a.rootName, a.engine))
  {
    var all := history + [a];
    assert all[..|all|-1] == history && all[|history|] == a;
    LookedIsNamed(After(history), a.name);
    var found := Looked(After(history), a.name);
    var entry := WithUser(if found.Some? then found.value else DeploymentCache(a.name, [], NoEngine), a.rootName, a.engine);
    assert entry.name == a.name;
    LookedAfterStore(After(history), entry, name);
  }

  lemma ProjectsBefore(history: seq<Action>, a: Action, name: string)
    ensures AlwaysInProject(history + [a], name) ==>
              AlwaysInProject(history, name) && (a.Deploy? && a.name == name ==> a.rootName.Some?)
  {
    var all := history + [a];
    assert all[|history|] == a;
    assert forall k :: 0 <= k < |history| ==> all[k] == history[k];
  }

  lemma CountedAfterDeploy(history: seq<Action>, a: Action, name: string)
    requires a.Deploy? && Counted(history, name)
    ensures Counted(history + [a], name)
  {
    var all := history + [a];
    LookedAfterDeploy(history, a, name);
    ProjectsBefore(history, a, name);
    var found := Looked(After(history), name);
    var d := if found.Some? then found.value else DeploymentCache(name, [], NoEngine);
    WithUserCounts(d, a.rootName, a.engine);
    forall p ensures Uses(all, name, p) <==> Looked(After(all), name).Some? && p in Looked(After(all), name).value.projects {
      UsesAfterOne(history, a, name, p);
    }
  }

  lemma CountedAfterPurge(history: seq<Action>, a: Action, name: string)
    requires a.PurgeRun? && DistinctNames(After(history)) && Counted(history, name)
    ensures Counted(history + [a], name)
  {
    var all, before := history + [a], After(history);
    assert all[..|all|-1] == history && all[|history|] == a;
    LookedAfterPurge(before, a.request, name);
    LookedIsNamed(before, name);
    var found := Looked(before, name);
    ProjectsBefore(history, a, name);
    if found.Some? && Selected(a.request, name) && !a.request.force {
      WithoutIsRemoval(found.value.projects, a.request.root);
      DeletedByLastUser(found.value, a.request);
      if p :| p in found.value.projects && p != a.request.root {
        assert p in Without(found.value.projects, a.request.root);
      }
    }
    forall p ensures Uses(all, name, p) <==> Looked(After(all), name).Some? && p in Looked(After(all), name).value.projects {
      UsesAfterOne(history, a, name, p);
    }
  }

  lemma {:induction false} AlwaysCounted(history: seq<Action>, name: string)
    ensures Counted(history, name)
  {
    if history != [] {
      var earlier, a := history[..|history|-1], history[|history|-1];
      assert history == earlier + [a];
      AlwaysCounted(earlier, name);
      NamesStayDistinct(earlier);
      if a.Deploy? {
        CountedAfterDeploy(earlier, a, name);
      } else {
        CountedAfterPurge(earlier, a, name);
      }
    }
  }

  /** Main result: after any history, a deployment whose users all were projects is in the cache exactly as long as one of
      them has not purged it, and the entry lists exactly those. */
  lemma InCacheWhileUsed(history: seq<Action>, name: string)
    requires AlwaysInProject(history, name)
    ensures Named(After(history), name) <==> exists p :: Uses(history, name, p)
    ensures forall p :: Uses(history, name, p) <==>
                        Looked(After(history), name).Some? && p in Looked(After(history), name).value.projects
  {
    AlwaysCounted(history, name);
    LookedIsNamed(After(history), name);
    var found := Looked(After(history), name);
    if found.Some? {
      assert Uses(history, name, found.value.projects[0]);
    }
  }

  lemma {:induction false} WithoutAbsent(projects: seq<string>, root: string)
    requires root !in projects
    ensures Without(projects, root) == projects
  {
    if projects != [] {
      WithoutAbsent(projects[1..], root);
    }
  }

  /** Main result: the purge that deletes a deployment is the selecting one by its last user. One by a project that does
      not use it, or that does not select it, leaves its entry as it is. */
  lemma DeletedExactlyByLastUser(history: seq<Action>, r: Request, name: string)
    requires AlwaysInProject(history, name) && Named(After(history), name) && !r.force
    ensures !Named(After(history + [PurgeRun(r)]), name) <==> Selected(r, name) && forall p :: Uses(history, name, p) ==> p == r.root
    ensures !Uses(history, name, r.root) || !Selected(r, name) ==>
              Looked(After(history + [PurgeRun(r)]), name) == Looked(After(history), name)
  {
    var all := history + [PurgeRun(r)];
    assert all[..|all|-1] == history;
    NamesStayDistinct(history);
    LookedAfterPurge(After(history), r, name);
    LookedIsNamed(After(history), name);
    LookedIsNamed(After(all), name);
    InCacheWhileUsed(history, name);
    AlwaysCounted(history, name);
    var d := Looked(After(history), name).value;
    assert d.projects[0] in d.projects;
    if Selected(r, name) {
      DeletedByLastUser(d, r);
      if !Uses(history, name, r.root) {
        WithoutAbsent(d.projects, r.root);
      }
    }
  }
}
