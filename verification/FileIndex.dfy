/** The client's index of synced files: a map from slash-rooted paths that is kept closed under parent directories. */
module FileIndex {
  import opened Paths

  datatype FileInformation = FileInformation(name: string, size: int, mtime: int, isDirectory: bool)

  type FileMap = map<string, FileInformation>

  function Directory(name: string): FileInformation {
    FileInformation(name, 0, 0, true)
  }

  // ---------------------------------------------------------------------------------------------
  // Specification
  // ---------------------------------------------------------------------------------------------

  /** The non-empty paths made of more than `n` of the parts. */
  function LongerThan(parts: seq<string>, n: nat): set<string> {
    set i | n < i <= |parts| && Join(parts[..i]) != "" :: Join(parts[..i])
  }

  /** The paths that creating a directory touches: the directory and the ancestors named before it. */
  function Touched(dirpath: string): set<string> {
    LongerThan(Split(dirpath), 1)
  }

  function WithDirectories(m: FileMap, paths: set<string>): FileMap {
    map k | k in m.Keys + paths :: if k in m then m[k] else Directory(k)
  }

  function Created(m: FileMap, dirpath: string): FileMap {
    if dirpath == "/" then m else WithDirectories(m, Touched(dirpath))
  }

  lemma OneMoreDirectory(m: FileMap, paths: set<string>, p: string)
    ensures WithDirectories(m, paths + {p}) ==
            if p in WithDirectories(m, paths) then WithDirectories(m, paths) else WithDirectories(m, paths)[p := Directory(p)]
  {
  }

  lemma OnePartLess(parts: seq<string>, n: nat)
    requires n < |parts|
    ensures LongerThan(parts, n) == LongerThan(parts, n + 1) + if Join(parts[..n+1]) != "" then {Join(parts[..n+1])} else {}
  {
  }

  function Removed(m: FileMap, dirpath: string): FileMap {
    if dirpath in m then map k | k in m && !Covers(dirpath, k) :: m[k] else m
  }

  class Index {
    var fileMap: FileMap

    constructor ()
      ensures fileMap == map[]
    {
      fileMap := map[];
    }

    method Set(file: FileInformation)
      modifies this
      ensures fileMap == old(fileMap)[file.name := file]
    {
      fileMap := fileMap[file.name := file];
    }

    method CreateDirInFileMap(dirpath: string)
      modifies this
      ensures fileMap == Created(old(fileMap), dirpath)
      ensures AddsDirectories(old(fileMap), fileMap, dirpath)
    {
      CreatedAdds(fileMap, dirpath);
      if dirpath == "/" {
        return;
      }
      var pathParts := Split(dirpath);
      var i := |pathParts|;
      assert LongerThan(pathParts, i) == {};
      while i > 1
        invariant 1 <= i <= |pathParts|
        invariant fileMap == WithDirectories(old(fileMap), LongerThan(pathParts, i))
      {
        var subPath := Join(pathParts[..i]);
        OnePartLess(pathParts, i - 1);
        OneMoreDirectory(old(fileMap), LongerThan(pathParts, i), subPath);
        if subPath !in fileMap && subPath != "" {
          fileMap := fileMap[subPath := Directory(subPath)];
        }
        i := i - 1;
      }
    }

    method RemoveDirInFileMap(dirpath: string)
      modifies this
      ensures fileMap == Removed(old(fileMap), dirpath)
      ensures dirpath !in old(fileMap) ==> fileMap == old(fileMap)
      ensures dirpath in old(fileMap) ==>
                fileMap == map k | k in old(fileMap) && k != dirpath && !(dirpath + "/" <= k) :: old(fileMap)[k]
    {
      forall k ensures Above(dirpath, k) <==> dirpath + "/" <= k {
        AboveIsSlashPrefix(dirpath, k);
      }
      if dirpath in fileMap {
        fileMap := fileMap - {dirpath};
        var prefix := dirpath + "/";
        var keys := fileMap.Keys;
        while keys != {}
          invariant keys <= old(fileMap).Keys - {dirpath}
          invariant fileMap == map k | k in old(fileMap) && k != dirpath && (k in keys || !Above(dirpath, k)) :: old(fileMap)[k]
          decreases keys
        {
          var key :| key in keys;
          keys := keys - {key};
          AboveIsSlashPrefix(dirpath, key);
          if prefix <= key {
            fileMap := fileMap - {key};
          }
        }
      }
    }
  }

  // ---------------------------------------------------------------------------------------------
  // The index stays a tree
  // ---------------------------------------------------------------------------------------------

  /** Every entry's ancestors are entries. */
  ghost predicate Tree(m: FileMap) {
    forall k, p :: k in m && p != "" && Above(p, k) ==> p in m
  }

  /** For a slash-rooted path the touched ones are the path and its ancestors. */
  lemma TouchedIsCovering(p: string, q: string)
    requires p != "" && p[0] == '/'
    ensures q in Touched(p) <==> q != "" && Covers(q, p)
  {
    var parts := Split(p);
    JoinSplit(p, '/');
    assert parts[..|parts|] == parts && parts[0] == "" && |parts| >= 2;
    assert Join(parts[..1]) == "" by { assert parts[..1] == [""]; }
    if i :| 2 <= i <= |parts| && q == Join(parts[..i]) {
      if i < |parts| {
        JoinedPrefixIsAbove(p, i);
      }
    }
    if q != "" && Above(q, p) {
      var i := AboveIsJoinedPrefix(q, p);
      assert i != 1;
      assert q == Join(parts[..i]);
    }
    if q == p {
      assert q == Join(parts[..|parts|]);
    }
  }

  lemma TouchedExactly(p: string)
    requires p != "" && p[0] == '/'
    ensures forall k :: k in Touched(p) <==> k != "" && (k == p || k + "/" <= p)
  {
    forall k ensures k in Touched(p) <==> k != "" && (k == p || k + "/" <= p) {
      TouchedIsCovering(p, k);
      AboveIsSlashPrefix(k, p);
    }
  }

  /** What is new are directories under their own names: for a slash-rooted path those at the path and its ancestors, except
      the root itself. What was there stays. */
  ghost predicate AddsDirectories(before: FileMap, after: FileMap, p: string) {
    && (forall k :: k in before ==> k in after && after[k] == before[k])
    && (forall k :: k in after && k !in before ==>
          after[k].isDirectory && after[k].name == k && after[k].size == 0 && after[k].mtime == 0)
    && (p == "/" ==> after == before)
    && (p != "/" && p != "" && p[0] == '/' ==>
          forall k :: k in after <==> k in before || (k != "" && (k == p || k + "/" <= p)))
  }

  lemma CreatedAdds(m: FileMap, p: string)
    ensures AddsDirectories(m, Created(m, p), p)
  {
    if p != "" && p[0] == '/' {
      TouchedExactly(p);
    }
  }

  lemma CreateKeepsTree(m: FileMap, p: string)
    requires Tree(m) && NamesPath(p)
    ensures Tree(Created(m, p))
    ensures forall q :: q != "" && Covers(q, p) ==> q in Created(m, p)
    ensures forall k :: k in m ==> k in Created(m, p) && Created(m, p)[k] == m[k]
  {
    var m' := Created(m, p);
    forall k, q | k in m' && q != "" && Above(q, k) ensures q in m' {
      if k !in m {
        TouchedIsCovering(p, k);
        TouchedIsCovering(p, q);
        AboveTransitive(q, k, p);
      }
    }
    forall q | q != "" && Covers(q, p) ensures q in m' {
      TouchedIsCovering(p, q);
    }
  }

  /** Under the invariant, removing leaves nothing at or below the path and everything else untouched; that nothing is done
      for an absent path makes no difference. */
  lemma RemoveIsExact(m: FileMap, p: string)
    requires Tree(m) && p != ""
    ensures Tree(Removed(m, p))
    ensures Removed(m, p) == map k | k in m && !Covers(p, k) :: m[k]
  {
    var m' := map k | k in m && !Covers(p, k) :: m[k];
    assert p !in m ==> m' == m;
    forall k, q | k in m' && q != "" && Above(q, k) ensures q in m' {
      if Covers(p, q) {
        AboveTransitive(p, q, k);
      }
    }
  }

  lemma SetKeepsTree(m: FileMap, file: FileInformation)
    requires Tree(m) && forall p :: p != "" && Above(p, file.name) ==> p in m
    ensures Tree(m[file.name := file])
  {
  }

  /** Having the parent is enough to have all ancestors. */
  lemma ParentIsEnough(m: FileMap, parent: string, k: string)
    requires Tree(m) && (parent == "" || parent in m) && Above(parent, k) && '/' !in k[|parent|+1..]
    ensures forall p :: p != "" && Above(p, k) ==> p in m
  {
    forall p | p != "" && Above(p, k) ensures p in m {
      CoversComparable(p, parent, k);
      if Above(parent, p) {
        NothingBetween(parent, p, k);
      }
    }
  }

  datatype Operation =
    | SetFile(file: FileInformation)
    | CreateDir(path: string)
    | RemoveDir(path: string)

  function Perform(m: FileMap, op: Operation): FileMap {
    match op
    case SetFile(file) => m[file.name := file]
    case CreateDir(p) => Created(m, p)
    case RemoveDir(p) => Removed(m, p)
  }

  /** What callers keep to: paths are canonical, and files are put below present directories. */
  ghost predicate Allowed(m: FileMap, op: Operation) {
    match op
    case SetFile(file) => NamesPath(file.name) && forall p :: p != "" && DirectChild(p, file.name) ==> p in m
    case CreateDir(p) => NamesPath(p) || p == "/"
    case RemoveDir(p) => NamesPath(p)
  }

  ghost predicate AllowedAll(m: FileMap, ops: seq<Operation>)
    decreases |ops|
  {
    ops == [] || (Allowed(m, ops[0]) && AllowedAll(Perform(m, ops[0]), ops[1..]))
  }

  function PerformAll(m: FileMap, ops: seq<Operation>): FileMap
    decreases |ops|
  {
    if ops == [] then m else PerformAll(Perform(m, ops[0]), ops[1..])
  }

  lemma AllowedKeepsTree(m: FileMap, op: Operation)
    requires Tree(m) && Allowed(m, op)
    ensures Tree(Perform(m, op))
  {
    match op
    case SetFile(file) =>
      var k := file.name;
      var parent := k[..LastSlash(k)];
      assert DirectChild(parent, k);
      ParentIsEnough(m, parent, k);
      SetKeepsTree(m, file);
    case CreateDir(p) =>
      if p != "/" {
        CreateKeepsTree(m, p);
      }
    case RemoveDir(p) =>
      RemoveIsExact(m, p);
  }

  /** Main result: over any sequence of such operations the index stays a tree. */
  lemma {:induction false} StaysATree(m: FileMap, ops: seq<Operation>)
    requires Tree(m) && AllowedAll(m, ops)
    ensures Tree(PerformAll(m, ops))
    decreases |ops|
  {
    if ops != [] {
      AllowedKeepsTree(m, ops[0]);
      StaysATree(Perform(m, ops[0]), ops[1..]);
    }
  }

  /** Main result: removing the topmost directory that a create has added restores the index. */
  lemma RemoveUndoesCreate(m: FileMap, p: string, top: string)
    requires Tree(m) && NamesPath(p)
    requires Covers(top, p) && top != "" && top !in m && forall q :: q != "" && Above(q, top) ==> q in m
    ensures Removed(Created(m, p), top) == m
  {
    CreateKeepsTree(m, p);
    RemoveIsExact(Created(m, p), top);
    forall k ensures k in Created(m, p) && !Covers(top, k) <==> k in m {
      TouchedIsCovering(p, k);
      if k != "" && Covers(k, p) {
        CoversComparable(k, top, p);
      }
    }
  }
}
