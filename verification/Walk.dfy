/** The remote file tree, the recorded state of it, and the directory walk. */
module Walk {
  import opened Paths
  import opened Wrappers

  // ---------------------------------------------------------------------------------------------
  // The file system below the base path
  // ---------------------------------------------------------------------------------------------

  datatype Stat = DirStat | FileStat(size: int, mtimeUnix: int, mtimeUnixNano: int, mode: int)

  /** What os.Stat finds, for every existing path strictly below the base. */
  type FileSystem = map<string, Stat>

  /** Existing paths lie below the base, end in a name, and are reached through existing directories. */
  ghost predicate WellFormed(fs: FileSystem, base: string) {
    && base != "" && base[|base|-1] != '/'
    && (forall k :: k in fs ==> Above(base, k) && k[|k|-1] != '/')
    && (forall k, p :: k in fs && Above(base, p) && Above(p, k) ==> p in fs && fs[p].DirStat?)
  }

  /** A directory `d` right below the base, and a file `f` in it. */
  ghost predicate DirectoryWithFile(base: string, d: string, f: string) {
    && base != "" && base[|base|-1] != '/'
    && DirectChild(base, d) && d[|d|-1] != '/'
    && DirectChild(d, f) && f[|f|-1] != '/'
  }

  lemma SmallTree(base: string, d: string, f: string, stat: Stat)
    requires DirectoryWithFile(base, d, f)
    ensures WellFormed(map[d := DirStat, f := stat], base) && WellFormed(map[], base) && Above(base, f)
  {
    AboveTransitive(base, d, f);
    forall p | Above(base, p) && Above(p, f) ensures p == d {
      CoversComparable(p, d, f);
      if Above(d, p) {
        NothingBetween(d, p, f);
      }
      NothingBetween(base, p, d);
    }
    forall p | Above(base, p) ensures !Above(p, d) {
      NothingBetween(base, p, d);
    }
  }

  datatype ChangeType = CHANGE | DELETE

  datatype Change = Change(
    changeType: ChangeType, path: string, mtimeUnix: int, mtimeUnixNano: int, size: int, mode: int, isDir: bool)

  type FileState = map<string, Change>

  function Entry(k: string, s: Stat): Change {
    match s
    case DirStat => Change(CHANGE, k, 0, 0, 0, 0, true)
    case FileStat(size, unix, nano, mode) => Change(CHANGE, k, unix, nano, size, mode, false)
  }

  // ---------------------------------------------------------------------------------------------
  // What the matcher leaves out
  // ---------------------------------------------------------------------------------------------

  /** What the walk knows of an ignore parser. */
  datatype Matcher = Matcher(matches: (string, bool) -> bool, requireFullScan: bool)

  predicate Ignored(base: string, matcher: Option<Matcher>, k: string, isDir: bool)
    requires base <= k
  {
    matcher.Some? && matcher.value.matches(k[|base|..], isDir)
  }

  // ---------------------------------------------------------------------------------------------
  // What a walk records
  // ---------------------------------------------------------------------------------------------

  /** One scan: a snapshot of the tree and the options it is walked with. */
  datatype Scan = Scan(fs: FileSystem, base: string, matcher: Option<Matcher>, noRecursive: bool) {

    ghost predicate Valid() {
      WellFormed(fs, base)
    }

    /** Ignored, and skipped with everything below. */
    predicate Skips(k: string)
      requires k in fs && base <= k
    {
      matcher.Some? && !matcher.value.requireFullScan && Ignored(base, matcher, k, fs[k].DirStat?)
    }

    /** Ignored, but walked through. */
    predicate Filters(k: string)
      requires k in fs && base <= k
    {
      matcher.Some? && matcher.value.requireFullScan && Ignored(base, matcher, k, fs[k].DirStat?)
    }

    /** Nothing on the way from `path` down to `k` is skipped. */
    ghost predicate Open(path: string, k: string)
      requires Valid()
    {
      forall q :: q in fs && Above(path, q) && Covers(q, k) ==> !Skips(q)
    }

    /** The walk that starts in directory `path` records `k`. */
    ghost predicate Recorded(path: string, k: string)
      requires Valid()
    {
      k in fs && Above(path, k) && Open(path, k) && (noRecursive ==> '/' !in k[|path|+1..]) && !Filters(k)
    }

    /** The entries that a walk from `path` records. */
    ghost function Walked(path: string): FileState
      requires Valid()
    {
      map k | k in fs && Recorded(path, k) :: Entry(k, fs[k])
    }

    /** The part of a walk from `path` that goes through the given children of it. */
    ghost function WalkedThrough(path: string, children: set<string>): FileState
      requires Valid()
    {
      map k | k in fs && Recorded(path, k) && ChildToward(path, k) in children :: Entry(k, fs[k])
    }
  }

  /** What an entry says of what is found at its path: for a directory that it is one, for a file size, times and mode. */
  ghost predicate Describes(c: Change, k: string, stat: Stat) {
    && c.changeType == CHANGE && c.path == k
    && match stat
       case DirStat => c.isDir && c.size == 0 && c.mtimeUnix == 0 && c.mtimeUnixNano == 0 && c.mode == 0
       case FileStat(size, unix, nano, mode) =>
         !c.isDir && c.size == size && c.mtimeUnix == unix && c.mtimeUnixNano == nano && c.mode == mode
  }

  /** Whatever a walk records is what is there. */
  lemma WalkedDescribes(s: Scan, path: string, k: string)
    requires s.Valid() && k in s.Walked(path)
    ensures k in s.fs && Describes(s.Walked(path)[k], k, s.fs[k])
  {
  }

  /** The two states agree on a path. */
  predicate SameAt(a: FileState, b: FileState, k: string) {
    (k in a <==> k in b) && (k in a ==> a[k] == b[k])
  }

  lemma SameEverywhere(a: FileState, b: FileState)
    requires forall k :: SameAt(a, b, k)
    ensures a == b
  {
    forall k ensures k in a <==> k in b {
      assert SameAt(a, b, k);
    }
    forall k | k in a ensures a[k] == b[k] {
      assert SameAt(a, b, k);
    }
  }

  /** The child of `path` toward `k` is the only direct child that covers `k`. */
  lemma ChildTowardUnique(path: string, child: string, k: string)
    requires DirectChild(path, child) && Above(path, k)
    ensures ChildToward(path, k) == child <==> Covers(child, k)
  {
    var c := ChildToward(path, k);
    if Covers(child, k) {
      CoversComparable(c, child, k);
      NothingBetween(path, c, child);
      NothingBetween(path, child, c);
    }
  }

  /** The way to something in a child: past the child, then on from there. */
  lemma OpenThroughChild(s: Scan, path: string, child: string, k: string)
    requires s.Valid() && child in s.fs && DirectChild(path, child) && Covers(child, k)
    ensures s.Open(path, k) <==> !s.Skips(child) && s.Open(child, k)
  {
    forall q | q in s.fs && Covers(q, k) ensures Above(path, q) <==> q == child || Above(child, q) {
      if Above(path, q) {
        CoversComparable(q, child, k);
        NothingBetween(path, q, child);
      } else if Above(child, q) {
        AboveTransitive(path, child, q);
      }
    }
  }

  /** What the walk records in one child: the child itself unless it is left out, and the walk from there. */
  ghost function ChildPart(s: Scan, path: string, child: string): FileState
    requires s.Valid() && child in s.fs && DirectChild(path, child)
  {
    if s.Skips(child) then map[]
    else
      (if s.Filters(child) then map[] else map[child := Entry(child, s.fs[child])])
      + (if s.noRecursive || !s.fs[child].DirStat? then map[] else s.Walked(child))
  }

  lemma ChildPartRecorded(s: Scan, path: string, child: string, k: string)
    requires s.Valid() && child in s.fs && DirectChild(path, child) && Covers(s.base, path)
    ensures k in ChildPart(s, path, child) <==> s.Recorded(path, k) && Covers(child, k)
    ensures k in ChildPart(s, path, child) ==> ChildPart(s, path, child)[k] == Entry(k, s.fs[k])
  {
    if k in s.fs && Covers(child, k) {
      OpenThroughChild(s, path, child, k);
      AboveTransitive(path, child, k);
      if Above(child, k) {
        assert k[|path|+1..][|child|-|path|-1] == '/';
        AboveTransitive(s.base, path, child);
      }
    }
  }

  lemma OneMoreChild(s: Scan, path: string, done: set<string>, child: string)
    requires s.Valid() && child in s.fs && DirectChild(path, child) && Covers(s.base, path)
    ensures s.WalkedThrough(path, done + {child}) == s.WalkedThrough(path, done) + ChildPart(s, path, child)
  {
    var l, r := s.WalkedThrough(path, done + {child}), s.WalkedThrough(path, done) + ChildPart(s, path, child);
    forall k ensures SameAt(l, r, k) {
      OneMoreChildAt(s, path, done, child, k);
    }
    SameEverywhere(l, r);
  }

  lemma OneMoreChildAt(s: Scan, path: string, done: set<string>, child: string, k: string)
    requires s.Valid() && child in s.fs && DirectChild(path, child) && Covers(s.base, path)
    ensures SameAt(s.WalkedThrough(path, done + {child}), s.WalkedThrough(path, done) + ChildPart(s, path, child), k)
  {
    ChildPartRecorded(s, path, child, k);
    if k in s.fs && Above(path, k) {
      ChildTowardUnique(path, child, k);
    }
    if Covers(child, k) {
      AboveTransitive(path, child, k);
    }
  }

  lemma AllChildrenWalked(s: Scan, path: string)
    requires s.Valid() && Covers(s.base, path)
    ensures s.WalkedThrough(path, ReadDir(s.fs, path)) == s.Walked(path)
  {
    forall k | k in s.fs && s.Recorded(path, k) ensures ChildToward(path, k) in ReadDir(s.fs, path) {
      AboveTransitive(s.base, path, ChildToward(path, k));
    }
  }

  // ---------------------------------------------------------------------------------------------
  // The walk itself
  // ---------------------------------------------------------------------------------------------

  /** A state map, shared by reference while it is being filled. */
  class StateMap {
    var m: FileState

    constructor (from: FileState)
      ensures m == from
    {
      m := from;
    }
  }

  /** os.ReadDir: the direct children of a directory, by full path. */
  function ReadDir(fs: FileSystem, path: string): set<string> {
    set k | k in fs && DirectChild(path, k)
  }

  ghost function Subtree(fs: FileSystem, path: string): set<string> {
    set k | k in fs && Above(path, k)
  }

  lemma SmallerSubtree(fs: FileSystem, path: string, child: string)
    requires child in fs && Above(path, child)
    ensures Subtree(fs, child) < Subtree(fs, path)
  {
    forall k | k in Subtree(fs, child) ensures k in Subtree(fs, path) {
      AboveTransitive(path, child, k);
    }
    assert child in Subtree(fs, path) && child !in Subtree(fs, child);
  }

  lemma MapPlusAssociates(a: FileState, b: FileState, c: FileState)
    ensures (a + b) + c == a + (b + c)
  {
  }

  method WalkDir(s: Scan, path: string, state: StateMap)
    requires s.Valid() && Covers(s.base, path)
    modifies state
    ensures state.m == old(state.m) + s.Walked(path)
    decreases Subtree(s.fs, path)
  {
    var files := ReadDir(s.fs, path);
    ghost var done: set<string> := {};
    ghost var part: FileState := map[];
    ghost var before := state.m;
    assert part == s.WalkedThrough(path, done);
    while files != {}
      invariant files !! done && files + done == ReadDir(s.fs, path)
      invariant state.m == before + part && part == s.WalkedThrough(path, done)
      decreases files
    {
      var absolutePath :| absolutePath in files;
      files := files - {absolutePath};
      ghost var added := WalkEntry(s, path, absolutePath, state);
      OneMoreChild(s, path, done, absolutePath);
      MapPlusAssociates(before, part, added);
      done, part := done + {absolutePath}, part + added;
    }
    AllChildrenWalked(s, path);
    assert done == ReadDir(s.fs, path);
  }

  /** The body of the walk's loop, for one directory entry. */
  method WalkEntry(s: Scan, path: string, absolutePath: string, state: StateMap) returns (ghost added: FileState)
    requires s.Valid() && Covers(s.base, path) && absolutePath in s.fs && DirectChild(path, absolutePath)
    modifies state
    ensures added == ChildPart(s, path, absolutePath)
    ensures state.m == old(state.m) + added
    decreases Subtree(s.fs, path), 0
  {
    var stat := s.fs[absolutePath];
    AboveTransitive(s.base, path, absolutePath);
    var relative := absolutePath[|s.base|..];
    added := map[];
    if s.matcher.Some? && !s.matcher.value.requireFullScan && s.matcher.value.matches(relative, stat.DirStat?) {
      return;
    }
    if s.matcher.None? || !s.matcher.value.requireFullScan || !s.matcher.value.matches(relative, stat.DirStat?) {
      state.m := state.m[absolutePath := Entry(absolutePath, stat)];
      added := map[absolutePath := Entry(absolutePath, stat)];
    }
    ghost var own := added;
    assert state.m == old(state.m) + own;
    if stat.DirStat? && !s.noRecursive {
      SmallerSubtree(s.fs, path, absolutePath);
      WalkDir(s, absolutePath, state);
      ghost var below := s.Walked(absolutePath);
      assert state.m == (old(state.m) + own) + below;
      MapPlusAssociates(old(state.m), own, below);
      added := own + below;
    }
  }

  // ---------------------------------------------------------------------------------------------
  // Skipping whole subtrees records the same as visiting everything and filtering
  // ---------------------------------------------------------------------------------------------

  /** Whatever lies below a skipped directory would be skipped as well. */
  ghost predicate SkipsSubtrees(s: Scan)
    requires s.Valid()
  {
    forall d, k :: d in s.fs && k in s.fs && Above(d, k) && s.Skips(d) ==> s.Skips(k)
  }

  /** What visiting everything and leaving out the ignored entries would record. */
  ghost function Filtered(s: Scan): FileState
    requires s.Valid()
  {
    map k | k in s.fs && !Ignored(s.base, s.matcher, k, s.fs[k].DirStat?) :: Entry(k, s.fs[k])
  }

  /** Main result: the skipping walk records what filtering does, precisely if skipping is sound in this sense. */
  lemma SkippingEqualsFiltering(s: Scan)
    requires s.Valid() && !s.noRecursive
    ensures s.Walked(s.base) == Filtered(s) <==> SkipsSubtrees(s)
  {
    if SkipsSubtrees(s) {
      forall k | k in s.fs
        ensures s.Recorded(s.base, k) <==> !Ignored(s.base, s.matcher, k, s.fs[k].DirStat?)
      {
        assert s.Open(s.base, k) <==> !s.Skips(k);
      }
    }
    if d, k :| d in s.fs && k in s.fs && Above(d, k) && s.Skips(d) && !s.Skips(k) {
      assert !s.Open(s.base, k);
      assert k in Filtered(s) && k !in s.Walked(s.base);
    }
  }

  /** In particular no directory on the way to a recorded path is skipped. */
  lemma RecordedHasOpenAncestors(s: Scan, k: string, p: string)
    requires s.Valid() && s.Recorded(s.base, k) && Above(s.base, p) && Above(p, k)
    ensures p in s.fs && s.fs[p].DirStat? && !s.Skips(p)
    ensures !s.noRecursive && !s.Filters(p) ==> s.Recorded(s.base, p)
  {
    forall q | q in s.fs && Above(s.base, q) && Covers(q, p) ensures !s.Skips(q) {
      AboveTransitive(q, p, k);
    }
  }
}
